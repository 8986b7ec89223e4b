/** ContainsCallExpr of the JDOQL query tree: the node for a call of
    Collection.contains, which checks its target and its arguments when it
    is built, and hands itself to a node visitor. */
module JdoqlTree {
  import opened Wrappers

  /** A Java class as far as the check needs it: its name, and whether
      java.util.Collection is assignable from it. */
  datatype JavaClass = JavaClass(name: string, isCollection: bool)

  /** The static result type of the node. */
  const BooleanClass: JavaClass := JavaClass("java.lang.Boolean", false)

  /** An expression node, by identity, with its static Java class (null
      when it is not known). */
  datatype Expression = Expression(node: nat, javaClass: Option<JavaClass>)

  /** The JDOQL token types a method call node may carry. */
  datatype TokenType = CONTAINS

  /** A built node: the token, method name and result type handed to the
      MethodCallExpr constructor, the target and the arguments (an element
      may be null). */
  datatype ContainsCall = ContainsCall(token: TokenType, methodName: string, resultType: JavaClass,
                                       target: Expression, args: seq<Option<Expression>>)

  /** The JDOQueryException the constructor throws, by message key. */
  datatype QueryError = NoCollectionType(target: Expression) | IllegalNumberOfParameters

  /** The target's type is unknown or a Collection type. */
  predicate TargetTypeAccepted(target: Expression) {
    target.javaClass.None? || target.javaClass.value.isCollection
  }

  /** ContainsCallExpr(Expression, Expression[]): the target's static type,
      when known, must be a Collection type, and there must be exactly one
      argument (a null array is refused); the type is checked first. */
  function NewContainsCall(target: Expression, args: Option<seq<Option<Expression>>>): (r: Result<ContainsCall, QueryError>)
    ensures r.Success? <==> TargetTypeAccepted(target) && args.Some? && |args.value| == 1
    ensures !TargetTypeAccepted(target) ==> r == Failure(NoCollectionType(target))
    ensures TargetTypeAccepted(target) && (args.None? || |args.value| != 1) ==> r == Failure(IllegalNumberOfParameters)
    ensures r.Success? ==> r.value.token == CONTAINS && r.value.methodName == "contains"
                           && r.value.resultType == BooleanClass
                           && r.value.target == target && r.value.args == args.value
  {
    if target.javaClass.Some? && !target.javaClass.value.isCollection then Failure(NoCollectionType(target))
    else if args.None? || |args.value| != 1 then Failure(IllegalNumberOfParameters)
    else Success(ContainsCall(CONTAINS, "contains", BooleanClass, target, args.value))
  }

  /** ContainsCallExpr(Expression, Expression): the argument wrapped in a
      one-element array, so only the type check can fail. */
  function NewContainsCallOf(target: Expression, arg: Option<Expression>): (r: Result<ContainsCall, QueryError>)
    ensures r.Success? <==> TargetTypeAccepted(target)
    ensures r.Failure? ==> r.error == NoCollectionType(target)
    ensures r.Success? ==> r.value.target == target && r.value.args == [arg]
  {
    NewContainsCall(target, Some([arg]))
  }

  /** A node visitor: what its arrive does (the visitor's state after the
      call), and what its leave and walkNextChild answer for a node. */
  datatype NodeVisitor<S, !R> = NodeVisitor(
    arrive: ContainsCall -> S,
    leave: (ContainsCall, seq<R>) -> R,
    walkNextChild: (ContainsCall, R, int) -> bool)

  /** arrive: the visitor's arrive on this node. */
  function Arrive<S, R>(node: ContainsCall, visitor: NodeVisitor<S, R>): (s: S)
    ensures s == visitor.arrive(node)
  {
    visitor.arrive(node)
  }

  /** leave: the visitor's answer for this node and the unchanged results. */
  function Leave<S, R>(node: ContainsCall, visitor: NodeVisitor<S, R>, results: seq<R>): (r: R)
    ensures r == visitor.leave(node, results)
  {
    visitor.leave(node, results)
  }

  /** walkNextChild: the visitor's answer for this node, the previous
      child's result and the index, unchanged. */
  function WalkNextChild<S, R>(node: ContainsCall, visitor: NodeVisitor<S, R>, resultOfPreviousChild: R, indexOfNextChild: int): (r: bool)
    ensures r == visitor.walkNextChild(node, resultOfPreviousChild, indexOfNextChild)
  {
    visitor.walkNextChild(node, resultOfPreviousChild, indexOfNextChild)
  }

  /** A target of a non-Collection type is reported as such whatever the
      arguments: the type error hides an arity error. */
  lemma TypeErrorFirst(target: Expression, args: Option<seq<Option<Expression>>>)
    requires target.javaClass.Some? && !target.javaClass.value.isCollection
    requires args.None? || |args.value| != 1
    ensures NewContainsCall(target, args) == Failure(NoCollectionType(target))
  {
  }

  /** Both constructors accept the same targets, and build the same node
      for one argument. */
  lemma ConstructorsAgree(target: Expression, arg: Option<Expression>)
    ensures NewContainsCallOf(target, arg).Success? <==> NewContainsCall(target, Some([arg])).Success?
    ensures NewContainsCallOf(target, arg).Success? ==>
              NewContainsCallOf(target, arg).value == NewContainsCall(target, Some([arg])).value
  {
  }
}
