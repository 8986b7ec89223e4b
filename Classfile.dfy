/** InsnTarget of the enhancer's class-file model: the pseudo-instruction
    that marks a branch target in an instruction stream. It takes no room
    in the code, moves nothing on the operand stack, and carries one flag
    that says whether some branch goes to it. */
module Classfile {

  /** The pseudo-opcode of a branch target (opc_target); its value is
      defined in VMConstants, which is not part of this model. */
  const OpcTarget: int

  /** The offset of an instruction not yet placed (Insn.NO_OFFSET); Insn
      is not part of this model. */
  const NoOffset: int

  /** What `getClass()` prints for an InsnTarget. */
  const InsnTargetClass: string := "class org.apache.jdo.impl.enhancer.classfile.InsnTarget"

  /** The caller's java.util.Stack of difference messages. */
  class MessageStack {
    var contents: seq<string>

    constructor ()
      ensures contents == []
    {
      contents := [];
    }

    method Push(m: string)
      modifies this
      ensures contents == old(contents) + [m]
    {
      contents := contents + [m];
    }
  }

  /** `String.valueOf(boolean)`. */
  function BoolString(b: bool): string {
    if b then "true" else "false"
  }

  class InsnTarget {
    const opcode: int
    const offset: int
    var branchTarget: bool

    /** The public constructor: a target with no offset yet. */
    constructor ()
      ensures opcode == OpcTarget && offset == NoOffset && !branchTarget
    {
      opcode := OpcTarget;
      offset := NoOffset;
      branchTarget := false;
    }

    /** The package constructor: a target at `offset`. */
    constructor AtOffset(offset: int)
      ensures opcode == OpcTarget && this.offset == offset && !branchTarget
    {
      opcode := OpcTarget;
      this.offset := offset;
      branchTarget := false;
    }

    function NStackArgs(): int { 0 }

    function NStackResults(): int { 0 }

    function ArgTypes(): string { "" }

    function ResultTypes(): string { "" }

    predicate Branches() { false }

    /** Marks the target as the target of a branch. */
    method SetBranchTarget()
      modifies this
      ensures branchTarget
    {
      branchTarget := true;
    }

    predicate IsBranchTarget()
      reads this
    {
      branchTarget
    }

    /** size: a branch target occupies no bytes. */
    function Size(): int { 0 }

    /** store: writes nothing and answers the index it was given. */
    method Store(buf: array<bv8>, index: int) returns (next: int)
      ensures next == index
      ensures next - index == Size()
    {
      next := index;
    }

    /** isEqual: structural equality with `obj`. A null object or one of
        another class is unequal, after two messages are pushed (its class,
        then this one's); an InsnTarget is unequal when the Insn-level
        comparison fails (`superEqual`, having pushed `superPushes`) or
        when the branch-target flags differ (two messages, the other's flag
        first). */
    method IsEqual(msg: MessageStack, obj: Object, superEqual: bool, superPushes: seq<string>) returns (r: bool)
      modifies msg
      ensures r <==> obj.Insn? && superEqual && obj.target.branchTarget == branchTarget
      ensures !obj.Insn? ==>
                msg.contents == old(msg.contents) + [ObjClassMessage(obj), "this.getClass() = " + InsnTargetClass]
      ensures obj.Insn? && !superEqual ==> msg.contents == old(msg.contents) + superPushes
      ensures obj.Insn? && superEqual && obj.target.branchTarget != branchTarget ==>
                msg.contents == old(msg.contents) + superPushes
                                + ["branchTarget = " + BoolString(obj.target.branchTarget), "branchTarget = " + BoolString(branchTarget)]
      ensures r ==> msg.contents == old(msg.contents) + superPushes
    {
      if !obj.Insn? {
        msg.Push(ObjClassMessage(obj));
        msg.Push("this.getClass() = " + InsnTargetClass);
        return false;
      }
      var other := obj.target;
      msg.contents := msg.contents + superPushes;
      if !superEqual {
        return false;
      }
      if branchTarget != other.branchTarget {
        msg.Push("branchTarget = " + BoolString(other.branchTarget));
        msg.Push("branchTarget = " + BoolString(branchTarget));
        return false;
      }
      return true;
    }
  }

  /** The object isEqual compares with: null, an InsnTarget, or an object
      of another class (by class name). */
  datatype Object = Null | Insn(target: InsnTarget) | OtherObject(className: string)

  /** The message about the compared object's class. */
  function ObjClassMessage(obj: Object): string {
    match obj
    case Null => "obj/obj.getClass() = null"
    case Insn(_) => "obj/obj.getClass() = " + InsnTargetClass
    case OtherObject(c) => "obj/obj.getClass() = class " + c
  }

  /** A branch target occupies no bytes and moves nothing on the operand
      stack, and it is not itself a branch. */
  lemma BranchTargetIsNeutral(t: InsnTarget)
    ensures t.Size() == 0 && t.NStackArgs() == 0 && t.NStackResults() == 0
    ensures t.ArgTypes() == "" && t.ResultTypes() == "" && !t.Branches()
  {
  }

  /** Setting the flag is one-way and idempotent: once set, setting it
      again leaves it set, and isBranchTarget answers true. */
  method SetBranchTargetTwice(t: InsnTarget) returns (first: bool, second: bool)
    modifies t
    ensures first && second && t.branchTarget
  {
    t.SetBranchTarget();
    first := t.IsBranchTarget();
    t.SetBranchTarget();
    second := t.IsBranchTarget();
  }

  /** Two fresh targets with the Insn-level comparison passing are equal
      until one of them becomes a branch target. */
  method FreshTargetsEqualUntilMarked(superPushes: seq<string>) returns (before: bool, after: bool)
    ensures before && !after
  {
    var a := new InsnTarget();
    var b := new InsnTarget();
    var msg := new MessageStack();
    before := a.IsEqual(msg, Insn(b), true, superPushes);
    b.SetBranchTarget();
    after := a.IsEqual(msg, Insn(b), true, superPushes);
  }
}
