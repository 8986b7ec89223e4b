/** Failure-carrying values shared by the whole model, and the left fold
    over a sequence that the configuration readers are specified with. */
module Wrappers {

  datatype Option<+T> = None | Some(value: T) {
    function GetOr(default: T): T {
      match this
      case Some(v) => v
      case None => default
    }
  }

  datatype Result<+R, +E> = Success(value: R) | Failure(error: E) {
    predicate IsFailure() {
      Failure?
    }

    function PropagateFailure<U>(): Result<U, E>
      requires Failure?
    {
      Failure(error)
    }

    function Extract(): R
      requires Success?
    {
      value
    }
  }

  /** A void Java method that either returns normally or throws. */
  datatype Outcome<+E> = Pass | Fail(error: E)

  /** Processes `xs` from left to right, stopping at the first failing step;
      defined on the last element so that a loop over `xs[..i]` follows it. */
  function FoldLeft<S, A, E>(step: (S, A) -> Result<S, E>, init: S, xs: seq<A>): Result<S, E>
    decreases |xs|
  {
    if |xs| == 0 then Success(init)
    else
      match FoldLeft(step, init, xs[..|xs| - 1])
      case Failure(e) => Failure(e)
      case Success(s) => step(s, xs[|xs| - 1])
  }

  /** One more element is one more step. */
  lemma FoldLeftSnoc<S, A, E>(step: (S, A) -> Result<S, E>, init: S, xs: seq<A>, x: A)
    ensures FoldLeft(step, init, xs + [x]) ==
            match FoldLeft(step, init, xs)
            case Failure(e) => Failure(e)
            case Success(s) => step(s, x)
  {
    assert (xs + [x])[..|xs|] == xs;
  }

  /** Once a prefix has failed, the whole fold fails with the same error. */
  lemma {:induction false} FoldLeftFailureSticks<S, A, E>(step: (S, A) -> Result<S, E>, init: S, xs: seq<A>, k: nat)
    requires k <= |xs|
    requires FoldLeft(step, init, xs[..k]).Failure?
    ensures FoldLeft(step, init, xs) == FoldLeft(step, init, xs[..k])
    decreases |xs| - k
  {
    if k < |xs| {
      FoldLeftSnoc(step, init, xs[..k], xs[k]);
      assert xs[..k] + [xs[k]] == xs[..k + 1];
      FoldLeftFailureSticks(step, init, xs, k + 1);
    } else {
      assert xs[..k] == xs;
    }
  }

  /** A successful fold has succeeded on every prefix. */
  lemma {:induction false} FoldLeftPrefixSucceeds<S, A, E>(step: (S, A) -> Result<S, E>, init: S, xs: seq<A>, k: nat)
    requires k <= |xs|
    requires FoldLeft(step, init, xs).Success?
    ensures FoldLeft(step, init, xs[..k]).Success?
  {
    if FoldLeft(step, init, xs[..k]).Failure? {
      FoldLeftFailureSticks(step, init, xs, k);
    }
  }

  /** A loop that has folded `xs[..i]` into `s` folds `xs[..i + 1]` by one step. */
  lemma FoldLeftStepsAt<S, A, E>(step: (S, A) -> Result<S, E>, init: S, xs: seq<A>, i: nat, s: S)
    requires i < |xs| && FoldLeft(step, init, xs[..i]) == Success(s)
    ensures FoldLeft(step, init, xs[..i + 1]) == step(s, xs[i])
  {
    FoldLeftSnoc(step, init, xs[..i], xs[i]);
    assert xs[..i] + [xs[i]] == xs[..i + 1];
  }

  /** A loop that has folded `xs[..i]` into `s` and whose next step fails
      has found the result of the whole fold. */
  lemma FoldLeftFailsAt<S, A, E>(step: (S, A) -> Result<S, E>, init: S, xs: seq<A>, i: nat, s: S)
    requires i < |xs| && FoldLeft(step, init, xs[..i]) == Success(s)
    requires step(s, xs[i]).Failure?
    ensures FoldLeft(step, init, xs) == step(s, xs[i])
  {
    FoldLeftStepsAt(step, init, xs, i, s);
    FoldLeftFailureSticks(step, init, xs, i + 1);
  }

  /** A fold step that, when it succeeds, sets the one entry `entryOf`
      gives for the element, or changes nothing when that is None. */
  ghost predicate SetsOneEntry<K(!new), V(!new), A(!new), E>(step: (map<K, V>, A) -> Result<map<K, V>, E>, entryOf: A -> Option<(K, V)>) {
    forall m, x :: step(m, x).Success? ==>
      step(m, x).value == if entryOf(x).Some? then m[entryOf(x).value.0 := entryOf(x).value.1] else m
  }

  /** A successful fold of such steps holds exactly the keys of the entries
      of its elements. */
  lemma {:induction false} FoldLeftEntryKeys<K(!new), V(!new), A(!new), E>(step: (map<K, V>, A) -> Result<map<K, V>, E>,
                                                         entryOf: A -> Option<(K, V)>, xs: seq<A>, i: nat)
    requires SetsOneEntry(step, entryOf)
    requires i <= |xs| && FoldLeft(step, map[], xs[..i]).Success?
    ensures forall key :: key in FoldLeft(step, map[], xs[..i]).value <==>
              exists k :: 0 <= k < i && entryOf(xs[k]).Some? && entryOf(xs[k]).value.0 == key
  {
    if i > 0 {
      FoldLeftSnoc(step, map[], xs[..i - 1], xs[i - 1]);
      assert xs[..i - 1] + [xs[i - 1]] == xs[..i];
      FoldLeftEntryKeys(step, entryOf, xs, i - 1);
    }
  }

  /** ...and each key holds the value of the last element whose entry has
      that key. */
  lemma {:induction false} FoldLeftEntryLastWins<K(!new), V(!new), A(!new), E>(step: (map<K, V>, A) -> Result<map<K, V>, E>,
                                                             entryOf: A -> Option<(K, V)>, xs: seq<A>, i: nat, k: nat)
    requires SetsOneEntry(step, entryOf)
    requires i <= |xs| && FoldLeft(step, map[], xs[..i]).Success?
    requires k < i && entryOf(xs[k]).Some?
    requires forall m :: k < m < i ==> entryOf(xs[m]).None? || entryOf(xs[m]).value.0 != entryOf(xs[k]).value.0
    ensures entryOf(xs[k]).value.0 in FoldLeft(step, map[], xs[..i]).value
    ensures FoldLeft(step, map[], xs[..i]).value[entryOf(xs[k]).value.0] == entryOf(xs[k]).value.1
  {
    FoldLeftSnoc(step, map[], xs[..i - 1], xs[i - 1]);
    assert xs[..i - 1] + [xs[i - 1]] == xs[..i];
    if k < i - 1 {
      FoldLeftEntryLastWins(step, entryOf, xs, i - 1, k);
    }
  }

  /** The step accepts an element exactly when it has an entry and, for an
      element that `strict` marks, the entry's key is new. */
  ghost predicate ChecksNewKey<K(!new), V(!new), A(!new), E>(step: (map<K, V>, A) -> Result<map<K, V>, E>,
                                                             entryOf: A -> Option<(K, V)>, strict: A -> bool) {
    forall m, x :: step(m, x).Success? <==> entryOf(x).Some? && !(strict(x) && entryOf(x).value.0 in m)
  }

  /** No element among the first `i` that `strict` marks repeats the key of
      an earlier entry. */
  ghost predicate NoStrictRepeat<K, V, A>(xs: seq<A>, entryOf: A -> Option<(K, V)>, strict: A -> bool, i: int)
    requires 0 <= i <= |xs|
  {
    forall j, k :: 0 <= j < k < i && strict(xs[k]) && entryOf(xs[j]).Some? && entryOf(xs[k]).Some? ==>
      entryOf(xs[j]).value.0 != entryOf(xs[k]).value.0
  }

  /** Such a fold succeeds on the first `i` elements exactly when each has
      an entry and no marked one repeats a key. */
  lemma {:induction false} FoldLeftEntrySucceeds<K(!new), V(!new), A(!new), E>(step: (map<K, V>, A) -> Result<map<K, V>, E>,
                                                                             entryOf: A -> Option<(K, V)>, strict: A -> bool,
                                                                             xs: seq<A>, i: nat)
    requires SetsOneEntry(step, entryOf) && ChecksNewKey(step, entryOf, strict)
    requires i <= |xs|
    ensures FoldLeft(step, map[], xs[..i]).Success? <==>
              (forall k :: 0 <= k < i ==> entryOf(xs[k]).Some?) && NoStrictRepeat(xs, entryOf, strict, i)
  {
    if i > 0 {
      FoldLeftSnoc(step, map[], xs[..i - 1], xs[i - 1]);
      assert xs[..i - 1] + [xs[i - 1]] == xs[..i];
      FoldLeftEntrySucceeds(step, entryOf, strict, xs, i - 1);
      if FoldLeft(step, map[], xs[..i - 1]).Success? {
        FoldLeftEntryKeys(step, entryOf, xs, i - 1);
      }
    }
  }
}
