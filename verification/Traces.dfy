/** Runs as sequences of states, one more than there are steps. */
module Traces {
  import opened Wrappers

  /** Each state follows from the one before by the next step. */
  ghost predicate Chain<S(!new)>(step: (string, S, S) -> bool, ids: seq<string>, trace: seq<S>) {
    |trace| == |ids| + 1 && forall i {:trigger ids[i]} | 0 <= i < |ids| :: step(ids[i], trace[i], trace[i + 1])
  }

  lemma ChainAt<S(!new)>(step: (string, S, S) -> bool, ids: seq<string>, trace: seq<S>, i: nat)
    requires Chain(step, ids, trace) && i < |ids|
    ensures |trace| == |ids| + 1 && step(ids[i], trace[i], trace[i + 1])
  {
    var _ := ids[i];
  }

  lemma {:induction false} ChainOneMore<S(!new)>(step: (string, S, S) -> bool, ids: seq<string>, trace: seq<S>,
                                                 id: string, s: S)
    requires Chain(step, ids, trace) && step(id, trace[|trace| - 1], s)
    ensures Chain(step, ids + [id], trace + [s])
  {
    forall i | 0 <= i < |ids + [id]|
      ensures step((ids + [id])[i], (trace + [s])[i], (trace + [s])[i + 1])
    {
      if i < |ids| {
        ChainAt(step, ids, trace, i);
      }
    }
  }

  /** A step that goes nowhere can be left out. */
  lemma {:induction false} ChainWithout<S(!new)>(step: (string, S, S) -> bool, ids: seq<string>, trace: seq<S>, i: nat)
    requires Chain(step, ids, trace) && i < |ids| && trace[i + 1] == trace[i]
    ensures Chain(step, ids[..i] + ids[i + 1..], trace[..i] + trace[i + 1..])
  {
    var fewer, shorter := ids[..i] + ids[i + 1..], trace[..i] + trace[i + 1..];
    forall j | 0 <= j < |fewer|
      ensures step(fewer[j], shorter[j], shorter[j + 1])
    {
      ChainAt(step, ids, trace, if j < i then j else j + 1);
    }
  }

  // ----- Chains that may fail on the way

  /** A chain through the first steps. */
  ghost predicate Begins<S(!new)>(step: (string, S, S) -> bool, ids: seq<string>, trace: seq<S>) {
    0 < |trace| <= |ids| + 1 && Chain(step, ids[..|trace| - 1], trace)
  }

  /** The chain goes through all steps, or up to one that fails. */
  ghost predicate Ends<S(!new), E(!new)>(step: (string, S, S) -> bool, fails: (string, S, E) -> bool,
                                         ids: seq<string>, trace: seq<S>, failure: Option<E>) {
    && Begins(step, ids, trace)
    && match failure
       case None => |trace| == |ids| + 1
       case Some(e) => |trace| <= |ids| && fails(ids[|trace| - 1], trace[|trace| - 1], e)
  }

  /** From this state there is at most one next state, and none if the step fails. */
  ghost predicate Decided<S(!new), E(!new)>(step: (string, S, S) -> bool, fails: (string, S, E) -> bool,
                                            id: string, s: S) {
    && (forall x, y :: step(id, s, x) && step(id, s, y) ==> x == y)
    && (forall x, e :: step(id, s, x) ==> !fails(id, s, e))
  }

  lemma {:induction false} ChainStep<S(!new)>(step: (string, S, S) -> bool, ids: seq<string>, trace: seq<S>, i: nat)
    requires Begins(step, ids, trace) && i < |trace| - 1
    ensures step(ids[i], trace[i], trace[i + 1])
  {
    ChainAt(step, ids[..|trace| - 1], trace, i);
  }

  /** Two chains through the same steps agree as far as both go, if the first is decided. */
  lemma {:induction false} BeginsAlike<S(!new), E(!new)>(step: (string, S, S) -> bool, fails: (string, S, E) -> bool,
                                                         ids: seq<string>, a: seq<S>, b: seq<S>, n: nat)
    requires Begins(step, ids, a) && Begins(step, ids, b) && a[0] == b[0]
    requires forall k | 0 <= k < |ids| && k < |a| :: Decided(step, fails, ids[k], a[k])
    requires n < |a| && n < |b|
    ensures a[n] == b[n]
  {
    if n > 0 {
      BeginsAlike(step, fails, ids, a, b, n - 1);
      assert Decided(step, fails, ids[n - 1], a[n - 1]);
      ChainStep(step, ids, a, n - 1);
      ChainStep(step, ids, b, n - 1);
    }
  }

  /** A decided chain does not go on where another one fails, and ends no earlier. */
  lemma {:induction false} SameEnd<S(!new), E(!new)>(step: (string, S, S) -> bool, fails: (string, S, E) -> bool,
                                                     ids: seq<string>, a: seq<S>, b: seq<S>,
                                                     fa: Option<E>, fb: Option<E>)
    requires Ends(step, fails, ids, a, fa) && Ends(step, fails, ids, b, fb) && a[0] == b[0]
    requires forall k | 0 <= k < |ids| && k < |a| :: Decided(step, fails, ids[k], a[k])
    ensures |a| == |b|
  {
    var n := if |a| < |b| then |a| - 1 else |b| - 1;
    BeginsAlike(step, fails, ids, a, b, n);
    if |a| < |b| {
      assert Decided(step, fails, ids[n], a[n]);
      ChainStep(step, ids, b, n);
    } else if |b| < |a| {
      assert Decided(step, fails, ids[n], a[n]);
      ChainStep(step, ids, a, n);
    }
  }

  lemma {:induction false} EndsAlike<S(!new), E(!new)>(step: (string, S, S) -> bool, fails: (string, S, E) -> bool,
                                                       ids: seq<string>, a: seq<S>, b: seq<S>,
                                                       fa: Option<E>, fb: Option<E>)
    requires Ends(step, fails, ids, a, fa) && Ends(step, fails, ids, b, fb) && a[0] == b[0]
    requires forall k | 0 <= k < |ids| && k < |a| :: Decided(step, fails, ids[k], a[k])
    ensures a == b && (fa.Some? <==> fb.Some?)
  {
    SameEnd(step, fails, ids, a, b, fa, fb);
    forall n | 0 <= n < |a|
      ensures a[n] == b[n]
    {
      BeginsAlike(step, fails, ids, a, b, n);
    }
  }

  /** A step that goes nowhere can be left out, and the end is the same. */
  lemma {:induction false} EndsWithout<S(!new), E(!new)>(step: (string, S, S) -> bool, fails: (string, S, E) -> bool,
                                                         ids: seq<string>, trace: seq<S>, failure: Option<E>, i: nat)
    requires Ends(step, fails, ids, trace, failure) && i < |trace| - 1 && trace[i + 1] == trace[i]
    ensures Ends(step, fails, ids[..i] + ids[i + 1..], trace[..i] + trace[i + 1..], failure)
    ensures (trace[..i] + trace[i + 1..])[0] == trace[0]
    ensures (trace[..i] + trace[i + 1..])[|trace| - 2] == trace[|trace| - 1]
  {
    ChainWithout(step, ids[..|trace| - 1], trace, i);
    PrefixWithout(ids, |trace| - 1, i);
  }

  /** A step that may go nowhere can be put in, and the end is the same. */
  lemma {:induction false} EndsWith<S(!new), E(!new)>(step: (string, S, S) -> bool, fails: (string, S, E) -> bool,
                                                      ids: seq<string>, trace: seq<S>, failure: Option<E>, i: nat)
    requires i < |ids| && i < |trace| && step(ids[i], trace[i], trace[i])
    requires Ends(step, fails, ids[..i] + ids[i + 1..], trace, failure)
    ensures Ends(step, fails, ids, trace[..i + 1] + trace[i..], failure)
    ensures (trace[..i + 1] + trace[i..])[0] == trace[0]
    ensures (trace[..i + 1] + trace[i..])[|trace|] == trace[|trace| - 1]
  {
    var fewer, longer := ids[..i] + ids[i + 1..], trace[..i + 1] + trace[i..];
    forall j | 0 <= j < |trace|
      ensures step(ids[..|trace|][j], longer[j], longer[j + 1])
    {
      if j < i {
        ChainStep(step, fewer, trace, j);
      } else if j > i {
        ChainStep(step, fewer, trace, j - 1);
      }
    }
  }

  /** A failure before the place does not see whether the step is there. */
  lemma {:induction false} EndsEarly<S(!new), E(!new)>(step: (string, S, S) -> bool, fails: (string, S, E) -> bool,
                                                       ids: seq<string>, trace: seq<S>, failure: Option<E>, i: nat)
    requires i < |ids| && |trace| <= i
    ensures Ends(step, fails, ids, trace, failure) <==> Ends(step, fails, ids[..i] + ids[i + 1..], trace, failure)
  {
    var fewer := ids[..i] + ids[i + 1..];
    if trace != [] {
      assert fewer[..|trace| - 1] == ids[..|trace| - 1];
      assert fewer[|trace| - 1] == ids[|trace| - 1];
    }
  }

  /** Leaving out an element of a prefix. */
  lemma PrefixWithout<T>(s: seq<T>, n: nat, i: nat)
    requires i < n <= |s|
    ensures var fewer := s[..i] + s[i + 1..];
      && s[..n][..i] + s[..n][i + 1..] == fewer[..n - 1]
      && (n < |s| ==> fewer[n - 1] == s[n])
  {
    var fewer := s[..i] + s[i + 1..];
    assert s[..n][..i] == s[..i];
    assert s[..n][i + 1..] == s[i + 1..n];
    assert fewer[..n - 1] == s[..i] + s[i + 1..n];
  }
}
