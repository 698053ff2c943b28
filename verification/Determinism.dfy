/** Evaluating is a function of the request, and policies that decide nothing do not matter. */
module Determinism {
  import opened Wrappers
  import opened JsonValues
  import opened SchemaSemantics
  import opened Keywords
  import opened KeywordMeaning
  import opened FieldPaths
  import opened Decisions
  import opened Constraints
  import opened MergePatches
  import opened Store
  import opened Traces
  import opened Evaluations
  import opened RunSafety
  import Providers

  // ----- Determinism

  /** No policy-written `allOf` meets a new pattern in this decision. */
  predicate ClashFree(c: Context, d: PolicyDecision) {
    forall path | path in c.schemas && Contributed(d, path).Some? :: !Clash(c.schemas[path], Contributed(d, path).value)
  }

  lemma {:induction false} ContextUnique(d: PolicyDecision, id: string, c: Context, a: Context, b: Context)
    requires ContextMerged(d, id, c, a) && ContextMerged(d, id, c, b) && ClashFree(c, d)
    ensures a == b
  {
    if d.constraints.Some? {
      var added := d.constraints.value;
      assert a.schemas.Keys == b.schemas.Keys;
      forall p | p in a.schemas
        ensures a.schemas[p] == b.schemas[p]
      {
        if p in Constrained(added) && p in c.schemas {
          assert !Clash(c.schemas[p], Contributed(d, p).value);
          MergesToUnique(c.schemas[p], added[p].fields, a.schemas[p]);
          MergesToUnique(c.schemas[p], added[p].fields, b.schemas[p]);
        }
      }
      assert a.schemas == b.schemas;
    }
  }

  /** Without clashes a step has one result. */
  lemma {:induction false} StepUnique(w: Setting, id: string, s: RunState, a: RunState, b: RunState)
    requires StepOk(w, id, s, a) && StepOk(w, id, s, b) && ClashFree(s.context, DecisionOf(w, id, s))
    ensures a == b
  {
    if EvaluationOf(w, id, s).Defined? {
      ContextUnique(DecisionOf(w, id, s), id, s.context, a.context, b.context);
    }
  }

  /** Without clashes a step that succeeds cannot fail as well. */
  lemma {:induction false} StepDoesNotFail(w: Setting, id: string, s: RunState, a: RunState, error: EvaluationError)
    requires StepOk(w, id, s, a) && ClashFree(s.context, DecisionOf(w, id, s))
    ensures !StepFails(w, id, s, error)
  {
    if StepFails(w, id, s, error) {
      OkDoesNotRefuse(w.voc, id, DecisionOf(w, id, s), s, a, error);
    }
  }

  lemma {:induction false} OkDoesNotRefuse(voc: Vocabulary, id: string, d: PolicyDecision, s: RunState, a: RunState,
                                           error: EvaluationError)
    requires Applied(voc, id, d, s, a) && ClashFree(s.context, d)
    ensures !Refuses(voc, id, d, s, error)
  {
    if Refuses(voc, id, d, s, error) {
      if d.constraints.Some? && Refused(s.context.schemas, d.constraints.value) != {} {
        var p :| p in Refused(s.context.schemas, d.constraints.value);
        assert MergesTo(s.context.schemas[p], d.constraints.value[p].fields, a.context.schemas[p]);
        assert !Clash(s.context.schemas[p], Contributed(d, p).value);
        MergesToUnique(s.context.schemas[p], d.constraints.value[p].fields, a.context.schemas[p]);
      } else if !Providers.Disjoint(s.context.providers, d.providerConstraints) {
        var c :| ContextMerged(d, id, s.context, c) && RefusesIn(voc, id, d, c, error);
        ContextUnique(d, id, s.context, a.context, c);
      }
    }
  }

  /** The policies a trace has been through, and the one it stopped at, decide without clashes. */
  ghost predicate ClashFreeAnswer(w: Setting, rows: seq<Row>, trace: seq<RunState>) {
    forall k | 0 <= k < |rows| && k < |trace| :: ClashFreeAt(w, rows[k].id, trace[k])
  }

  ghost predicate ClashFreeAt(w: Setting, policyID: string, s: RunState) {
    ClashFree(s.context, DecisionOf(w, policyID, s))
  }

  /** Without a clash a policy either takes one step or fails. */
  lemma {:induction false} ClashFreeIsDecided(w: Setting, policyID: string, s: RunState)
    requires ClashFreeAt(w, policyID, s)
    ensures Decided(Steps(w), Failures(w), policyID, s)
  {
    forall x, y | StepOk(w, policyID, s, x) && StepOk(w, policyID, s, y)
      ensures x == y
    {
      StepUnique(w, policyID, s, x, y);
    }
    forall x, e | StepOk(w, policyID, s, x)
      ensures !StepFails(w, policyID, s, e)
    {
      StepDoesNotFail(w, policyID, s, x, e);
    }
  }

  lemma {:induction false} TraceIsDecided(w: Setting, rows: seq<Row>, a: seq<RunState>)
    requires ClashFreeAnswer(w, rows, a)
    ensures forall k | 0 <= k < |PolicyIds(rows)| && k < |a| :: Decided(Steps(w), Failures(w), PolicyIds(rows)[k], a[k])
  {
    forall k | 0 <= k < |PolicyIds(rows)| && k < |a|
      ensures Decided(Steps(w), Failures(w), PolicyIds(rows)[k], a[k])
    {
      assert ClashFreeAt(w, rows[k].id, a[k]);
      ClashFreeIsDecided(w, rows[k].id, a[k]);
    }
  }

  /** Two runs from the same state agree as far as both go, if the first has no clash. */
  lemma {:induction false} SameStates(w: Setting, rows: seq<Row>, a: seq<RunState>, b: seq<RunState>, n: nat)
    requires 0 < |a| <= |rows| + 1 && IsTrace(w, rows[..|a| - 1], a) && ClashFreeAnswer(w, rows, a)
    requires 0 < |b| <= |rows| + 1 && IsTrace(w, rows[..|b| - 1], b)
    requires a[0] == b[0] && n < |a| && n < |b|
    ensures a[n] == b[n]
  {
    TraceIsDecided(w, rows, a);
    PrefixIds(rows, |a| - 1);
    PrefixIds(rows, |b| - 1);
    BeginsAlike(Steps(w), Failures(w), PolicyIds(rows), a, b, n);
  }

  lemma PrefixIds(rows: seq<Row>, n: nat)
    requires n <= |rows|
    ensures PolicyIds(rows[..n]) == PolicyIds(rows)[..n]
  {
  }

  /** The same failure, except for which of several conflicts or violations is reported. */
  predicate SameFailure(a: EvaluationError, b: EvaluationError) {
    match (a, b)
    case (ConstraintConflict(p, _, _), ConstraintConflict(q, _, _)) => p == q
    case (ConstraintViolation(p, _), ConstraintViolation(q, _)) => p == q
    case _ => a == b
  }

  lemma {:induction false} RefusalsAlike(voc: Vocabulary, id: string, d: PolicyDecision, s: RunState,
                                         a: EvaluationError, b: EvaluationError)
    requires Refuses(voc, id, d, s, a) && Refuses(voc, id, d, s, b) && ClashFree(s.context, d)
    ensures SameFailure(a, b)
  {
    if !d.rejected && (d.constraints.None? || Refused(s.context.schemas, d.constraints.value) == {})
       && !Providers.Disjoint(s.context.providers, d.providerConstraints) {
      var c :| ContextMerged(d, id, s.context, c) && RefusesIn(voc, id, d, c, a);
      var c' :| ContextMerged(d, id, s.context, c') && RefusesIn(voc, id, d, c', b);
      ContextUnique(d, id, s.context, c, c');
    }
  }

  lemma {:induction false} FailuresAlike(w: Setting, id: string, s: RunState, a: EvaluationError, b: EvaluationError)
    requires StepFails(w, id, s, a) && StepFails(w, id, s, b) && ClashFreeAt(w, id, s)
    ensures SameFailure(a, b)
  {
    if EvaluationOf(w, id, s).Defined? {
      RefusalsAlike(w.voc, id, DecisionOf(w, id, s), s, a, b);
    }
  }

  /**
   Evaluating is a function. If one evaluation of a request meets no clash, every evaluation of it
   succeeds with the same response, or fails at the same policy for the same reason.
   */
  lemma {:induction false} AnswerUnique(w: Setting, rows: seq<Row>, instance: Fields,
                                        a: seq<RunState>, r: Result<Response, EvaluationError>,
                                        b: seq<RunState>, q: Result<Response, EvaluationError>)
    requires Answers(w, rows, instance, a, r) && ClashFreeAnswer(w, rows, a)
    requires Answers(w, rows, instance, b, q)
    ensures a == b
    ensures if r.Ok? then q == r else q.Err? && SameFailure(r.error, q.error)
  {
    TraceIsDecided(w, rows, a);
    EndsAlike(Steps(w), Failures(w), PolicyIds(rows), a, b, FailureOf(r), FailureOf(q));
    if r.Err? {
      SameAnswer(w, rows, a, r.error, q.error);
    }
  }

  lemma {:induction false} SameAnswer(w: Setting, rows: seq<Row>, a: seq<RunState>,
                                      e: EvaluationError, f: EvaluationError)
    requires Ends(Steps(w), Failures(w), PolicyIds(rows), a, Some(e)) && ClashFreeAnswer(w, rows, a)
    requires Ends(Steps(w), Failures(w), PolicyIds(rows), a, Some(f))
    ensures SameFailure(e, f)
  {
    var n := |a| - 1;
    assert ClashFreeAt(w, rows[n].id, a[n]);
    FailuresAlike(w, rows[n].id, a[n], e, f);
  }

  // ----- Policies that decide nothing

  /** The decision neither rejects, constrains, patches nor selects. */
  predicate Inert(d: PolicyDecision) {
    && !d.rejected && d.selectedProvider == ""
    && (d.patch.Some? ==> d.patch.value == map[])
    && (d.constraints.Some? ==> Constrained(d.constraints.value) == {})
    && !Providers.Contributes(d.providerConstraints)
  }

  lemma {:induction false} InertStep(w: Setting, id: string, s: RunState, after: RunState)
    requires StepOk(w, id, s, after) && Inert(DecisionOf(w, id, s))
    ensures after == s
  {
    var d := DecisionOf(w, id, s);
    StepSpec(w, id, s, after);
    if d.patch.Some? {
      assert Patched(s.spec, map[]) == s.spec;
    }
    if EvaluationOf(w, id, s).Defined? {
      InertContext(d, id, s.context, after.context);
    }
  }

  lemma {:induction false} InertContext(d: PolicyDecision, id: string, c: Context, after: Context)
    requires ContextMerged(d, id, c, after) && Inert(d)
    ensures after == c
  {
    if d.constraints.Some? {
      assert after.schemas == c.schemas;
      assert after.setBy == c.setBy;
    }
  }

  /** A policy that is undefined or decides nothing can be left out of the run. */
  lemma {:induction false} InertPolicyCanGo(w: Setting, rows: seq<Row>, trace: seq<RunState>, i: nat)
    requires IsTrace(w, rows, trace) && i < |rows| < |trace|
    requires Inert(DecisionAt(w, rows, trace, i))
    ensures IsTrace(w, rows[..i] + rows[i + 1..], trace[..i] + trace[i + 1..])
    ensures (trace[..i] + trace[i + 1..])[0] == trace[0]
    ensures (trace[..i] + trace[i + 1..])[|trace| - 2] == trace[|trace| - 1]
  {
    StepAt(w, rows, trace, i);
    InertStep(w, rows[i].id, trace[i], trace[i + 1]);
    IdsWithout(rows, i);
    ChainWithout(Steps(w), PolicyIds(rows), trace, i);
  }

  /** Neither does leaving it out change the answer: the same response, or the same failure later on. */
  lemma {:induction false} InertPolicyAnswer(w: Setting, rows: seq<Row>, instance: Fields, trace: seq<RunState>,
                                             r: Result<Response, EvaluationError>, i: nat)
    requires Answers(w, rows, instance, trace, r)
    requires i < |trace| - 1 && i < |rows| && Inert(DecisionAt(w, rows, trace, i))
    ensures MayAnswer(w, rows[..i] + rows[i + 1..], instance, r)
  {
    InertAt(w, rows, trace, i);
    EndsWithout(Steps(w), Failures(w), PolicyIds(rows), trace, FailureOf(r), i);
    IdsWithout(rows, i);
    EndAnswers(w, rows[..i] + rows[i + 1..], instance, trace[..i] + trace[i + 1..], r);
  }

  /** The policy is undefined in this state, or decides nothing. */
  predicate Idle(w: Setting, policyID: string, s: RunState) {
    !EvaluationOf(w, policyID, s).Failed? && Inert(DecisionOf(w, policyID, s))
  }

  ghost predicate AlwaysIdle(w: Setting, policyID: string) {
    forall s: RunState :: Idle(w, policyID, s)
  }

  /** Then it takes a step that changes nothing. */
  lemma {:induction false} IdleStep(w: Setting, policyID: string, s: RunState)
    requires Idle(w, policyID, s)
    ensures StepOk(w, policyID, s, s)
  {
    if EvaluationOf(w, policyID, s).Defined? {
      IdleIsApplied(w.voc, policyID, DecisionOf(w, policyID, s), s);
    }
  }

  lemma {:induction false} IdleIsApplied(voc: Vocabulary, id: string, d: PolicyDecision, s: RunState)
    requires Inert(d)
    ensures Applied(voc, id, d, s, s)
  {
    assert Patched(s.spec, map[]) == s.spec;
    assert Visits("", map[]) == {};
    IdleContext(d, id, s.context);
  }

  lemma {:induction false} IdleDoesNotFail(w: Setting, policyID: string, s: RunState, error: EvaluationError)
    requires Idle(w, policyID, s)
    ensures !StepFails(w, policyID, s, error)
  {
    if EvaluationOf(w, policyID, s).Defined? {
      IdleIsNotRefused(w.voc, policyID, DecisionOf(w, policyID, s), s, error);
    }
  }

  lemma {:induction false} IdleContext(d: PolicyDecision, id: string, c: Context)
    requires Inert(d)
    ensures ContextMerged(d, id, c, c)
  {
    assert Owners(c.setBy, {}, id) == c.setBy;
  }

  lemma {:induction false} IdleIsNotRefused(voc: Vocabulary, id: string, d: PolicyDecision, s: RunState,
                                            error: EvaluationError)
    requires Inert(d)
    ensures !Refuses(voc, id, d, s, error)
  {
    assert Visits("", map[]) == {};
  }

  /** Putting in a policy that is idle where the run reaches it keeps every answer possible. */
  lemma {:induction false} IdlePolicyAnswer(w: Setting, rows: seq<Row>, instance: Fields, trace: seq<RunState>,
                                            r: Result<Response, EvaluationError>, i: nat)
    requires i < |rows| && Answers(w, rows[..i] + rows[i + 1..], instance, trace, r)
    requires i < |trace| ==> Idle(w, rows[i].id, trace[i])
    ensures MayAnswer(w, rows, instance, r)
  {
    IdsWithout(rows, i);
    if i < |trace| {
      IdleStep(w, rows[i].id, trace[i]);
      EndsWith(Steps(w), Failures(w), PolicyIds(rows), trace, FailureOf(r), i);
      EndAnswers(w, rows, instance, trace[..i + 1] + trace[i..], r);
    } else {
      EndsEarly(Steps(w), Failures(w), PolicyIds(rows), trace, FailureOf(r), i);
      EndAnswers(w, rows, instance, trace, r);
    }
  }

  /** A policy that is idle in every state makes no difference to the answers a request may get. */
  lemma {:induction false} IdlePolicyIsInvisible(w: Setting, rows: seq<Row>, instance: Fields,
                                                 r: Result<Response, EvaluationError>, i: nat)
    requires i < |rows| && AlwaysIdle(w, rows[i].id)
    ensures MayAnswer(w, rows, instance, r) <==> MayAnswer(w, rows[..i] + rows[i + 1..], instance, r)
  {
    if MayAnswer(w, rows, instance, r) {
      var trace :| Answers(w, rows, instance, trace, r);
      if |trace| <= i {
        IdsWithout(rows, i);
        EndsEarly(Steps(w), Failures(w), PolicyIds(rows), trace, FailureOf(r), i);
        EndAnswers(w, rows[..i] + rows[i + 1..], instance, trace, r);
      } else {
        IdleIsPassed(w, rows, instance, trace, r, i);
        InertPolicyAnswer(w, rows, instance, trace, r, i);
      }
    }
    if MayAnswer(w, rows[..i] + rows[i + 1..], instance, r) {
      var trace :| Answers(w, rows[..i] + rows[i + 1..], instance, trace, r);
      assert i < |trace| ==> Idle(w, rows[i].id, trace[i]);
      IdlePolicyAnswer(w, rows, instance, trace, r, i);
    }
  }

  /** An evaluation does not end at an idle policy. */
  lemma {:induction false} IdleIsPassed(w: Setting, rows: seq<Row>, instance: Fields, trace: seq<RunState>,
                                        r: Result<Response, EvaluationError>, i: nat)
    requires Answers(w, rows, instance, trace, r) && i < |rows| && i < |trace|
    requires Idle(w, rows[i].id, trace[i])
    ensures i < |trace| - 1
  {
    if r.Err? {
      IdleDoesNotFail(w, rows[i].id, trace[i], r.error);
    }
  }

  lemma {:induction false} InertAt(w: Setting, rows: seq<Row>, trace: seq<RunState>, i: nat)
    requires Begins(Steps(w), PolicyIds(rows), trace) && i < |trace| - 1 && i < |rows|
    requires Inert(DecisionAt(w, rows, trace, i))
    ensures trace[i + 1] == trace[i]
  {
    ChainStep(Steps(w), PolicyIds(rows), trace, i);
    InertStep(w, rows[i].id, trace[i], trace[i + 1]);
  }

  lemma IdsWithout(rows: seq<Row>, i: nat)
    requires i < |rows|
    ensures PolicyIds(rows[..i] + rows[i + 1..]) == PolicyIds(rows)[..i] + PolicyIds(rows)[i + 1..]
  {
  }

  lemma {:induction false} EndAnswers(w: Setting, rows: seq<Row>, instance: Fields, trace: seq<RunState>,
                                      r: Result<Response, EvaluationError>)
    requires Ends(Steps(w), Failures(w), PolicyIds(rows), trace, FailureOf(r)) && trace[0] == Start(instance)
    requires r.Ok? ==> r.value == ResponseOf(instance, trace[|trace| - 1])
    ensures MayAnswer(w, rows, instance, r)
  {
    assert Answers(w, rows, instance, trace, r);
  }
}
