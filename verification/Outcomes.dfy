/**
 What policies are shown and what requests are answered: the input of the evaluator, the reasons to
 fail, and the parts of a response.
 */
module Outcomes {
  import opened Wrappers
  import opened JsonValues
  import opened Keywords
  import opened FieldPaths
  import opened PatchValidation
  import opened Constraints
  import opened Engines
  import opened Store
  import opened Evaluations
  import opened SchemaRuns
  import opened RunSafety
  import Providers

  // ----- What a policy is shown

  /** The spec, the provider, and exactly the accumulated schemas and provider lists. */
  lemma EvaluatorSees(w: Setting, id: string, s: RunState)
    ensures id !in w.queries ==> EvaluationOf(w, id, s) == Undefined
    ensures id in w.queries ==>
      var schemas := if s.context.schemas == map[] then None else Some(s.context.schemas);
      var lists := match s.context.providers
                   case None => None
                   case Some(acc) => Some((acc.allowList, acc.patterns));
      EvaluationOf(w, id, s) ==
        match w.opa.evaluates(w.queries[id], OpaInput(s.spec, s.provider, schemas, lists))
        case Value(Obj(result)) => Defined(result)
        case Value(Null) => Undefined
        case NoResult => Undefined
        case _ => Failed
  {
    assert |s.context.schemas| == 0 <==> s.context.schemas == map[];
  }

  /** A policy is shown a constraint on a path exactly when an earlier policy contributed one. */
  lemma {:induction false} SeesEarlierConstraints(w: Setting, rows: seq<Row>, trace: seq<RunState>, n: nat,
                                                  path: string)
    requires IsTrace(w, rows, trace) && n <= |rows| < |trace| && trace[0].context == EMPTY_CONTEXT
    ensures var shown := InputOf(trace[n]).constraints;
      (shown.Some? && path in shown.value)
      <==> exists k | 0 <= k < n :: Contributed(DecisionAt(w, rows, trace, k), path).Some?
  {
    HistoryIsChain(w, rows, trace, path);
    ConstrainedOnceContributed(SchemaHistory(trace, path), Contributions(w, rows, trace, path), n);
    assert SchemaHistory(trace, path)[n] == SchemaAt(trace[n], path);
    assert forall k | 0 <= k < n ::
        Contributions(w, rows, trace, path)[k] == Contributed(DecisionAt(w, rows, trace, k), path);
  }

  lemma {:induction false} ConstrainedOnceContributed(history: seq<Option<Fields>>, added: seq<Option<Fields>>, n: nat)
    requires SchemaChain(history, added) && n <= |added|
    ensures history[n].Some? <==> exists k | 0 <= k < n :: added[k].Some?
  {
    if n > 0 {
      ConstrainedOnceContributed(history, added, n - 1);
      assert SchemaStep(history[n - 1], added[n - 1], history[n]);
    }
  }

  /** Policy `i` is the first to contribute a constraint on the path. */
  predicate FirstOn(w: Setting, rows: seq<Row>, trace: seq<RunState>, i: nat, path: string)
    requires i < |rows| && i < |trace|
  {
    && Contributed(DecisionAt(w, rows, trace, i), path).Some?
    && forall k | 0 <= k < i :: Contributed(DecisionAt(w, rows, trace, k), path).None?
  }

  /** A constrained path belongs to the first policy that contributed a constraint on it. */
  lemma {:induction false} OwnerIsFirst(w: Setting, rows: seq<Row>, trace: seq<RunState>, n: nat, path: string)
    requires IsTrace(w, rows, trace) && n <= |rows| && |trace| == |rows| + 1 && trace[0].context == EMPTY_CONTEXT
    ensures var setBy := trace[n].context.setBy;
      if path in setBy then exists i | 0 <= i < n :: FirstOn(w, rows, trace, i, path) && setBy[path] == rows[i].id
      else forall k | 0 <= k < n :: Contributed(DecisionAt(w, rows, trace, k), path).None?
  {
    if n > 0 {
      OwnerIsFirst(w, rows, trace, n - 1, path);
      StepOwner(w, rows, trace, n - 1, path);
      if path !in trace[n - 1].context.setBy && path in trace[n].context.setBy {
        assert FirstOn(w, rows, trace, n - 1, path);
      }
    }
  }

  lemma {:induction false} StepOwner(w: Setting, rows: seq<Row>, trace: seq<RunState>, n: nat, path: string)
    requires IsTrace(w, rows, trace) && n < |rows| && |trace| == |rows| + 1
    ensures var before, after := trace[n].context.setBy, trace[n + 1].context.setBy;
      if path in before then path in after && after[path] == before[path]
      else if Contributed(DecisionAt(w, rows, trace, n), path).Some? then path in after && after[path] == rows[n].id
      else path !in after
  {
    StepAt(w, rows, trace, n);
  }

  // ----- Why a policy ends the evaluation

  /** The policy rejects the request. */
  predicate Rejects(w: Setting, id: string, s: RunState) {
    match EvaluationOf(w, id, s)
    case Defined(result) => "rejected" in result && result["rejected"] == Bool(true)
    case _ => false
  }

  function ReasonGiven(w: Setting, id: string, s: RunState): string {
    match EvaluationOf(w, id, s)
    case Defined(result) =>
      if "rejection_reason" in result && result["rejection_reason"].Str? then result["rejection_reason"].s else ""
    case _ => ""
  }

  /** A rejection ends the evaluation, before anything else of the decision counts. */
  lemma RejectionEnds(w: Setting, id: string, s: RunState, after: RunState, error: EvaluationError)
    ensures Rejects(w, id, s) ==> !StepOk(w, id, s, after)
    ensures Rejects(w, id, s) ==> (StepFails(w, id, s, error) <==> error == PolicyRejected(id, ReasonGiven(w, id, s)))
    ensures StepFails(w, id, s, error) && error.PolicyRejected? ==> Rejects(w, id, s)
  {
  }

  /** A failing evaluator ends it, and only that is an engine failure. */
  lemma EngineFailureEnds(w: Setting, id: string, s: RunState, after: RunState, error: EvaluationError)
    ensures EvaluationOf(w, id, s).Failed? ==> !StepOk(w, id, s, after)
    ensures EvaluationOf(w, id, s).Failed? ==> (StepFails(w, id, s, error) <==> error == EngineFailure(id))
    ensures StepFails(w, id, s, error) && error.EngineFailure? ==> EvaluationOf(w, id, s).Failed?
  {
  }

  /** The policy loosens the constraint on the path that earlier policies have set. */
  predicate Loosens(w: Setting, id: string, s: RunState, path: string) {
    && EvaluationOf(w, id, s).Defined? && !Rejects(w, id, s)
    && path in s.context.schemas && Contributed(DecisionOf(w, id, s), path).Some?
    && exists k | k in s.context.schemas[path] && k in Contributed(DecisionOf(w, id, s), path).value ::
         ConflictAt(k, s.context.schemas[path][k], Contributed(DecisionOf(w, id, s), path).value[k])
  }

  lemma {:induction false} LoosensRefused(w: Setting, id: string, s: RunState)
    requires EvaluationOf(w, id, s).Defined? && !Rejects(w, id, s) && DecisionOf(w, id, s).constraints.Some?
    ensures forall path ::
      Loosens(w, id, s, path) <==> path in Refused(s.context.schemas, DecisionOf(w, id, s).constraints.value)
  {
  }

  lemma {:induction false} NoStepPast(w: Setting, id: string, s: RunState, after: RunState, path: string)
    requires Loosens(w, id, s, path)
    ensures !StepOk(w, id, s, after)
  {
    if StepOk(w, id, s, after) {
      var added := Contributed(DecisionOf(w, id, s), path).value;
      assert MergesTo(s.context.schemas[path], added, after.context.schemas[path]);
      NoConflict(s.context.schemas[path], added, after.context.schemas[path]);
    }
  }

  /** Loosening ends it, with the path and the owner of one loosened constraint. */
  lemma {:induction false} LooseningEnds(w: Setting, id: string, s: RunState, after: RunState, error: EvaluationError)
    requires s.context.schemas.Keys == s.context.setBy.Keys
    ensures (exists path :: Loosens(w, id, s, path)) ==> !StepOk(w, id, s, after)
    ensures (exists path :: Loosens(w, id, s, path)) ==>
      (StepFails(w, id, s, error) <==>
         && error.ConstraintConflict? && error.policyID == id && Loosens(w, id, s, error.fieldPath)
         && error.setByPolicy == s.context.setBy[error.fieldPath])
    ensures StepFails(w, id, s, error) && error.ConstraintConflict? ==> Loosens(w, id, s, error.fieldPath)
  {
    if EvaluationOf(w, id, s).Defined? && !Rejects(w, id, s) && DecisionOf(w, id, s).constraints.Some? {
      LoosensRefused(w, id, s);
    }
    if path :| Loosens(w, id, s, path) {
      NoStepPast(w, id, s, after, path);
    }
  }

  /** The decision gets past its constraints: neither the evaluator, nor a rejection, nor a loosening ends it. */
  ghost predicate GoesOn(w: Setting, id: string, s: RunState) {
    EvaluationOf(w, id, s).Defined? && !Rejects(w, id, s) && !exists path :: Loosens(w, id, s, path)
  }

  /** Its allow list and the accumulated one both say something, and name no common provider. */
  predicate NoCommonProvider(w: Setting, id: string, s: RunState) {
    var acc, sp := s.context.providers, DecisionOf(w, id, s).providerConstraints;
    && acc.Some? && sp.Some? && acc.value.allowList != [] && sp.value.allowList != []
    && !exists p :: p in acc.value.allowList && p in sp.value.allowList
  }

  /** The constraints merged, its patch is checked against them. */
  ghost predicate Violates(w: Setting, id: string, s: RunState, c: Context) {
    var d := DecisionOf(w, id, s);
    ContextMerged(d, id, s.context, c) && d.patch.Some? && !PatchOk(w.voc, c.schemas, d.patch.value)
  }

  /** And then the provider it selects. */
  ghost predicate SelectsForbidden(w: Setting, id: string, s: RunState, c: Context) {
    var d := DecisionOf(w, id, s);
    && ContextMerged(d, id, s.context, c) && !Violates(w, id, s, c)
    && d.selectedProvider != "" && !Providers.Allowed(w.voc, c.providers, d.selectedProvider)
  }

  /** After that, disjoint allow lists end it, or a provider that is not allowed. */
  lemma {:induction false} ProviderConflictEnds(w: Setting, id: string, s: RunState, error: EvaluationError)
    ensures StepFails(w, id, s, error) && error.ProviderConflict?
       <==> && error == ProviderConflict(id) && GoesOn(w, id, s)
            && (NoCommonProvider(w, id, s) || exists c :: SelectsForbidden(w, id, s, c))
  {
    RejectionEnds(w, id, s, s, error);
    if EvaluationOf(w, id, s).Defined? && !Rejects(w, id, s) {
      LateFailures(w, id, s, error);
    }
  }

  /** In between, so does a patch that does not pass, with its violations. */
  lemma {:induction false} ViolationEnds(w: Setting, id: string, s: RunState, error: EvaluationError)
    ensures StepFails(w, id, s, error) && error.ConstraintViolation?
       <==> && error.ConstraintViolation? && error.policyID == id && error.violations != [] && GoesOn(w, id, s)
            && exists c :: Violates(w, id, s, c) && BlamesFor(w, id, s, c, error.violations)
  {
    RejectionEnds(w, id, s, s, error);
    if EvaluationOf(w, id, s).Defined? && !Rejects(w, id, s) {
      LateFailures(w, id, s, error);
    }
  }

  ghost predicate BlamesFor(w: Setting, id: string, s: RunState, c: Context, violations: seq<Violation>) {
    var d := DecisionOf(w, id, s);
    d.patch.Some? && BlamesRightly(w.voc, c.schemas, c.setBy, Visits("", d.patch.value), violations)
  }

  lemma {:induction false} LateFailures(w: Setting, id: string, s: RunState, error: EvaluationError)
    requires EvaluationOf(w, id, s).Defined? && !Rejects(w, id, s)
    ensures StepFails(w, id, s, error) && (error.ProviderConflict? || error.ConstraintViolation?)
       <==> GoesOn(w, id, s) &&
            if NoCommonProvider(w, id, s) then error == ProviderConflict(id)
            else
              || (error == ProviderConflict(id) && exists c :: SelectsForbidden(w, id, s, c))
              || (error.ConstraintViolation? && error.policyID == id && error.violations != []
                  && exists c :: Violates(w, id, s, c) && BlamesFor(w, id, s, c, error.violations))
    ensures NoCommonProvider(w, id, s) ==> !exists c :: ContextMerged(DecisionOf(w, id, s), id, s.context, c)
  {
    var d := DecisionOf(w, id, s);
    NothingRefused(w, id, s);
    Providers.RefusedExactly(s.context.providers, d.providerConstraints, id);
    assert NoCommonProvider(w, id, s) <==> Providers.Disjoint(s.context.providers, d.providerConstraints);
    forall c | ContextMerged(d, id, s.context, c)
      ensures RefusesIn(w.voc, id, d, c, error) <==>
        || (error == ProviderConflict(id) && SelectsForbidden(w, id, s, c))
        || (error.ConstraintViolation? && error.policyID == id && error.violations != []
            && Violates(w, id, s, c) && BlamesFor(w, id, s, c, error.violations))
    {
    }
  }

  lemma {:induction false} NothingRefused(w: Setting, id: string, s: RunState)
    requires EvaluationOf(w, id, s).Defined? && !Rejects(w, id, s)
    ensures GoesOn(w, id, s)
       <==> (DecisionOf(w, id, s).constraints.Some? ==>
               Refused(s.context.schemas, DecisionOf(w, id, s).constraints.value) == {})
  {
    var d := DecisionOf(w, id, s);
    if d.constraints.Some? {
      LoosensRefused(w, id, s);
    }
  }

  // ----- What a request is answered

  /**
   The parts of a response: the final spec, the last provider that was selected, which meets the
   constraints of every policy up to its selection, and whether the spec is still the request's.
   */
  lemma {:induction false} ResponseParts(w: Setting, rows: seq<Row>, instance: Fields, trace: seq<RunState>,
                                         r: Result<Response, EvaluationError>)
    requires Answers(w, rows, instance, trace, r) && r.Ok?
    ensures |trace| == |rows| + 1 && r.value.spec == trace[|rows|].spec
    ensures var ds := DecisionsOf(w, rows, trace);
      match LastSelection(ds, |rows|)
      case None => r.value.provider == ""
      case Some(sel) =>
        r.value.provider == ds[sel].selectedProvider && MeetsAll(w.voc, ds[..sel + 1], r.value.provider)
    ensures r.value.status == Approved <==> r.value.spec == instance
  {
    FullTrace(w, rows, instance, trace, r);
    SelectedProvider(w, rows, trace, |rows|);
  }

  lemma {:induction false} FullTrace(w: Setting, rows: seq<Row>, instance: Fields, trace: seq<RunState>,
                                     r: Result<Response, EvaluationError>)
    requires Answers(w, rows, instance, trace, r) && r.Ok?
    ensures IsTrace(w, rows, trace) && |trace| == |rows| + 1
    ensures trace[0].spec == instance && trace[0].provider == "" && trace[0].context == EMPTY_CONTEXT
    ensures r.value.spec == trace[|rows|].spec && r.value.provider == trace[|rows|].provider
    ensures r.value.status == Approved <==> r.value.spec == instance
  {
    var ids := PolicyIds(rows);
    assert ids[..|ids|] == ids;
  }

  /** A request is only answered with a response if no policy of its run rejects and every evaluation works. */
  lemma {:induction false} ResponseMeansNoRejection(w: Setting, rows: seq<Row>, instance: Fields,
                                                    trace: seq<RunState>, r: Result<Response, EvaluationError>, n: nat)
    requires Answers(w, rows, instance, trace, r) && r.Ok? && n < |rows|
    ensures |trace| == |rows| + 1
    ensures !Rejects(w, rows[n].id, trace[n]) && !EvaluationOf(w, rows[n].id, trace[n]).Failed?
    ensures !exists path :: Loosens(w, rows[n].id, trace[n], path)
  {
    FullTrace(w, rows, instance, trace, r);
    StepAt(w, rows, trace, n);
    ValidContexts(w, rows, trace, n);
    var error := EngineFailure("");
    RejectionEnds(w, rows[n].id, trace[n], trace[n + 1], error);
    EngineFailureEnds(w, rows[n].id, trace[n], trace[n + 1], error);
    LooseningEnds(w, rows[n].id, trace[n], trace[n + 1], error);
  }

  lemma {:induction false} ValidContexts(w: Setting, rows: seq<Row>, trace: seq<RunState>, n: nat)
    requires IsTrace(w, rows, trace) && n <= |rows| && |trace| == |rows| + 1 && trace[0].context == EMPTY_CONTEXT
    ensures trace[n].context.schemas.Keys == trace[n].context.setBy.Keys
  {
    if n > 0 {
      ValidContexts(w, rows, trace, n - 1);
      ValidNext(w, rows, trace, n - 1);
    }
  }

  lemma {:induction false} ValidNext(w: Setting, rows: seq<Row>, trace: seq<RunState>, n: nat)
    requires IsTrace(w, rows, trace) && n < |rows| && |trace| == |rows| + 1
    requires trace[n].context.schemas.Keys == trace[n].context.setBy.Keys
    ensures trace[n + 1].context.schemas.Keys == trace[n + 1].context.setBy.Keys
  {
    StepAt(w, rows, trace, n);
    ValidStep(w, rows[n].id, trace[n], trace[n + 1]);
  }

  lemma {:induction false} ValidStep(w: Setting, id: string, s: RunState, after: RunState)
    requires StepOk(w, id, s, after) && s.context.schemas.Keys == s.context.setBy.Keys
    ensures after.context.schemas.Keys == after.context.setBy.Keys
  {
  }

  /** A request is rejected if and only if the policy at which its run ends rejects it, for that reason. */
  lemma {:induction false} RejectionAnswers(w: Setting, rows: seq<Row>, instance: Fields, trace: seq<RunState>,
                                            r: Result<Response, EvaluationError>)
    requires Answers(w, rows, instance, trace, r) && r.Err?
    ensures 0 < |trace| <= |rows|
    ensures var (id, s) := (rows[|trace| - 1].id, trace[|trace| - 1]);
      && r.error.policyID == id
      && (r.error.PolicyRejected? <==> Rejects(w, id, s))
      && (r.error.PolicyRejected? ==> r.error.reason == ReasonGiven(w, id, s))
      && (r.error.EngineFailure? <==> EvaluationOf(w, id, s).Failed?)
  {
    var (id, s) := (rows[|trace| - 1].id, trace[|trace| - 1]);
    assert StepFails(w, id, s, r.error);
    RejectionEnds(w, id, s, s, r.error);
    EngineFailureEnds(w, id, s, s, r.error);
  }

  /** The error blames the owner for its constraint on the path. */
  predicate Blames(error: EvaluationError, path: string, owner: string) {
    match error
    case ConstraintConflict(_, fieldPath, setByPolicy) => fieldPath == path && setByPolicy == owner
    case ConstraintViolation(_, violations) => Violation(path, owner) in violations
    case _ => false
  }

  /** Whoever an error blames is the first policy of the run that constrained the path. */
  lemma {:induction false} BlamedIsFirst(w: Setting, rows: seq<Row>, instance: Fields, trace: seq<RunState>,
                                         r: Result<Response, EvaluationError>, path: string, owner: string)
    requires Answers(w, rows, instance, trace, r) && r.Err? && Blames(r.error, path, owner)
    ensures 0 < |trace| <= |rows|
    ensures exists i | 0 <= i < |trace| :: FirstOn(w, rows, trace, i, path) && rows[i].id == owner
  {
    var n := |trace| - 1;
    var early := rows[..n];
    assert PolicyIds(rows)[..n] == PolicyIds(early);
    ValidContexts(w, early, trace, n);
    OwnerIsFirst(w, early, trace, n, path);
    BlamedAtStep(w, rows[n].id, trace[n], r.error, path, owner);
    FirstAmong(w, rows, trace, n, path);
    if path !in trace[n].context.setBy {
      assert FirstOn(w, rows, trace, n, path);
    }
  }

  lemma {:induction false} FirstAmong(w: Setting, rows: seq<Row>, trace: seq<RunState>, n: nat, path: string)
    requires n < |rows| && n < |trace|
    ensures forall i | 0 <= i < n :: DecisionAt(w, rows[..n], trace, i) == DecisionAt(w, rows, trace, i)
    ensures forall i | 0 <= i < n :: FirstOn(w, rows[..n], trace, i, path) <==> FirstOn(w, rows, trace, i, path)
  {
  }

  lemma {:induction false} BlamedAtStep(w: Setting, id: string, s: RunState, error: EvaluationError,
                                        path: string, owner: string)
    requires s.context.schemas.Keys == s.context.setBy.Keys
    requires StepFails(w, id, s, error) && Blames(error, path, owner)
    ensures if path in s.context.setBy then owner == s.context.setBy[path]
            else owner == id && Contributed(DecisionOf(w, id, s), path).Some?
  {
    RejectionEnds(w, id, s, s, error);
    if error.ConstraintConflict? {
      LooseningEnds(w, id, s, s, error);
    } else {
      ViolationEnds(w, id, s, error);
    }
  }
}
