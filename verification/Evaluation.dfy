/**
 The evaluation of a request: every enabled policy whose labels match, in order, page by page. One
 policy is a step between run states; an evaluation is a trace of such steps.
 */
module Evaluations {
  import opened Wrappers
  import opened JsonValues
  import opened SchemaSemantics
  import opened FieldPaths
  import opened PatchValidation
  import opened Decisions
  import opened Constraints
  import opened MergePatches
  import opened Engines
  import opened Store
  import opened Traces
  import Tokens
  import Paging
  import Providers

  /** What stays fixed during an evaluation. */
  datatype Setting = Setting(opa: Opa, queries: map<string, PreparedQuery>, voc: Vocabulary)

  datatype RunState = RunState(spec: Fields, provider: string, context: Context)

  datatype EvaluationError =
    | EngineFailure(policyID: string)
    | PolicyRejected(policyID: string, reason: string)
    | ConstraintConflict(policyID: string, fieldPath: string, setByPolicy: string)
    | ConstraintViolation(policyID: string, violations: seq<Violation>)
    | ProviderConflict(policyID: string)

  datatype Status = Approved | Modified

  datatype Response = Response(spec: Fields, provider: string, status: Status)

  // ----- One policy

  function InputOf(s: RunState): OpaInput {
    OpaInput(s.spec, s.provider, ConstraintsMap(s.context), ProviderConstraintsMap(s.context))
  }

  function EvaluationOf(w: Setting, policyID: string, s: RunState): Evaluation {
    Evaluated(w.opa, w.queries, policyID, InputOf(s))
  }

  /** The policy's decision; a policy that is undefined decides nothing. */
  function DecisionOf(w: Setting, policyID: string, s: RunState): PolicyDecision {
    match EvaluationOf(w, policyID, s)
    case Defined(result) => Decision(result)
    case _ => NO_DECISION
  }

  /** The constraints of the decision go into the context before anything else is looked at. */
  ghost predicate ConstraintsMerged(d: PolicyDecision, policyID: string, c: Context, after: Context) {
    match d.constraints
    case None => after.schemas == c.schemas && after.setBy == c.setBy
    case Some(added) => MergedContext(c, added, policyID, after.(providers := c.providers))
  }

  ghost predicate ContextMerged(d: PolicyDecision, policyID: string, c: Context, after: Context) {
    && ConstraintsMerged(d, policyID, c, after)
    && Providers.Accumulate(c.providers, d.providerConstraints, policyID) == Some(after.providers)
  }

  /** A decision that is not a rejection takes the run from `s` to `after`. */
  ghost predicate Applied(voc: Vocabulary, policyID: string, d: PolicyDecision, s: RunState, after: RunState) {
    && !d.rejected
    && ContextMerged(d, policyID, s.context, after.context)
    && (match d.patch
        case None => after.spec == s.spec
        case Some(patch) => PatchOk(voc, after.context.schemas, patch) && after.spec == Patched(s.spec, patch))
    && (if d.selectedProvider == "" then after.provider == s.provider
        else Providers.Allowed(voc, after.context.providers, d.selectedProvider)
             && after.provider == d.selectedProvider)
  }

  ghost predicate StepOk(w: Setting, policyID: string, s: RunState, after: RunState) {
    match EvaluationOf(w, policyID, s)
    case Failed => false
    case Undefined => after == s
    case Defined(result) => Applied(w.voc, policyID, Decision(result), s, after)
  }

  /** Why a decision ends the evaluation; the checks come in this order. */
  ghost predicate Refuses(voc: Vocabulary, policyID: string, d: PolicyDecision, s: RunState, error: EvaluationError) {
    if d.rejected then error == PolicyRejected(policyID, d.rejectionReason)
    else if d.constraints.Some? && Refused(s.context.schemas, d.constraints.value) != {} then
      exists path | path in Refused(s.context.schemas, d.constraints.value) && path in s.context.setBy ::
        error == ConstraintConflict(policyID, path, s.context.setBy[path])
    else if Providers.Disjoint(s.context.providers, d.providerConstraints) then
      error == ProviderConflict(policyID)
    else
      exists after :: ContextMerged(d, policyID, s.context, after) && RefusesIn(voc, policyID, d, after, error)
  }

  /** The checks against the merged context. */
  ghost predicate RefusesIn(voc: Vocabulary, policyID: string, d: PolicyDecision, c: Context, error: EvaluationError) {
    if d.patch.Some? && !PatchOk(voc, c.schemas, d.patch.value) then
      && error.ConstraintViolation? && error.policyID == policyID && error.violations != []
      && BlamesRightly(voc, c.schemas, c.setBy, Visits("", d.patch.value), error.violations)
    else
      && d.selectedProvider != "" && !Providers.Allowed(voc, c.providers, d.selectedProvider)
      && error == ProviderConflict(policyID)
  }

  ghost predicate StepFails(w: Setting, policyID: string, s: RunState, error: EvaluationError) {
    match EvaluationOf(w, policyID, s)
    case Failed => error == EngineFailure(policyID)
    case Undefined => false
    case Defined(result) => Refuses(w.voc, policyID, Decision(result), s, error)
  }

  /** One policy: merges its constraints into `ctx` and returns the new spec and provider. */
  method EvaluatePolicy(engine: EmbeddedEngine, voc: Vocabulary, policyID: string,
                        currentSpec: Fields, selectedProvider: string, ctx: ConstraintContext)
    returns (r: Result<(Fields, string), EvaluationError>)
    requires ctx.Valid()
    modifies ctx
    ensures ctx.Valid()
    ensures var w := Setting(engine.opa, engine.queries, voc);
      var s := RunState(currentSpec, selectedProvider, old(ctx.Value()));
      match r
      case Ok((spec, provider)) => StepOk(w, policyID, s, RunState(spec, provider, ctx.Value()))
      case Err(error) => StepFails(w, policyID, s, error)
  {
    ghost var s := RunState(currentSpec, selectedProvider, ctx.Value());
    var input :=
      OpaInput(currentSpec, selectedProvider, ConstraintsMap(ctx.Value()), ProviderConstraintsMap(ctx.Value()));
    var evaluation := engine.EvaluatePolicy(policyID, input);
    if evaluation.Failed? {
      return Err(EngineFailure(policyID));
    }
    if evaluation.Undefined? {
      return Ok((currentSpec, selectedProvider));
    }
    var decision := ParsePolicyDecision(evaluation.result);
    r := ApplyDecision(voc, policyID, decision, currentSpec, selectedProvider, ctx);
  }

  /** The part of evaluatePolicy after the decision is parsed. */
  method ApplyDecision(voc: Vocabulary, policyID: string, decision: PolicyDecision,
                       currentSpec: Fields, selectedProvider: string, ctx: ConstraintContext)
    returns (r: Result<(Fields, string), EvaluationError>)
    requires ctx.Valid()
    modifies ctx
    ensures ctx.Valid()
    ensures var s := RunState(currentSpec, selectedProvider, old(ctx.Value()));
      match r
      case Ok((spec, provider)) => Applied(voc, policyID, decision, s, RunState(spec, provider, ctx.Value()))
      case Err(error) => Refuses(voc, policyID, decision, s, error)
  {
    if decision.rejected {
      return Err(PolicyRejected(policyID, decision.rejectionReason));
    }
    if decision.constraints.Some? {
      var merged := ctx.MergeConstraints(decision.constraints.value, policyID);
      if merged.Fail? {
        return Err(ConstraintConflict(policyID, merged.error.fieldPath, merged.error.setByPolicy));
      }
    }
    var accumulated := ctx.MergeSPConstraints(decision.providerConstraints, policyID);
    if accumulated.Fail? {
      return Err(ProviderConflict(policyID));
    }
    assert ContextMerged(decision, policyID, old(ctx.Value()), ctx.Value());
    var spec, provider := currentSpec, selectedProvider;
    if decision.patch.Some? {
      var violations := ctx.ValidatePatch(voc, decision.patch.value);
      if |violations| > 0 {
        return Err(ConstraintViolation(policyID, violations));
      }
      spec := MergePatch(spec, decision.patch.value);
    }
    if decision.selectedProvider != "" {
      var allowed := ctx.ValidateServiceProvider(voc, decision.selectedProvider);
      if !allowed {
        return Err(ProviderConflict(policyID));
      }
      provider := decision.selectedProvider;
    }
    r := Ok((spec, provider));
  }

  // ----- A request

  /** All labels of the selector are in the request; an empty selector matches everything. */
  predicate MatchesLabelSelector(selector: map<string, string>, labels: map<string, string>) {
    forall k | k in selector :: k in labels && labels[k] == selector[k]
  }

  function Applicable(rows: seq<Row>, labels: map<string, string>): seq<Row> {
    if rows == [] then []
    else
      var last := rows[|rows| - 1];
      Applicable(rows[..|rows| - 1], labels) + if MatchesLabelSelector(last.labelSelector, labels) then [last] else []
  }

  const ENABLED_ONLY := Filter(None, Some(true))
  const PAGE_SIZE := 1000

  /** The policies a request runs through, in order. */
  ghost function Policies(table: Table, labels: map<string, string>): seq<Row>
    requires Consistent(table)
  {
    Applicable(Listing(table, ENABLED_ONLY), labels)
  }

  function Start(instance: Fields): RunState {
    RunState(instance, "", EMPTY_CONTEXT)
  }

  function PolicyIds(rows: seq<Row>): seq<string> {
    seq(|rows|, i requires 0 <= i < |rows| => rows[i].id)
  }

  ghost function Steps(w: Setting): (string, RunState, RunState) -> bool {
    (policyID, s, after) => StepOk(w, policyID, s, after)
  }

  ghost function Failures(w: Setting): (string, RunState, EvaluationError) -> bool {
    (policyID, s, error) => StepFails(w, policyID, s, error)
  }

  /** Each state of the trace follows from the one before by the next policy. */
  ghost predicate IsTrace(w: Setting, rows: seq<Row>, trace: seq<RunState>) {
    Chain(Steps(w), PolicyIds(rows), trace)
  }

  function ResponseOf(instance: Fields, s: RunState): Response {
    Response(s.spec, s.provider, if s.spec == instance then Approved else Modified)
  }

  /** What a finished evaluation means: a full trace and its last state, or a trace up to a failing policy. */
  ghost predicate Answers(w: Setting, rows: seq<Row>, instance: Fields, trace: seq<RunState>,
                          r: Result<Response, EvaluationError>) {
    && Ends(Steps(w), Failures(w), PolicyIds(rows), trace, FailureOf(r))
    && trace[0] == Start(instance)
    && (r.Ok? ==> r.value == ResponseOf(instance, trace[|trace| - 1]))
  }

  function FailureOf<T, E>(r: Result<T, E>): Option<E> {
    match r case Ok(_) => None case Err(e) => Some(e)
  }

  /** After all but the last of so many List calls, rows are left; after all calls none are. */
  predicate AllPages(calls: nat, listing: seq<Row>) {
    OnlyNeededPages(calls, listing) && |listing| <= calls * 1000
  }

  /** After all but the last of so many List calls, rows are left. */
  predicate OnlyNeededPages(calls: nat, listing: seq<Row>) {
    calls == 1 || (calls - 1) * PAGE_SIZE < |listing|
  }

  /** An evaluation may answer `r`. */
  ghost predicate MayAnswer(w: Setting, rows: seq<Row>, instance: Fields, r: Result<Response, EvaluationError>) {
    exists trace: seq<RunState> :: Answers(w, rows, instance, trace, r)
  }

  /** The policies done so far are the applicable ones among the first `n` rows. */
  ghost predicate Progressed(w: Setting, listing: seq<Row>, n: nat, labels: map<string, string>,
                             instance: Fields, trace: seq<RunState>, s: RunState) {
    && n <= |listing|
    && IsTrace(w, Applicable(listing[..n], labels), trace)
    && trace[0] == Start(instance) && trace[|trace| - 1] == s
  }

  lemma ApplicableOneMore(listing: seq<Row>, n: nat, labels: map<string, string>)
    requires n < |listing|
    ensures Applicable(listing[..n + 1], labels)
         == Applicable(listing[..n], labels)
            + if MatchesLabelSelector(listing[n].labelSelector, labels) then [listing[n]] else []
  {
    assert listing[..n + 1][..n] == listing[..n];
  }

  lemma {:induction false} ApplicablePrefix(listing: seq<Row>, n: nat, labels: map<string, string>)
    requires n <= |listing|
    ensures Applicable(listing[..n], labels) <= Applicable(listing, labels)
    decreases |listing| - n
  {
    if n < |listing| {
      ApplicableOneMore(listing, n, labels);
      ApplicablePrefix(listing, n + 1, labels);
    } else {
      assert listing[..n] == listing;
    }
  }

  lemma {:induction false} ProgressSkips(w: Setting, listing: seq<Row>, n: nat, labels: map<string, string>,
                      instance: Fields, trace: seq<RunState>, s: RunState)
    requires n < |listing| && Progressed(w, listing, n, labels, instance, trace, s)
    requires !MatchesLabelSelector(listing[n].labelSelector, labels)
    ensures Progressed(w, listing, n + 1, labels, instance, trace, s)
  {
    ApplicableOneMore(listing, n, labels);
    assert Applicable(listing[..n], labels) + [] == Applicable(listing[..n], labels);
  }

  lemma {:induction false} ProgressSteps(w: Setting, listing: seq<Row>, n: nat, labels: map<string, string>,
                      instance: Fields, trace: seq<RunState>, s: RunState, after: RunState)
    requires n < |listing| && Progressed(w, listing, n, labels, instance, trace, s)
    requires MatchesLabelSelector(listing[n].labelSelector, labels)
    requires StepOk(w, listing[n].id, s, after)
    ensures Progressed(w, listing, n + 1, labels, instance, trace + [after], after)
  {
    ApplicableOneMore(listing, n, labels);
    var rows := Applicable(listing[..n], labels);
    TraceOneMore(w, rows, trace, listing[n], after);
  }

  lemma {:induction false} TraceOneMore(w: Setting, rows: seq<Row>, trace: seq<RunState>, row: Row, after: RunState)
    requires IsTrace(w, rows, trace) && StepOk(w, row.id, trace[|trace| - 1], after)
    ensures IsTrace(w, rows + [row], trace + [after])
  {
    IdsOneMore(rows, row);
    ChainOneMore(Steps(w), PolicyIds(rows), trace, row.id, after);
  }

  lemma IdsOneMore(rows: seq<Row>, row: Row)
    ensures PolicyIds(rows + [row]) == PolicyIds(rows) + [row.id]
  {
  }

  /** A failing policy among the rows answers the request. */
  lemma {:induction false} FailureAnswers(w: Setting, listing: seq<Row>, n: nat, labels: map<string, string>,
                       instance: Fields, trace: seq<RunState>, s: RunState, error: EvaluationError)
    requires n < |listing| && Progressed(w, listing, n, labels, instance, trace, s)
    requires MatchesLabelSelector(listing[n].labelSelector, labels)
    requires StepFails(w, listing[n].id, s, error)
    ensures Answers(w, Applicable(listing, labels), instance, trace, Err(error))
  {
    var some, all := Applicable(listing[..n], labels), Applicable(listing, labels);
    ApplicableOneMore(listing, n, labels);
    ApplicablePrefix(listing, n, labels);
    ApplicablePrefix(listing, n + 1, labels);
    assert PolicyIds(all)[..|some|] == PolicyIds(some);
    assert all[|some|] == listing[n];
    assert Failures(w)(listing[n].id, s, error);
  }

  /** The rows before `n` are done, with this spec, provider and context; or some policy among them failed. */
  ghost predicate PageDone(w: Setting, listing: seq<Row>, n: nat, labels: map<string, string>, instance: Fields,
                           trace: seq<RunState>, r: Result<(Fields, string), EvaluationError>, c: Context) {
    match r
    case Ok((spec, provider)) => Progressed(w, listing, n, labels, instance, trace, RunState(spec, provider, c))
    case Err(error) => Answers(w, Applicable(listing, labels), instance, trace, Err(error))
  }

  /** One round of the loop over a page: the row is skipped, evaluated, or ends the evaluation. */
  method EvaluateRow(engine: EmbeddedEngine, voc: Vocabulary, ghost listing: seq<Row>, ghost n: nat, row: Row,
                     labels: map<string, string>, ghost instance: Fields, ghost before: seq<RunState>,
                     spec: Fields, provider: string, ctx: ConstraintContext, ghost w: Setting)
    returns (r: Result<(Fields, string), EvaluationError>, ghost trace: seq<RunState>)
    requires ctx.Valid() && w == Setting(engine.opa, engine.queries, voc)
    requires n < |listing| && row == listing[n]
    requires Progressed(w, listing, n, labels, instance, before, RunState(spec, provider, ctx.Value()))
    modifies ctx
    ensures ctx.Valid()
    ensures PageDone(w, listing, n + 1, labels, instance, trace, r, ctx.Value())
  {
    ghost var s := RunState(spec, provider, ctx.Value());
    trace := before;
    if !MatchesLabelSelector(row.labelSelector, labels) {
      ProgressSkips(w, listing, n, labels, instance, trace, s);
      return Ok((spec, provider)), trace;
    }
    r := EvaluatePolicy(engine, voc, row.id, spec, provider, ctx);
    if r.Err? {
      FailureAnswers(w, listing, n, labels, instance, trace, s, r.error);
    } else {
      ghost var after := RunState(r.value.0, r.value.1, ctx.Value());
      ProgressSteps(w, listing, n, labels, instance, trace, s, after);
      trace := trace + [after];
    }
  }

  /** One policy after the other on a page: the rows from `offset` to `next`. */
  method EvaluatePage(engine: EmbeddedEngine, voc: Vocabulary, ghost listing: seq<Row>, ghost offset: nat,
                      ghost next: nat, rows: seq<Row>, labels: map<string, string>,
                      ghost instance: Fields, ghost before: seq<RunState>,
                      spec: Fields, provider: string, ctx: ConstraintContext, ghost w: Setting)
    returns (r: Result<(Fields, string), EvaluationError>, ghost trace: seq<RunState>)
    requires ctx.Valid() && w == Setting(engine.opa, engine.queries, voc)
    requires offset <= next <= |listing| && rows == listing[offset..next]
    requires Progressed(w, listing, offset, labels, instance, before, RunState(spec, provider, ctx.Value()))
    modifies ctx
    ensures ctx.Valid()
    ensures PageDone(w, listing, next, labels, instance, trace, r, ctx.Value())
  {
    r, trace := Ok((spec, provider)), before;
    ghost var n := offset;
    for i := 0 to |rows|
      invariant ctx.Valid() && engine.queries == old(engine.queries) && n == offset + i && r.Ok?
      invariant PageDone(w, listing, n, labels, instance, trace, r, ctx.Value())
    {
      r, trace := EvaluateRow(engine, voc, listing, n, rows[i], labels, instance, trace, r.value.0, r.value.1, ctx, w);
      if r.Err? {
        return;
      }
      n := n + 1;
    }
    assert n == next;
  }

  /** A position in the listing: the token of a page and the number of rows before it. */
  ghost predicate At(listing: seq<Row>, token: Option<string>, offset: nat) {
    offset <= |listing| && Tokens.OffsetOf(token) == offset
  }

  /** The next page of enabled policies. */
  method NextPage(store: PolicyStore, pageToken: Option<string>, ghost listing: seq<Row>, ghost offset: nat)
    returns (page: Page, ghost next: nat)
    requires Consistent(store.table) && listing == Listing(store.table, ENABLED_ONLY) && |listing| <= Tokens.MAX_INT
    requires At(listing, pageToken, offset)
    ensures offset <= next <= |listing| && next <= offset + PAGE_SIZE && page.rows == listing[offset..next]
    ensures page.nextToken == "" ==> next == |listing|
    ensures page.nextToken != "" ==> next == offset + PAGE_SIZE < |listing| && At(listing, Some(page.nextToken), next)
  {
    page := store.List(ENABLED_ONLY, pageToken, PAGE_SIZE);
    next := Paging.PageAt(listing, PAGE_SIZE, offset, pageToken, page);
  }

  /** Reads and evaluates the next page. */
  method EvaluateNextPage(store: PolicyStore, engine: EmbeddedEngine, voc: Vocabulary, pageToken: Option<string>,
                          ghost listing: seq<Row>, ghost offset: nat, labels: map<string, string>,
                          ghost instance: Fields, ghost before: seq<RunState>,
                          spec: Fields, provider: string, ctx: ConstraintContext, ghost w: Setting)
    returns (r: Result<(Fields, string), EvaluationError>, nextToken: string,
             ghost trace: seq<RunState>, ghost next: nat)
    requires ctx.Valid() && Consistent(store.table) && w == Setting(engine.opa, engine.queries, voc)
    requires listing == Listing(store.table, ENABLED_ONLY) && |listing| <= Tokens.MAX_INT
    requires At(listing, pageToken, offset)
    requires Progressed(w, listing, offset, labels, instance, before, RunState(spec, provider, ctx.Value()))
    modifies ctx
    ensures ctx.Valid()
    ensures nextToken == "" ==> next == |listing| <= offset + PAGE_SIZE
    ensures nextToken != "" ==> next == offset + PAGE_SIZE < |listing| && At(listing, Some(nextToken), next)
    ensures PageDone(w, listing, next, labels, instance, trace, r, ctx.Value())
  {
    var page;
    page, next := NextPage(store, pageToken, listing, offset);
    nextToken := page.nextToken;
    r, trace := EvaluatePage(engine, voc, listing, offset, next, page.rows, labels, instance, before, spec, provider,
                             ctx, w);
  }

  /**
   The page loop. The answer is that of one pass over the enabled policies with matching labels, in
   the order of the listing; `calls` counts the List calls, and all but the last read a full page.
   */
  method EvaluateRequest(store: PolicyStore, engine: EmbeddedEngine, voc: Vocabulary, instance: Fields,
                         labels: map<string, string>)
    returns (r: Result<Response, EvaluationError>, ghost calls: nat)
    requires Consistent(store.table) && |Listing(store.table, ENABLED_ONLY)| <= Tokens.MAX_INT
    ensures MayAnswer(Setting(engine.opa, engine.queries, voc), Policies(store.table, labels), instance, r)
    ensures OnlyNeededPages(calls, Listing(store.table, ENABLED_ONLY))
    ensures r.Ok? ==> AllPages(calls, Listing(store.table, ENABLED_ONLY))
  {
    ghost var w := Setting(engine.opa, engine.queries, voc);
    ghost var listing := Listing(store.table, ENABLED_ONLY);
    var currentSpec, selectedProvider := instance, "";
    var ctx := new ConstraintContext();
    var pageToken: Option<string> := None;
    ghost var offset: nat := 0;
    ghost var trace := [Start(instance)];
    calls := 0;
    StartProgress(w, listing, labels, instance);
    while true
      invariant ctx.Valid() && fresh(ctx)
      invariant Progressed(w, listing, offset, labels, instance, trace,
                           RunState(currentSpec, selectedProvider, ctx.Value()))
      invariant At(listing, pageToken, offset)
      invariant offset == calls * PAGE_SIZE && (calls == 0 || offset < |listing|)
      decreases |listing| - offset
    {
      var result, nextToken;
      result, nextToken, trace, offset :=
        EvaluateNextPage(store, engine, voc, pageToken, listing, offset, labels, instance, trace,
                         currentSpec, selectedProvider, ctx, w);
      calls := calls + 1;
      if result.Err? {
        return Err(result.error), calls;
      }
      currentSpec, selectedProvider := result.value.0, result.value.1;
      if nextToken == "" {
        break;
      }
      pageToken := Some(nextToken);
    }
    assert |listing| <= calls * PAGE_SIZE;
    FinishAnswers(w, listing, labels, instance, trace, RunState(currentSpec, selectedProvider, ctx.Value()));
    r := Ok(Response(currentSpec, selectedProvider, if currentSpec == instance then Approved else Modified));
  }

  lemma {:induction false} FinishAnswers(w: Setting, listing: seq<Row>, labels: map<string, string>,
                                         instance: Fields, trace: seq<RunState>, s: RunState)
    requires Progressed(w, listing, |listing|, labels, instance, trace, s)
    ensures Answers(w, Applicable(listing, labels), instance, trace, Ok(ResponseOf(instance, s)))
  {
    assert listing[..|listing|] == listing;
    var ids := PolicyIds(Applicable(listing, labels));
    assert ids[..|ids|] == ids;
  }

  lemma {:induction false} StartProgress(w: Setting, listing: seq<Row>, labels: map<string, string>, instance: Fields)
    ensures Progressed(w, listing, 0, labels, instance, [Start(instance)], Start(instance))
  {
    assert listing[..0] == [];
  }
}
