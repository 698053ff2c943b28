/** What every run of non-overlapping calls keeps: the table, the engine, and their agreement. */
module ServiceRuns {
  import opened Wrappers
  import opened Engines
  import opened Store
  import opened Service
  import Paging

  /** A call that may change the table or the engine. */
  datatype Call =
    | CompileAll
    | Create(policy: ApiPolicy, clientID: Option<string>, generated: string, now: int)
    | Update(id: string, patch: ApiPolicy, now: int, later: int)
    | Delete(id: string)

  function After(opa: Opa, s: State, call: Call): State {
    match call
    case CompileAll => Recompiled(opa, s)
    case Create(policy, clientID, generated, now) => Created(opa, s, policy, clientID, generated, now).0
    case Update(id, patch, now, later) => Amended(opa, s, id, patch, now, later).0
    case Delete(id) => Deleted(opa, s, id).0
  }

  function Run(opa: Opa, s: State, calls: seq<Call>): State {
    if calls == [] then s else After(opa, Run(opa, s, calls[..|calls| - 1]), calls[|calls| - 1])
  }

  // ----- The engine agrees with the table

  /** Each stored policy has a query under its ID, built from its current code. */
  predicate Agrees(s: State) {
    forall id | id in s.table ::
      && id in s.queries && s.queries[id].id == id
      && id in s.queries[id].sources && s.queries[id].sources[id] == s.table[id].regoCode
  }

  /** The engine holds exactly what a compilation of the table would install. */
  predicate Synced(s: State) {
    s.queries == QueriesOf(CodeOf(s.table))
  }

  /** The call recompiles the engine from the table it leaves. */
  predicate Recompiles(opa: Opa, s: State, call: Call) {
    match call
    case CompileAll => Compilable(opa, CodeOf(s.table))
    case Create(policy, clientID, generated, now) => Created(opa, s, policy, clientID, generated, now).1.Ok?
    case Update(id, patch, now, later) => Amended(opa, s, id, patch, now, later).1.Ok? && patch.regoCode.Some?
    case Delete(id) => id in s.table && Compilable(opa, CodeOf(s.table - {id}))
  }

  /** The call is a delete whose recompilation fails. */
  predicate LeavesStale(opa: Opa, s: State, call: Call) {
    call.Delete? && call.id in s.table && !Compilable(opa, CodeOf(s.table - {call.id}))
  }

  /** Such a delete happened, and no successful recompilation since. */
  predicate Stale(opa: Opa, s: State, calls: seq<Call>) {
    calls != [] &&
    var before := Run(opa, s, calls[..|calls| - 1]);
    var call := calls[|calls| - 1];
    LeavesStale(opa, before, call) || (Stale(opa, s, calls[..|calls| - 1]) && !Recompiles(opa, before, call))
  }

  lemma AfterAgrees(opa: Opa, s: State, call: Call)
    requires Consistent(s.table) && Agrees(s)
    ensures Agrees(After(opa, s, call))
    ensures Consistent(After(opa, s, call).table)
  {
    match call
    case CompileAll =>
    case Create(policy, clientID, generated, now) => CreateAgrees(opa, s, policy, clientID, generated, now);
    case Update(id, patch, now, later) => UpdateAgrees(opa, s, id, patch, now, later);
    case Delete(id) =>
  }

  lemma CreateAgrees(opa: Opa, s: State, policy: ApiPolicy, clientID: Option<string>, generated: string, now: int)
    requires Consistent(s.table) && Agrees(s)
    ensures var after := Created(opa, s, policy, clientID, generated, now).0;
      Agrees(after) && Consistent(after.table)
  {
    if Created(opa, s, policy, clientID, generated, now).1.Ok? {
      AcceptedInsert(s.table, RowOf(policy, NewID(clientID, generated)), now);
    }
  }

  lemma UpdateAgrees(opa: Opa, s: State, id: string, patch: ApiPolicy, now: int, later: int)
    requires Consistent(s.table) && Agrees(s)
    ensures var after := Amended(opa, s, id, patch, now, later).0;
      Agrees(after) && Consistent(after.table)
  {
    if !PatchInvalid(patch) && id in s.table && !UpdateInvalid(opa, s, id, patch) {
      var row := Updated(s.table[id], patch, now);
      if !Violates(s.table, row, true) {
        AcceptedUpdate(s.table, row);
        RollbackAccepted(s.table, id, row, later);
        RollbackConsistent(s.table, id, later);
      }
    }
  }

  lemma RollbackConsistent(table: Table, id: string, later: int)
    requires Consistent(table) && id in table
    ensures Consistent(table[id := table[id].(updateTime := later)])
  {
    var after := table[id := table[id].(updateTime := later)];
    forall i, j | i in after && j in after && i != j
      ensures !SameName(after[i], after[j]) && !SamePriority(after[i], after[j])
    {
      assert !SameName(table[i], table[j]) && !SamePriority(table[i], table[j]);
    }
  }

  /** A successful CompileAll makes engine and table agree, whatever was before. */
  lemma CompileAllSyncs(opa: Opa, s: State)
    requires Compilable(opa, CodeOf(s.table))
    ensures Synced(After(opa, s, CompileAll)) && Agrees(After(opa, s, CompileAll))
  {
  }

  /**
   Store/engine agreement. From a synced state on, after every run of calls, each stored policy has
   a query built from its current code, even after deletes whose recompilation failed. The engine
   is exactly the compiled table, and then the compiled IDs are the stored ones, if and only if no
   such delete happened since the last successful recompilation.
   */
  lemma {:induction false} Agreement(opa: Opa, s: State, calls: seq<Call>)
    requires Consistent(s.table) && Synced(s)
    ensures var after := Run(opa, s, calls);
      && Consistent(after.table) && Agrees(after)
      && (!Stale(opa, s, calls) ==> Synced(after))
      && (Stale(opa, s, calls) <==> after.queries.Keys != after.table.Keys)
  {
    if calls != [] {
      var init, call := calls[..|calls| - 1], calls[|calls| - 1];
      Agreement(opa, s, init);
      AfterAgrees(opa, Run(opa, s, init), call);
      StaleStep(opa, Run(opa, s, init), call);
    }
  }

  lemma StaleStep(opa: Opa, s: State, call: Call)
    requires Consistent(s.table) && Agrees(s)
    requires Synced(s) || s.queries.Keys != s.table.Keys
    ensures var after := After(opa, s, call);
      var stale := LeavesStale(opa, s, call) || (!Synced(s) && !Recompiles(opa, s, call));
      && (!stale ==> Synced(after))
      && (stale ==> after.queries.Keys != after.table.Keys)
  {
    match call
    case CompileAll =>
    case Create(policy, clientID, generated, now) => StaleCreate(opa, s, policy, clientID, generated, now);
    case Update(id, patch, now, later) => StaleUpdate(opa, s, id, patch, now, later);
    case Delete(id) =>
      if LeavesStale(opa, s, call) {
        assert id in s.queries && id !in After(opa, s, call).table;
      }
  }

  lemma StaleCreate(opa: Opa, s: State, policy: ApiPolicy, clientID: Option<string>, generated: string, now: int)
    ensures var (after, r) := Created(opa, s, policy, clientID, generated, now);
      if r.Ok? then Synced(after) else after == s
  {
  }

  lemma StaleUpdate(opa: Opa, s: State, id: string, patch: ApiPolicy, now: int, later: int)
    requires Consistent(s.table) && Agrees(s)
    ensures var (after, r) := Amended(opa, s, id, patch, now, later);
      if r.Ok? && patch.regoCode.Some? then Synced(after)
      else after.queries == s.queries && after.table.Keys == s.table.Keys && CodeOf(after.table) == CodeOf(s.table)
  {
    if !PatchInvalid(patch) && id in s.table && !UpdateInvalid(opa, s, id, patch) {
      var row := Updated(s.table[id], patch, now);
      if !Violates(s.table, row, true) {
        SameCode(s.table, id, s.table[id].(updateTime := later));
        if patch.regoCode.None? {
          SameCode(s.table, id, row);
        }
      }
    }
  }

  lemma SameCode(table: Table, id: string, row: Row)
    requires id in table && row.regoCode == table[id].regoCode
    ensures CodeOf(table[id := row]) == CodeOf(table) && table[id := row].Keys == table.Keys
  {
  }

  // ----- Failed calls

  predicate SameButUpdateTime(a: Table, b: Table) {
    a.Keys == b.Keys && forall id | id in a :: a[id].(updateTime := 0) == b[id].(updateTime := 0)
  }

  /** The answer of a call that can fail. */
  predicate Fails(opa: Opa, s: State, call: Call) {
    match call
    case CompileAll => !Compilable(opa, CodeOf(s.table))
    case Create(policy, clientID, generated, now) => Created(opa, s, policy, clientID, generated, now).1.Err?
    case Update(id, patch, now, later) => Amended(opa, s, id, patch, now, later).1.Err?
    case Delete(id) => Deleted(opa, s, id).1.Fail?
  }

  /** A call that answers with an error changes nothing, except perhaps an update time. */
  lemma FailedCallsAreInvisible(opa: Opa, s: State, call: Call)
    requires Fails(opa, s, call)
    ensures After(opa, s, call).queries == s.queries
    ensures SameButUpdateTime(After(opa, s, call).table, s.table)
    ensures !call.Update? ==> After(opa, s, call) == s
  {
    if call.Update? {
      FailedUpdate(opa, s, call.id, call.patch, call.now, call.later);
    }
  }

  lemma FailedUpdate(opa: Opa, s: State, id: string, patch: ApiPolicy, now: int, later: int)
    requires Amended(opa, s, id, patch, now, later).1.Err?
    ensures var after := Amended(opa, s, id, patch, now, later).0;
      after == s || (id in s.table && after == s.(table := s.table[id := s.table[id].(updateTime := later)]))
  {
  }

  // ----- Updates

  /** A successful update: mutable fields are the patch's or the stored ones, the others are kept. */
  lemma UpdateFraming(opa: Opa, s: State, id: string, patch: ApiPolicy, now: int, later: int)
    requires Consistent(s.table) && Amended(opa, s, id, patch, now, later).1.Ok?
    ensures id in s.table
    ensures var was, after := s.table[id], Amended(opa, s, id, patch, now, later).0.table;
      after == s.table[id := Row(
        was.id,
        GetOr(patch.displayName, was.displayName),
        GetOr(patch.description, was.description),
        was.policyType,
        GetOr(patch.labelSelector, was.labelSelector),
        GetOr(patch.priority, was.priority),
        GetOr(patch.regoCode, was.regoCode),
        GetOr(patch.enabled, was.enabled),
        was.createTime,
        now)]
  {
  }

  /** An empty patch of a stored policy succeeds and keeps the row, up to its update time. */
  lemma EmptyPatchKeeps(opa: Opa, s: State, id: string, now: int, later: int)
    requires Consistent(s.table) && id in s.table
    ensures var (after, r) := Amended(opa, s, id, NO_POLICY, now, later);
      r.Ok? && after == s.(table := s.table[id := s.table[id].(updateTime := now)])
  {
    var row := Updated(s.table[id], NO_POLICY, now);
    ConvertersInverse(s.table[id]);
    assert row == s.table[id].(updateTime := now);
    RollbackConsistent(s.table, id, now);
    RestoreAccepted(s.table, id, row);
  }

  // ----- The size of every reachable table

  /** The call, if it creates a policy, gives it one of the two policy types. */
  predicate KnownType(call: Call) {
    call.Create? && call.policy.policyType.Some? ==> Paging.IsPolicyType(call.policy.policyType.value)
  }

  predicate Bounded(table: Table) {
    Paging.PrioritiesInRange(table) && forall id | id in table :: Paging.IsPolicyType(table[id].policyType)
  }

  lemma AfterBounded(opa: Opa, s: State, call: Call)
    requires Consistent(s.table) && Bounded(s.table) && KnownType(call)
    ensures Bounded(After(opa, s, call).table)
  {
    match call
    case CompileAll =>
    case Create(policy, clientID, generated, now) => CreateBounded(opa, s, policy, clientID, generated, now);
    case Update(id, patch, now, later) => UpdateBounded(opa, s, id, patch, now, later);
    case Delete(id) =>
  }

  lemma CreateBounded(opa: Opa, s: State, policy: ApiPolicy, clientID: Option<string>, generated: string, now: int)
    requires Bounded(s.table)
    requires policy.policyType.Some? ==> Paging.IsPolicyType(policy.policyType.value)
    ensures Bounded(Created(opa, s, policy, clientID, generated, now).0.table)
  {
  }

  lemma UpdateBounded(opa: Opa, s: State, id: string, patch: ApiPolicy, now: int, later: int)
    requires Bounded(s.table)
    ensures Bounded(Amended(opa, s, id, patch, now, later).0.table)
  {
    if !PatchInvalid(patch) && id in s.table && !UpdateInvalid(opa, s, id, patch) {
      var row := Updated(s.table[id], patch, now);
      assert row.policyType == s.table[id].policyType;
      assert row.priority == GetOr(patch.priority, s.table[id].priority);
    }
  }

  /** Every reachable table has at most 2000 policies, and so has every listing of it. */
  lemma {:induction false} ReachableTables(opa: Opa, calls: seq<Call>)
    requires forall call | call in calls :: KnownType(call)
    ensures var table := Run(opa, State(map[], map[]), calls).table;
      && Consistent(table) && Bounded(table) && |table| <= 2000
      && forall filter :: |Listing(table, filter)| <= 2000
  {
    var empty := State(map[], map[]);
    BoundedRun(opa, empty, calls);
    var table := Run(opa, empty, calls).table;
    Paging.TableBound(table);
    forall filter
      ensures |Listing(table, filter)| <= 2000
    {
      Paging.ListingBound(table, filter);
    }
  }

  lemma {:induction false} BoundedRun(opa: Opa, s: State, calls: seq<Call>)
    requires Consistent(s.table) && Synced(s) && Bounded(s.table)
    requires forall call | call in calls :: KnownType(call)
    ensures var table := Run(opa, s, calls).table; Consistent(table) && Bounded(table)
  {
    Agreement(opa, s, calls);
    if calls != [] {
      var init := calls[..|calls| - 1];
      BoundedRun(opa, s, init);
      AfterBounded(opa, Run(opa, s, init), calls[|calls| - 1]);
    }
  }
}
