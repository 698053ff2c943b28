/**
 The policy service: create, update and delete change the table and recompile the engine. Create
 and update roll the table back when the engine does not compile; delete does not.
 */
module Service {
  import opened Wrappers
  import opened Text
  import opened Engines
  import opened Store
  import Paging

  /** A policy as the API shows it: every field may be absent. */
  datatype ApiPolicy = ApiPolicy(
    id: Option<string>,
    path: Option<string>,
    displayName: Option<string>,
    description: Option<string>,
    policyType: Option<string>,
    labelSelector: Option<map<string, string>>,
    priority: Option<int>,
    regoCode: Option<string>,
    enabled: Option<bool>,
    createTime: Option<int>,
    updateTime: Option<int>)

  datatype ServiceError = InvalidArgument | PolicyNotFound | AlreadyExists(key: StoreError) | Internal

  /** processPolicyStoreError: how the service answers an error of the table. */
  function ServiceErrorOf(error: StoreError): ServiceError {
    match error
    case NotFound => PolicyNotFound
    case DatabaseError => Internal
    case _ => AlreadyExists(error)
  }

  const NO_POLICY := ApiPolicy(None, None, None, None, None, None, None, None, None, None, None)

  // ----- Conversion

  const DEFAULT_PRIORITY := 500

  function GetOr<T>(o: Option<T>, default: T): T {
    match o case None => default case Some(v) => v
  }

  function RowOf(api: ApiPolicy, id: string): Row {
    Row(id, GetOr(api.displayName, ""), GetOr(api.description, ""), GetOr(api.policyType, ""),
        GetOr(api.labelSelector, map[]), GetOr(api.priority, DEFAULT_PRIORITY), GetOr(api.regoCode, ""),
        GetOr(api.enabled, true), 0, 0)
  }

  function ApiOf(row: Row): ApiPolicy {
    ApiPolicy(Some(row.id), Some("policies/" + row.id), Some(row.displayName),
              if row.description == "" then None else Some(row.description),
              Some(row.policyType),
              if row.labelSelector == map[] then None else Some(row.labelSelector),
              Some(row.priority), Some(row.regoCode), Some(row.enabled), Some(row.createTime), Some(row.updateTime))
  }

  method APIToDBModel(api: ApiPolicy, id: string) returns (db: Row)
    ensures db == RowOf(api, id)
  {
    db := Row(id, "", "", "", map[], 0, "", false, 0, 0);
    if api.displayName.Some? { db := db.(displayName := api.displayName.value); }
    if api.policyType.Some? { db := db.(policyType := api.policyType.value); }
    if api.description.Some? { db := db.(description := api.description.value); }
    db := db.(enabled := if api.enabled.Some? then api.enabled.value else true);
    db := db.(priority := if api.priority.Some? then api.priority.value else DEFAULT_PRIORITY);
    if api.labelSelector.Some? { db := db.(labelSelector := api.labelSelector.value); }
    if api.regoCode.Some? { db := db.(regoCode := api.regoCode.value); }
  }

  method DBToAPIModel(db: Row) returns (api: ApiPolicy)
    ensures api == ApiOf(db)
  {
    api := NO_POLICY.(
      id := Some(db.id), path := Some("policies/" + db.id), displayName := Some(db.displayName),
      policyType := Some(db.policyType), priority := Some(db.priority), enabled := Some(db.enabled),
      createTime := Some(db.createTime), updateTime := Some(db.updateTime), regoCode := Some(db.regoCode));
    if db.description != "" { api := api.(description := Some(db.description)); }
    if |db.labelSelector| > 0 { api := api.(labelSelector := Some(db.labelSelector)); }
  }

  /** A stored row survives the trip through the API, and no default fires. */
  lemma ConvertersInverse(row: Row)
    ensures RowOf(ApiOf(row), row.id) == row.(createTime := 0, updateTime := 0)
  {
  }

  // ----- Checks

  /** Lower-case letters, digits and inner hyphens, a letter first, at most 63 characters. */
  predicate ValidID(id: string) {
    && 1 <= |id| <= 63
    && 'a' <= id[0] <= 'z'
    && id[|id| - 1] != '-'
    && forall c | c in id :: 'a' <= c <= 'z' || '0' <= c <= '9' || c == '-'
  }

  predicate PriorityInvalid(priority: Option<int>) {
    priority.Some? && !(Paging.MIN_PRIORITY <= priority.value <= Paging.MAX_PRIORITY)
  }

  predicate PostInvalid(policy: ApiPolicy) {
    || policy.displayName.None? || Blank(policy.displayName.value)
    || policy.policyType.None?
    || policy.regoCode.None? || Blank(policy.regoCode.value)
    || PriorityInvalid(policy.priority)
  }

  predicate PatchInvalid(patch: ApiPolicy) {
    (patch.regoCode.Some? && Blank(patch.regoCode.value)) || PriorityInvalid(patch.priority)
  }

  predicate Changes<T(==)>(patch: Option<T>, existing: Option<T>) {
    patch.Some? && patch != existing
  }

  /** The patch names another value for a read-only or immutable field. */
  predicate ChangesImmutable(patch: ApiPolicy, existing: ApiPolicy) {
    || Changes(patch.path, existing.path) || Changes(patch.id, existing.id)
    || Changes(patch.policyType, existing.policyType)
    || Changes(patch.createTime, existing.createTime) || Changes(patch.updateTime, existing.updateTime)
  }

  function Override<T>(patch: Option<T>, existing: Option<T>): Option<T> {
    if patch.Some? then patch else existing
  }

  function Merge(patch: ApiPolicy, existing: ApiPolicy): ApiPolicy {
    existing.(displayName := Override(patch.displayName, existing.displayName),
              description := Override(patch.description, existing.description),
              enabled := Override(patch.enabled, existing.enabled),
              labelSelector := Override(patch.labelSelector, existing.labelSelector),
              priority := Override(patch.priority, existing.priority),
              regoCode := Override(patch.regoCode, existing.regoCode))
  }

  /** An absent patch changes nothing. */
  method MergePolicyOntoPolicy(patch: Option<ApiPolicy>, existing: ApiPolicy) returns (merged: ApiPolicy)
    ensures merged == Merge(GetOr(patch, NO_POLICY), existing)
  {
    merged := existing;
    if patch.None? {
      return;
    }
    var p := patch.value;
    if p.displayName.Some? { merged := merged.(displayName := p.displayName); }
    if p.description.Some? { merged := merged.(description := p.description); }
    if p.enabled.Some? { merged := merged.(enabled := p.enabled); }
    if p.labelSelector.Some? { merged := merged.(labelSelector := p.labelSelector); }
    if p.priority.Some? { merged := merged.(priority := p.priority); }
    if p.regoCode.Some? { merged := merged.(regoCode := p.regoCode); }
  }

  // ----- The state of table and engine

  datatype State = State(table: Table, queries: map<string, PreparedQuery>)

  function CodeOf(table: Table): map<string, string> {
    map id | id in table :: table[id].regoCode
  }

  /** A recompilation from the table: all queries are new, or none. */
  function Recompiled(opa: Opa, s: State): State {
    if Compilable(opa, CodeOf(s.table)) then s.(queries := QueriesOf(CodeOf(s.table))) else s
  }

  /** What is wrong with a create request before the table is asked. */
  predicate CreateInvalid(opa: Opa, policy: ApiPolicy, clientID: Option<string>) {
    || PostInvalid(policy)
    || (clientID.Some? && clientID.value != "" && !ValidID(clientID.value))
    || !opa.parses(policy.regoCode.value)
  }

  /** The ID of a new policy: the client's, or a generated one. */
  function NewID(clientID: Option<string>, generated: string): string {
    if clientID.Some? && clientID.value != "" then clientID.value else generated
  }

  predicate UpdateInvalid(opa: Opa, s: State, id: string, patch: ApiPolicy)
    requires id in s.table
  {
    || ChangesImmutable(patch, ApiOf(s.table[id]))
    || (patch.regoCode.Some? && (Blank(patch.regoCode.value) || !opa.parses(patch.regoCode.value)))
  }

  /** The row an update wants to write. */
  function Updated(stored: Row, patch: ApiPolicy, now: int): Row {
    Written(stored, RowOf(Merge(patch, ApiOf(stored)), stored.id), now)
  }

  /** The effect and the answer of a create request. */
  function Created(opa: Opa, s: State, policy: ApiPolicy, clientID: Option<string>, generated: string, now: int):
      (State, Result<ApiPolicy, ServiceError>) {
    if CreateInvalid(opa, policy, clientID) then (s, Err(InvalidArgument))
    else Inserted(opa, s, RowOf(policy, NewID(clientID, generated)), now)
  }

  /** The part of it that follows the checks of the request. */
  function Inserted(opa: Opa, s: State, row: Row, now: int): (State, Result<ApiPolicy, ServiceError>) {
    if Violates(s.table, row, false) then (s, Err(AlreadyExists(FirstTaken(s.table, row, false))))
    else
      var stored := s.(table := s.table[row.id := Stamped(row, now)]);
      if Compilable(opa, CodeOf(stored.table)) then (Recompiled(opa, stored), Ok(ApiOf(Stamped(row, now))))
      else (s, Err(Internal))
  }

  /** The effect and the answer of an update request; `later` is the clock at a rollback. */
  function Amended(opa: Opa, s: State, id: string, patch: ApiPolicy, now: int, later: int):
      (State, Result<ApiPolicy, ServiceError>) {
    if PatchInvalid(patch) then (s, Err(InvalidArgument))
    else if id !in s.table then (s, Err(PolicyNotFound))
    else if UpdateInvalid(opa, s, id, patch) then (s, Err(InvalidArgument))
    else
      var row := Updated(s.table[id], patch, now);
      if Violates(s.table, row, true) then (s, Err(AlreadyExists(FirstTaken(s.table, row, true))))
      else
        var stored := s.(table := s.table[id := row]);
        if patch.regoCode.None? then (stored, Ok(ApiOf(row)))
        else if Compilable(opa, CodeOf(stored.table)) then (Recompiled(opa, stored), Ok(ApiOf(row)))
        else (s.(table := s.table[id := s.table[id].(updateTime := later)]), Err(Internal))
  }

  /** The effect and the answer of a delete request. */
  function Deleted(opa: Opa, s: State, id: string): (State, Outcome<ServiceError>) {
    if id !in s.table then (s, Fail(PolicyNotFound))
    else (Recompiled(opa, s.(table := s.table - {id})), Pass)
  }

  class PolicyService {
    const store: PolicyStore
    const engine: EmbeddedEngine

    constructor (store: PolicyStore, engine: EmbeddedEngine)
      ensures this.store == store && this.engine == engine
    {
      this.store := store;
      this.engine := engine;
    }

    function Value(): State
      reads store, engine
    {
      State(store.table, engine.queries)
    }

    method RecompileEngine() returns (ok: bool)
      requires Consistent(store.table)
      modifies engine
      ensures ok <==> Compilable(engine.opa, CodeOf(store.table))
      ensures Value() == Recompiled(engine.opa, old(Value()))
    {
      var rows := store.ListAll();
      var modules: seq<PolicyModule> := [];
      for i := 0 to |rows|
        invariant |modules| == i && forall j | 0 <= j < i :: modules[j] == PolicyModule(rows[j].id, rows[j].regoCode)
        invariant Value() == old(Value())
      {
        modules := modules + [PolicyModule(rows[i].id, rows[i].regoCode)];
      }
      SourcesOfTable(store.table, rows, modules);
      ok := engine.Compile(modules);
    }

    method CompileAll() returns (ok: bool)
      requires Consistent(store.table)
      modifies engine
      ensures ok <==> Compilable(engine.opa, CodeOf(store.table))
      ensures Value() == Recompiled(engine.opa, old(Value()))
    {
      ok := RecompileEngine();
    }

    /** `generated` is the UUID for a policy without a client ID, `now` the clock. */
    method CreatePolicy(policy: ApiPolicy, clientID: Option<string>, generated: string, now: int)
      returns (r: Result<ApiPolicy, ServiceError>)
      requires Consistent(store.table)
      modifies store, engine
      ensures Consistent(store.table)
      ensures (Value(), r) == Created(engine.opa, old(Value()), policy, clientID, generated, now)
    {
      if PostInvalid(policy) {
        return Err(InvalidArgument);
      }
      if clientID.Some? && clientID.value != "" && !ValidID(clientID.value) {
        return Err(InvalidArgument);
      }
      var policyID := NewID(clientID, generated);
      if !engine.ValidateRego(policy.regoCode.value) {
        return Err(InvalidArgument);
      }
      var dbPolicy := APIToDBModel(policy, policyID);
      r := InsertPolicy(dbPolicy, now);
    }

    /** The rest of CreatePolicy: the row is written, and deleted again if the engine does not compile. */
    method InsertPolicy(dbPolicy: Row, now: int) returns (r: Result<ApiPolicy, ServiceError>)
      requires Consistent(store.table)
      modifies store, engine
      ensures Consistent(store.table)
      ensures (Value(), r) == Inserted(engine.opa, old(Value()), dbPolicy, now)
    {
      var created := store.Create(dbPolicy, now);
      if created.Err? {
        return Err(ServiceErrorOf(created.error));
      }
      var ok := RecompileEngine();
      if !ok {
        var _ := store.Delete(dbPolicy.id);
        assert store.table == old(store.table);
        return Err(Internal);
      }
      var api := DBToAPIModel(created.value);
      r := Ok(api);
    }

    /** An absent patch is an empty one. */
    method UpdatePolicy(id: string, patch: Option<ApiPolicy>, now: int, later: int)
      returns (r: Result<ApiPolicy, ServiceError>)
      requires Consistent(store.table)
      modifies store, engine
      ensures Consistent(store.table)
      ensures Value() == Amended(engine.opa, old(Value()), id, GetOr(patch, NO_POLICY), now, later).0
      ensures r == Amended(engine.opa, old(Value()), id, GetOr(patch, NO_POLICY), now, later).1
    {
      if patch.Some? && PatchInvalid(patch.value) {
        return Err(InvalidArgument);
      }
      var existingDB := store.Get(id);
      if existingDB.Err? {
        return Err(PolicyNotFound);
      }
      var existing := DBToAPIModel(existingDB.value);
      if patch.Some? && ChangesImmutable(patch.value, existing) {
        return Err(InvalidArgument);
      }
      var merged := MergePolicyOntoPolicy(patch, existing);
      var regoChanged := patch.Some? && patch.value.regoCode.Some?;
      if regoChanged && !engine.ValidateRego(patch.value.regoCode.value) {
        return Err(InvalidArgument);
      }
      var previousDB := existingDB.value;
      var dbPolicy := APIToDBModel(merged, id);
      var updated := store.Update(dbPolicy, now);
      if updated.Err? {
        SameKeysSameErrors(store.table, dbPolicy, Written(previousDB, dbPolicy, now), true);
        return Err(ServiceErrorOf(updated.error));
      }
      if regoChanged {
        var ok := RecompileEngine();
        if !ok {
          RollbackAccepted(old(store.table), id, updated.value, later);
          var _ := store.Update(previousDB, later);
          assert store.table == old(store.table)[id := previousDB.(updateTime := later)];
          return Err(Internal);
        }
      }
      var api := DBToAPIModel(updated.value);
      r := Ok(api);
    }

    /** A failed recompilation after a delete is only logged. */
    method DeletePolicy(id: string) returns (r: Outcome<ServiceError>)
      requires Consistent(store.table)
      modifies store, engine
      ensures Consistent(store.table)
      ensures Value() == Deleted(engine.opa, old(Value()), id).0
      ensures r == Deleted(engine.opa, old(Value()), id).1
    {
      var deleted := store.Delete(id);
      if deleted.Fail? {
        assert store.table == old(store.table);
        return Fail(PolicyNotFound);
      }
      var _ := RecompileEngine();
      r := Pass;
    }
  }

  /** The modules of all rows are the code of the table. */
  lemma {:induction false} SourcesOfTable(table: Table, rows: seq<Row>, modules: seq<PolicyModule>)
    requires Consistent(table) && RowSet(rows) == table.Values
    requires |modules| == |rows|
    requires forall i | 0 <= i < |rows| :: modules[i] == PolicyModule(rows[i].id, rows[i].regoCode)
    ensures Sources(modules) == CodeOf(table)
  {
    forall i | 0 <= i < |modules|
      ensures modules[i].id in table && modules[i].regoCode == table[modules[i].id].regoCode
    {
      assert rows[i] in RowSet(rows);
    }
    SourcesAgree(table, modules);
    SourcesKeys(modules);
    forall id | id in table
      ensures id in Ids(modules)
    {
      assert table[id] in RowSet(rows);
      var i :| 0 <= i < |rows| && rows[i] == table[id];
      assert modules[i] in modules;
    }
    assert Sources(modules).Keys == table.Keys;
  }

  lemma {:induction false} SourcesAgree(table: Table, modules: seq<PolicyModule>)
    requires forall i | 0 <= i < |modules| ::
      modules[i].id in table && modules[i].regoCode == table[modules[i].id].regoCode
    ensures forall id | id in Sources(modules) :: id in table && Sources(modules)[id] == table[id].regoCode
  {
    if modules != [] {
      SourcesAgree(table, modules[..|modules| - 1]);
    }
  }

  /** The rollback of an update is never refused by the table. */
  lemma RollbackAccepted(table: Table, id: string, written: Row, later: int)
    requires Consistent(table) && id in table && written.id == id && Consistent(table[id := written])
    requires written.policyType == table[id].policyType && written.createTime == table[id].createTime
    ensures Written(written, table[id], later) == table[id].(updateTime := later)
    ensures !Violates(table[id := written], Written(written, table[id], later), true)
    ensures table[id := written][id := table[id].(updateTime := later)] == table[id := table[id].(updateTime := later)]
  {
    var restored := table[id].(updateTime := later);
    var after := table[id := written][id := restored];
    assert after == table[id := restored];
    forall i, j | i in after && j in after && i != j
      ensures !SameName(after[i], after[j]) && !SamePriority(after[i], after[j])
    {
      assert !SameName(table[i], table[j]) && !SamePriority(table[i], table[j]);
    }
    RestoreAccepted(table[id := written], id, restored);
  }
}
