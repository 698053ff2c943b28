/** What create, update and delete requests are answered, and what they store. */
module ServiceAnswers {
  import opened Wrappers
  import opened Engines
  import opened Store
  import opened Service
  import OrderBy

  /** The engine takes the code of all policies together. */
  predicate Compile(opa: Opa, code: map<string, string>) {
    code != map[] ==> opa.compiles(code) && forall id | id in code :: opa.prepares(code, id)
  }

  /** Nothing is left of the text when white space is trimmed at both ends. */
  predicate Empty(text: string) {
    OrderBy.TrimSpace(text) == ""
  }

  predicate InRange(priority: Option<int>) {
    priority.Some? ==> 1 <= priority.value <= 1000
  }

  /** The API shows a stored row. */
  predicate Shows(api: ApiPolicy, row: Row) {
    && api.id == Some(row.id) && api.path == Some("policies/" + row.id)
    && api.displayName == Some(row.displayName) && api.policyType == Some(row.policyType)
    && api.priority == Some(row.priority) && api.regoCode == Some(row.regoCode) && api.enabled == Some(row.enabled)
    && api.createTime == Some(row.createTime) && api.updateTime == Some(row.updateTime)
    && api.description == (if row.description == "" then None else Some(row.description))
    && api.labelSelector == (if row.labelSelector == map[] then None else Some(row.labelSelector))
  }

  // ----- Create

  /** The ID a client asks for, if it asks for one. */
  predicate AsksForID(clientID: Option<string>) {
    clientID.Some? && clientID.value != ""
  }

  /** A small letter, then small letters, digits and hyphens, and no hyphen at the end; 63 characters at most. */
  predicate WellFormedID(id: string) {
    && 0 < |id| < 64 && id[|id| - 1] != '-'
    && forall i | 0 <= i < |id| :: 'a' <= id[i] <= 'z' || (i > 0 && ('0' <= id[i] <= '9' || id[i] == '-'))
  }

  /** A complete request: name, type and code that parses, a priority in range and a well-formed ID, if any. */
  predicate Complete(opa: Opa, policy: ApiPolicy, clientID: Option<string>) {
    && policy.displayName.Some? && !Empty(policy.displayName.value)
    && policy.policyType.Some?
    && policy.regoCode.Some? && !Empty(policy.regoCode.value) && opa.parses(policy.regoCode.value)
    && InRange(policy.priority)
    && (AsksForID(clientID) ==> WellFormedID(clientID.value))
  }

  lemma CompleteIsValid(opa: Opa, policy: ApiPolicy, clientID: Option<string>)
    ensures Complete(opa, policy, clientID) <==> !CreateInvalid(opa, policy, clientID)
  {
    if policy.displayName.Some? {
      OrderBy.BlankExactly(policy.displayName.value);
    }
    if policy.regoCode.Some? {
      OrderBy.BlankExactly(policy.regoCode.value);
    }
    if AsksForID(clientID) {
      var id := clientID.value;
      assert forall i | 0 <= i < |id| :: id[i] in id;
    }
  }

  predicate NameTaken(table: Table, name: string, policyType: string) {
    exists id | id in table :: table[id].displayName == name && table[id].policyType == policyType
  }

  predicate PriorityUsed(table: Table, priority: int, policyType: string) {
    exists id | id in table :: table[id].priority == priority && table[id].policyType == policyType
  }

  /** The row a complete request asks for: absent fields have their defaults. */
  function Requested(policy: ApiPolicy, clientID: Option<string>, generated: string, now: int): Row
    requires policy.displayName.Some? && policy.policyType.Some? && policy.regoCode.Some?
  {
    Row(
      if AsksForID(clientID) then clientID.value else generated,
      policy.displayName.value,
      if policy.description.Some? then policy.description.value else "",
      policy.policyType.value,
      if policy.labelSelector.Some? then policy.labelSelector.value else map[],
      if policy.priority.Some? then policy.priority.value else 500,
      policy.regoCode.value,
      if policy.enabled.Some? then policy.enabled.value else true,
      now,
      now)
  }

  /** What a successful create stores, and shows. */
  lemma CreateStores(opa: Opa, s: State, policy: ApiPolicy, clientID: Option<string>, generated: string, now: int)
    requires Created(opa, s, policy, clientID, generated, now).1.Ok?
    ensures Complete(opa, policy, clientID)
    ensures var (after, r) := Created(opa, s, policy, clientID, generated, now);
      var row := Requested(policy, clientID, generated, now);
      && row.id !in s.table && after.table == s.table[row.id := row] && Shows(r.value, row)
      && after.queries == map id | id in after.table :: PreparedQuery(CodeOf(after.table), id)
  {
    CompleteIsValid(opa, policy, clientID);
    RequestedRow(policy, clientID, generated, now);
    CreateTakes(s.table, RowOf(policy, NewID(clientID, generated)));
  }

  lemma RequestedRow(policy: ApiPolicy, clientID: Option<string>, generated: string, now: int)
    requires policy.displayName.Some? && policy.policyType.Some? && policy.regoCode.Some?
    ensures var row := RowOf(policy, NewID(clientID, generated));
      var stored := Requested(policy, clientID, generated, now);
      && Stamped(row, now) == stored && Shows(ApiOf(stored), stored)
      && row.id == stored.id && row.displayName == stored.displayName && row.policyType == stored.policyType
      && row.priority == stored.priority && row.regoCode == stored.regoCode
  {
  }

  /** When a create succeeds, and which error it answers otherwise. */
  lemma CreateAnswers(opa: Opa, s: State, policy: ApiPolicy, clientID: Option<string>, generated: string, now: int)
    ensures var r := Created(opa, s, policy, clientID, generated, now).1;
      if !Complete(opa, policy, clientID) then r == Err(InvalidArgument)
      else
        var row := Requested(policy, clientID, generated, now);
        if row.id in s.table then r == Err(AlreadyExists(IdTaken))
        else if NameTaken(s.table, row.displayName, row.policyType) then r == Err(AlreadyExists(DisplayNameTaken))
        else if PriorityUsed(s.table, row.priority, row.policyType) then r == Err(AlreadyExists(PriorityTaken))
        else if Compile(opa, CodeOf(s.table)[row.id := row.regoCode]) then r.Ok? && Shows(r.value, row)
        else r == Err(Internal)
  {
    CompleteIsValid(opa, policy, clientID);
    if Complete(opa, policy, clientID) {
      var row := RowOf(policy, NewID(clientID, generated));
      RequestedRow(policy, clientID, generated, now);
      CreateTakes(s.table, row);
      assert CodeOf(s.table[row.id := Stamped(row, now)]) == CodeOf(s.table)[row.id := row.regoCode];
    }
  }

  lemma CreateTakes(table: Table, row: Row)
    ensures Taken(table, row, false, IdTaken) <==> row.id in table
    ensures Taken(table, row, false, DisplayNameTaken) <==> NameTaken(table, row.displayName, row.policyType)
    ensures Taken(table, row, false, PriorityTaken) <==> PriorityUsed(table, row.priority, row.policyType)
    ensures Violates(table, row, false)
       <==> || row.id in table || NameTaken(table, row.displayName, row.policyType)
            || PriorityUsed(table, row.priority, row.policyType)
  {
    assert IdTaken in UNIQUE_KEYS && DisplayNameTaken in UNIQUE_KEYS && PriorityTaken in UNIQUE_KEYS;
  }

  // ----- Update

  /** The updated policy would have the display name, or the priority, of another one of its type. */
  predicate NameClash(s: State, id: string, patch: ApiPolicy)
    requires id in s.table
  {
    exists other | other in s.table && other != id ::
      && s.table[other].displayName == GetOr(patch.displayName, s.table[id].displayName)
      && s.table[other].policyType == s.table[id].policyType
  }

  predicate PriorityClash(s: State, id: string, patch: ApiPolicy)
    requires id in s.table
  {
    exists other | other in s.table && other != id ::
      && s.table[other].priority == GetOr(patch.priority, s.table[id].priority)
      && s.table[other].policyType == s.table[id].policyType
  }

  /** The patch can be read on its own: no blank code, and a priority in range. */
  predicate Sound(patch: ApiPolicy) {
    (patch.regoCode.Some? ==> !Empty(patch.regoCode.value)) && InRange(patch.priority)
  }

  /** It fits the stored row: it repeats the fields that cannot change, if it has them, and its code parses. */
  predicate Fits(opa: Opa, patch: ApiPolicy, stored: Row) {
    && (patch.id.Some? ==> patch.id.value == stored.id)
    && (patch.path.Some? ==> patch.path.value == "policies/" + stored.id)
    && (patch.policyType.Some? ==> patch.policyType.value == stored.policyType)
    && (patch.createTime.Some? ==> patch.createTime.value == stored.createTime)
    && (patch.updateTime.Some? ==> patch.updateTime.value == stored.updateTime)
    && (patch.regoCode.Some? ==> opa.parses(patch.regoCode.value))
  }

  lemma FitsIsValid(opa: Opa, s: State, id: string, patch: ApiPolicy)
    ensures Sound(patch) <==> !PatchInvalid(patch)
    ensures Sound(patch) && id in s.table ==> (Fits(opa, patch, s.table[id]) <==> !UpdateInvalid(opa, s, id, patch))
  {
    if patch.regoCode.Some? {
      OrderBy.BlankExactly(patch.regoCode.value);
    }
  }

  /** When an update succeeds, and which error it answers otherwise. */
  lemma UpdateAnswers(opa: Opa, s: State, id: string, patch: ApiPolicy, now: int, later: int)
    requires Consistent(s.table)
    ensures var (after, r) := Amended(opa, s, id, patch, now, later);
      if !Sound(patch) then r == Err(InvalidArgument)
      else if id !in s.table then r == Err(PolicyNotFound)
      else if !Fits(opa, patch, s.table[id]) then r == Err(InvalidArgument)
      else if NameClash(s, id, patch) then r == Err(AlreadyExists(DisplayNameTaken))
      else if PriorityClash(s, id, patch) then r == Err(AlreadyExists(PriorityTaken))
      else if patch.regoCode.Some? && !Compile(opa, CodeOf(s.table)[id := patch.regoCode.value]) then
        r == Err(Internal)
      else r.Ok? && id in after.table && Shows(r.value, after.table[id])
  {
    FitsIsValid(opa, s, id, patch);
    if id in s.table {
      UpdateTakes(s, id, patch, now);
      if patch.regoCode.Some? {
        var row := Updated(s.table[id], patch, now);
        assert CodeOf(s.table[id := row]) == CodeOf(s.table)[id := patch.regoCode.value];
      }
    }
  }

  /** What an update leaves: all as it was, up to the clock of a rollback, or the new code compiled. */
  lemma UpdateLeaves(opa: Opa, s: State, id: string, patch: ApiPolicy, now: int, later: int)
    ensures var (after, r) := Amended(opa, s, id, patch, now, later);
      match r
      case Ok(_) =>
        after.queries ==
          if patch.regoCode.None? then s.queries
          else map x | x in after.table :: PreparedQuery(CodeOf(after.table), x)
      case Err(Internal) =>
        && id in s.table && after.queries == s.queries
        && after.table == s.table[id := s.table[id].(updateTime := later)]
      case Err(_) => after == s
  {
  }

  lemma UpdateTakes(s: State, id: string, patch: ApiPolicy, now: int)
    requires Consistent(s.table) && id in s.table
    ensures var row := Updated(s.table[id], patch, now);
      && !Taken(s.table, row, true, IdTaken)
      && (Taken(s.table, row, true, DisplayNameTaken) <==> NameClash(s, id, patch))
      && (Taken(s.table, row, true, PriorityTaken) <==> PriorityClash(s, id, patch))
      && (Violates(s.table, row, true) <==> NameClash(s, id, patch) || PriorityClash(s, id, patch))
  {
    var row := Updated(s.table[id], patch, now);
    assert row.displayName == GetOr(patch.displayName, s.table[id].displayName);
    assert row.priority == GetOr(patch.priority, s.table[id].priority);
    assert DisplayNameTaken in UNIQUE_KEYS && PriorityTaken in UNIQUE_KEYS;
  }

  // ----- Delete

  /** A delete answers only that there is no such policy, and otherwise removes it, compiled or not. */
  lemma DeleteAnswers(opa: Opa, s: State, id: string)
    ensures var (after, r) := Deleted(opa, s, id);
      && r == (if id in s.table then Pass else Fail(PolicyNotFound))
      && after.table == s.table - {id}
      && after.queries ==
         if id in s.table && Compile(opa, CodeOf(after.table))
         then map x | x in after.table :: PreparedQuery(CodeOf(after.table), x)
         else s.queries
  {
  }
}
