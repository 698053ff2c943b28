/** Table, engine and evaluation together. */
module EndToEnd {
  import opened Wrappers
  import opened JsonValues
  import opened FieldPaths
  import opened Engines
  import opened Store
  import opened Service
  import opened ServiceRuns
  import opened Evaluations
  import opened RunSafety
  import opened SchemaRuns

  /** One policy is evaluated before another. */
  predicate Precedes(a: Row, b: Row) {
    TextLess(a.policyType, b.policyType) || (a.policyType == b.policyType && a.priority < b.priority)
  }

  lemma {:induction false} ApplicableRows(rows: seq<Row>, labels: map<string, string>)
    requires Ascending(rows)
    ensures Ascending(Applicable(rows, labels))
    ensures forall r :: r in Applicable(rows, labels) <==> r in rows && MatchesLabelSelector(r.labelSelector, labels)
  {
    if rows != [] {
      var init, last := rows[..|rows| - 1], rows[|rows| - 1];
      assert rows == init + [last];
      ApplicableRows(init, labels);
      var some := Applicable(init, labels);
      forall i | 0 <= i < |some|
        ensures Before(some[i], last)
      {
        assert some[i] in init;
        var k :| 0 <= k < |init| && init[k] == some[i];
        assert rows[k] == init[k];
      }
    }
  }

  /**
   A request runs through exactly the enabled policies whose labels match, each once, by policy
   type first and by strictly increasing priority within a type.
   */
  lemma {:induction false} PoliciesInOrder(table: Table, labels: map<string, string>)
    requires Consistent(table)
    ensures var rows := Policies(table, labels);
      && (forall r :: r in rows <==>
            r in table.Values && r.enabled &&
            forall k | k in r.labelSelector :: k in labels && labels[k] == r.labelSelector[k])
      && (forall i, j | 0 <= i < j < |rows| :: Precedes(rows[i], rows[j]))
  {
    var listing, rows := Listing(table, ENABLED_ONLY), Policies(table, labels);
    ApplicableRows(listing, labels);
    assert forall r :: r in listing <==> r in RowSet(listing);
    forall i, j | 0 <= i < j < |rows|
      ensures Precedes(rows[i], rows[j])
    {
      assert rows[i] in RowSet(listing) && rows[j] in RowSet(listing);
      assert Before(rows[i], rows[j]);
      BeforeTotal(rows[i], rows[j]);
      StoredApart(table, rows[i], rows[j]);
    }
  }

  lemma StoredApart(table: Table, a: Row, b: Row)
    requires Consistent(table) && a in table.Values && b in table.Values && Before(a, b)
    ensures Precedes(a, b)
  {
    var i :| i in table && table[i] == a;
    var j :| j in table && table[j] == b;
    BeforeTotal(a, a);
    assert i != j ==> !SamePriority(table[i], table[j]);
  }

  /**
   After every run of calls from a synced state on, no policy of a request is skipped for want of a
   query: each has one, built from the code that is stored now.
   */
  lemma {:induction false} RequestsUseStoredCode(opa: Opa, s: State, calls: seq<Call>, labels: map<string, string>)
    requires Consistent(s.table) && Synced(s)
    ensures var after := Run(opa, s, calls);
      && Consistent(after.table)
      && forall r | r in Policies(after.table, labels) ::
           && r.id in after.queries && after.queries[r.id].id == r.id
           && r.id in after.queries[r.id].sources && after.queries[r.id].sources[r.id] == r.regoCode
  {
    Agreement(opa, s, calls);
    var after := Run(opa, s, calls);
    PoliciesInOrder(after.table, labels);
    forall r | r in Policies(after.table, labels)
      ensures r.id in after.table && after.table[r.id] == r
    {
      assert r in after.table.Values;
      var id :| id in after.table && after.table[id] == r;
    }
  }

  /** With the two policy types, a request on a reachable table makes at most two List calls. */
  lemma {:induction false} TwoListCalls(opa: Opa, calls: seq<Call>, listCalls: nat)
    requires forall call | call in calls :: KnownType(call)
    requires var table := Run(opa, State(map[], map[]), calls).table;
      Consistent(table) && OnlyNeededPages(listCalls, Listing(table, ENABLED_ONLY))
    ensures listCalls <= 2
  {
    ReachableTables(opa, calls);
    var table := Run(opa, State(map[], map[]), calls).table;
    assert |Listing(table, ENABLED_ONLY)| <= 2000;
  }

  /** An answered request, in which policy `j` writes a value at the key path. */
  ghost predicate Writes(w: Setting, table: Table, labels: map<string, string>, instance: Fields,
                         trace: seq<RunState>, r: Result<Response, EvaluationError>, j: nat, keys: seq<string>)
    requires Consistent(table)
  {
    var rows := Policies(table, labels);
    && Answers(w, rows, instance, trace, r) && r.Ok?
    && j < |rows| < |trace| && keys != [] && WrittenAt(DecisionAt(w, rows, trace, j), keys).Some?
  }

  lemma {:induction false} AnsweredTrace(w: Setting, rows: seq<Row>, instance: Fields, trace: seq<RunState>,
                                         r: Result<Response, EvaluationError>)
    requires Answers(w, rows, instance, trace, r) && r.Ok?
    ensures IsTrace(w, rows, trace) && |trace| == |rows| + 1 && trace[0] == Start(instance)
  {
    var ids := PolicyIds(rows);
    assert ids[..|ids|] == ids;
  }

  /**
   What a policy writes in an answered request respects every policy of higher precedence: it
   satisfies what that policy demands at the path, apart from `Lost` keywords.
   */
  lemma {:induction false} PrecedenceIsRespected(
      w: Setting, table: Table, labels: map<string, string>, instance: Fields,
      trace: seq<RunState>, r: Result<Response, EvaluationError>, i: nat, j: nat, keys: seq<string>)
    requires Consistent(table) && Writes(w, table, labels, instance, trace, r, j, keys)
    requires var rows := Policies(table, labels); i < |rows| && Precedes(rows[i], rows[j])
    ensures var rows := Policies(table, labels);
      i < j && RespectsPolicy(w, rows, trace, i, j, keys, WrittenAt(DecisionAt(w, rows, trace, j), keys).value)
  {
    var rows := Policies(table, labels);
    AnsweredTrace(w, rows, instance, trace, r);
    PrecedesIsBefore(table, labels, i, j);
    WholeRunSafety(w, rows, trace, i, j, keys);
  }

  /**
   What GLOBAL policies constrain, USER policies respect: whatever a USER policy writes satisfies the
   schema of every GLOBAL policy for that path, apart from `Lost` keywords; the whole schema if it is
   well-typed and its pattern is not lost.
   */
  lemma {:induction false} UserRespectsGlobal(
      w: Setting, table: Table, labels: map<string, string>, instance: Fields,
      trace: seq<RunState>, r: Result<Response, EvaluationError>, i: nat, j: nat, keys: seq<string>)
    requires Consistent(table) && Writes(w, table, labels, instance, trace, r, j, keys)
    requires var rows := Policies(table, labels);
      i < |rows| && rows[i].policyType == "GLOBAL" && rows[j].policyType == "USER"
    ensures var rows := Policies(table, labels);
      var written := WrittenAt(DecisionAt(w, rows, trace, j), keys).value;
      && i < j && RespectsPolicy(w, rows, trace, i, j, keys, written)
      && (FullyBinding(w, rows, trace, i, j, Dotted("", keys)) ==>
            AcceptsIfAny(w.voc, Contributed(DecisionAt(w, rows, trace, i), Dotted("", keys)), written))
  {
    var rows := Policies(table, labels);
    assert TextLess("GLOBAL", "USER") by { assert "GLOBAL"[0] == 'G' && "USER"[0] == 'U'; }
    PrecedenceIsRespected(w, table, labels, instance, trace, r, i, j, keys);
    AnsweredTrace(w, rows, instance, trace, r);
    if FullyBinding(w, rows, trace, i, j, Dotted("", keys)) {
      WellTypedRunSafety(w, rows, trace, i, j, keys);
    }
  }

  /**
   What an answered spec holds. A value other than an object is the one of the request, or some policy
   wrote it last, and it respects every policy of higher precedence.
   */
  lemma {:induction false} AnsweredSpec(
      w: Setting, table: Table, labels: map<string, string>, instance: Fields,
      trace: seq<RunState>, r: Result<Response, EvaluationError>, keys: seq<string>, v: Json)
    requires Consistent(table) && Answers(w, Policies(table, labels), instance, trace, r) && r.Ok?
    requires keys != [] && !v.Obj? && Lookup(Obj(r.value.spec), keys) == Some(v)
    ensures var rows := Policies(table, labels);
      && |trace| == |rows| + 1
      && (Lookup(Obj(instance), keys) == Some(v) || exists j: nat :: WrittenLast(w, rows, trace, j, keys, v))
      && forall i, j | 0 <= i < |rows| && 0 <= j < |rows| && Precedes(rows[i], rows[j]) :: i < j
  {
    var rows := Policies(table, labels);
    AnsweredTrace(w, rows, instance, trace, r);
    FinalSpec(w, rows, trace, keys, v);
    if Held(trace, 0, |rows|, keys, v) {
      assert Lookup(Obj(trace[0].spec), keys) == Some(v);
    }
    forall i, j | 0 <= i < |rows| && 0 <= j < |rows| && Precedes(rows[i], rows[j])
      ensures i < j
    {
      PrecedesIsBefore(table, labels, i, j);
    }
  }

  /** A policy of higher precedence comes first. */
  lemma {:induction false} PrecedesIsBefore(table: Table, labels: map<string, string>, i: nat, j: nat)
    requires Consistent(table)
    requires var rows := Policies(table, labels); i < |rows| && j < |rows| && Precedes(rows[i], rows[j])
    ensures i < j
  {
    var rows := Policies(table, labels);
    PoliciesInOrder(table, labels);
    if j < i {
      assert Precedes(rows[j], rows[i]);
    }
    TextLessTotal(rows[i].policyType, rows[j].policyType);
  }
}
