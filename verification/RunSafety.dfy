/**
 What a whole evaluation guarantees about earlier policies, whatever the later ones contribute.
 Policies are numbered as they are evaluated; policy `i` takes the run from `trace[i]` to
 `trace[i + 1]`.
 */
module RunSafety {
  import opened Wrappers
  import opened JsonValues
  import opened SchemaSemantics
  import opened KeywordMeaning
  import opened SchemaRuns
  import opened FieldPaths
  import opened PatchValidation
  import opened Decisions
  import opened Constraints
  import opened MergePatches
  import opened Engines
  import opened Store
  import opened Traces
  import opened Evaluations
  import Providers

  // ----- Reading a trace

  /** What policy `i` of the run decided. */
  function DecisionAt(w: Setting, rows: seq<Row>, trace: seq<RunState>, i: nat): PolicyDecision
    requires i < |rows| && i < |trace|
  {
    DecisionOf(w, rows[i].id, trace[i])
  }

  /** The schema policy `i` contributed for a field path, if it did. */
  function Contributed(d: PolicyDecision, path: string): Option<Fields> {
    if d.constraints.Some? && path in d.constraints.value && d.constraints.value[path].Obj?
    then Some(d.constraints.value[path].fields) else None
  }

  /** The value a decision's patch writes at a key path, if it does. */
  function WrittenAt(d: PolicyDecision, keys: seq<string>): Option<Json> {
    if d.patch.Some? then Lookup(Obj(d.patch.value), keys) else None
  }

  function SchemaAt(s: RunState, path: string): Option<Fields> {
    if path in s.context.schemas then Some(s.context.schemas[path]) else None
  }

  lemma {:induction false} StepAt(w: Setting, rows: seq<Row>, trace: seq<RunState>, i: nat)
    requires IsTrace(w, rows, trace) && i < |rows|
    ensures |trace| == |rows| + 1 && StepOk(w, rows[i].id, trace[i], trace[i + 1])
  {
    ChainAt(Steps(w), PolicyIds(rows), trace, i);
  }

  // ----- One step

  lemma {:induction false} StepSchemas(w: Setting, id: string, s: RunState, after: RunState, path: string)
    requires StepOk(w, id, s, after)
    ensures SchemaStep(SchemaAt(s, path), Contributed(DecisionOf(w, id, s), path), SchemaAt(after, path))
  {
  }

  /** A value that a step's patch writes satisfies the schema accumulated up to and with that step. */
  lemma {:induction false} StepWrites(w: Setting, id: string, s: RunState, after: RunState, keys: seq<string>)
    requires StepOk(w, id, s, after)
    requires keys != [] && WrittenAt(DecisionOf(w, id, s), keys).Some?
    ensures var written := WrittenAt(DecisionOf(w, id, s), keys).value;
      match SchemaAt(after, Dotted("", keys))
      case None => true
      case Some(schema) => Compiles(w.voc, schema) && Accepts(w.voc, schema, written)
  {
    var patch := DecisionOf(w, id, s).patch.value;
    var path := Dotted("", keys);
    LookupsAreVisits("", patch, keys);
    var visit := (path, Lookup(Obj(patch), keys).value);
    assert PatchOk(w.voc, after.context.schemas, patch);
    assert VisitOk(w.voc, after.context.schemas, visit);
  }

  lemma {:induction false} StepSpec(w: Setting, id: string, s: RunState, after: RunState)
    requires StepOk(w, id, s, after)
    ensures after.spec ==
      match DecisionOf(w, id, s).patch case None => s.spec case Some(patch) => Patched(s.spec, patch)
  {
  }

  // ----- Locks

  /** The accumulated schema of a field path fixes the value `c`. */
  predicate Fixes(schema: Option<Fields>, c: Json) {
    schema.Some? && "const" in schema.value && schema.value["const"] == c
  }

  lemma {:induction false} FixedStaysFixed(w: Setting, id: string, s: RunState, after: RunState, path: string, c: Json)
    requires StepOk(w, id, s, after) && Fixes(SchemaAt(s, path), c)
    ensures Fixes(SchemaAt(after, path), c)
  {
    StepSchemas(w, id, s, after, path);
    var added := Contributed(DecisionOf(w, id, s), path);
    if added.Some? {
      ConstSurvives(SchemaAt(s, path).value, added.value, SchemaAt(after, path).value);
    }
  }

  /** The spec holds `c` at the key path, or nothing. */
  predicate HoldsOrAbsent(spec: Fields, keys: seq<string>, c: Json) {
    Lookup(Obj(spec), keys) == None || Lookup(Obj(spec), keys) == Some(c)
  }

  lemma {:induction false} LockStep(w: Setting, id: string, s: RunState, after: RunState, keys: seq<string>, c: Json)
    requires StepOk(w, id, s, after) && keys != [] && NullFree(c)
    requires Fixes(SchemaAt(s, Dotted("", keys)), c) && HoldsOrAbsent(s.spec, keys, c)
    ensures HoldsOrAbsent(after.spec, keys, c)
    ensures KeptAtTop(s.spec, after.spec, keys, c)
  {
    StepSpec(w, id, s, after);
    WritesFixed(w, id, s, after, keys, c);
    DecisionKeepsLock(s.spec, DecisionOf(w, id, s), after.spec, keys, c);
  }

  lemma {:induction false} DecisionKeepsLock(spec: Fields, d: PolicyDecision, after: Fields, keys: seq<string>, c: Json)
    requires keys != [] && NullFree(c) && HoldsOrAbsent(spec, keys, c)
    requires after == match d.patch case None => spec case Some(patch) => Patched(spec, patch)
    requires WrittenAt(d, keys).Some? ==> WrittenAt(d, keys).value == c
    ensures HoldsOrAbsent(after, keys, c) && KeptAtTop(spec, after, keys, c)
  {
    if d.patch.Some? {
      PatchKeepsLock(spec, d.patch.value, keys, c);
    }
  }

  /** A value other than null at a top-level key stays there. */
  predicate KeptAtTop(before: Fields, after: Fields, keys: seq<string>, c: Json) {
    |keys| == 1 && c != Null && Lookup(Obj(before), keys) == Some(c) ==> Lookup(Obj(after), keys) == Some(c)
  }

  /** Where a value is fixed, a step can write no other. */
  lemma {:induction false} WritesFixed(w: Setting, id: string, s: RunState, after: RunState, keys: seq<string>, c: Json)
    requires StepOk(w, id, s, after) && keys != [] && Fixes(SchemaAt(s, Dotted("", keys)), c)
    ensures WrittenAt(DecisionOf(w, id, s), keys).Some? ==> WrittenAt(DecisionOf(w, id, s), keys).value == c
  {
    FixedStaysFixed(w, id, s, after, Dotted("", keys), c);
    if WrittenAt(DecisionOf(w, id, s), keys).Some? {
      StepWrites(w, id, s, after, keys);
    }
  }

  lemma LookupTop(fields: Fields, keys: seq<string>)
    requires |keys| == 1
    ensures Lookup(Obj(fields), keys) == if keys[0] in fields then Some(fields[keys[0]]) else None
  {
    assert keys[1..] == [];
  }

  lemma {:induction false} PatchKeepsLock(spec: Fields, patch: Fields, keys: seq<string>, c: Json)
    requires keys != [] && NullFree(c)
    requires HoldsOrAbsent(spec, keys, c) && HoldsOrAbsent(patch, keys, c)
    ensures HoldsOrAbsent(Patched(spec, patch), keys, c)
    ensures KeptAtTop(spec, Patched(spec, patch), keys, c)
  {
    LookupPatched(spec, patch, keys);
    if c.Obj? {
      PatchedWithItself(c.fields);
    }
    if |keys| == 1 {
      LookupTop(spec, keys);
      LookupTop(patch, keys);
      LookupTop(Patched(spec, patch), keys);
    }
  }

  /** At a point of the run the value is fixed, and the spec holds it or nothing. */
  predicate Locked(s: RunState, keys: seq<string>, c: Json) {
    Fixes(SchemaAt(s, Dotted("", keys)), c) && HoldsOrAbsent(s.spec, keys, c)
  }

  lemma {:induction false} LockAt(w: Setting, rows: seq<Row>, trace: seq<RunState>, j: nat, keys: seq<string>, c: Json)
    requires IsTrace(w, rows, trace) && j < |rows| < |trace| && keys != [] && NullFree(c) && Locked(trace[j], keys, c)
    ensures Locked(trace[j + 1], keys, c) && KeptAtTop(trace[j].spec, trace[j + 1].spec, keys, c)
  {
    StepAt(w, rows, trace, j);
    LockStep(w, rows[j].id, trace[j], trace[j + 1], keys, c);
    FixedStaysFixed(w, rows[j].id, trace[j], trace[j + 1], Dotted("", keys), c);
  }

  lemma {:induction false} TraceLength(w: Setting, rows: seq<Row>, trace: seq<RunState>)
    requires IsTrace(w, rows, trace)
    ensures |trace| == |rows| + 1
  {
  }

  /**
   Lock. Once the spec holds `c` at a key path and the accumulated schema there has `const` c, the
   spec at that path is `c` or absent at every later point of the run, and exactly `c` when the
   path is a single top-level key and `c` is not null. No assumption about the policies: overriding
   keywords and clashes do not touch `const`. `c` may be any value but an object with a null member.
   */
  lemma {:induction false} Lock(w: Setting, rows: seq<Row>, trace: seq<RunState>, i: nat, j: nat, keys: seq<string>,
                                c: Json)
    requires IsTrace(w, rows, trace) && i <= j < |trace| && keys != [] && NullFree(c)
    requires Fixes(SchemaAt(trace[i], Dotted("", keys)), c) && Lookup(Obj(trace[i].spec), keys) == Some(c)
    ensures Fixes(SchemaAt(trace[j], Dotted("", keys)), c)
    ensures HoldsOrAbsent(trace[j].spec, keys, c)
    ensures |keys| == 1 && c != Null ==> Lookup(Obj(trace[j].spec), keys) == Some(c)
  {
    TraceLength(w, rows, trace);
    LockLasts(w, rows, trace, i, j, keys, c);
  }

  lemma {:induction false} LockLasts(w: Setting, rows: seq<Row>, trace: seq<RunState>, i: nat, j: nat,
                                     keys: seq<string>, c: Json)
    requires IsTrace(w, rows, trace) && i <= j < |trace| == |rows| + 1 && keys != [] && NullFree(c)
    requires Locked(trace[i], keys, c)
    ensures Locked(trace[j], keys, c) && KeptAtTop(trace[i].spec, trace[j].spec, keys, c)
    decreases j
  {
    if i < j {
      LockLasts(w, rows, trace, i, j - 1, keys, c);
      LockAt(w, rows, trace, j - 1, keys, c);
    }
  }

  /**
   The documented way to lock a field. A policy that writes a value to a top-level key and fixes it
   with `const` in the same decision determines that key to the end of the run.
   */
  lemma {:induction false} SetAndLocked(w: Setting, rows: seq<Row>, trace: seq<RunState>, i: nat, j: nat, key: string,
                                        c: Json)
    requires IsTrace(w, rows, trace) && i < |rows| && i < j < |trace| == |rows| + 1
    requires WrittenAt(DecisionAt(w, rows, trace, i), [key]) == Some(c)
    requires Fixes(Contributed(DecisionAt(w, rows, trace, i), key), c)
    requires c != Null && !c.Obj?
    ensures key in trace[j].spec && trace[j].spec[key] == c
  {
    var d := DecisionAt(w, rows, trace, i);
    StepAt(w, rows, trace, i);
    StepSpec(w, rows[i].id, trace[i], trace[i + 1]);
    LookupTop(d.patch.value, [key]);
    StepSchemas(w, rows[i].id, trace[i], trace[i + 1], key);
    if SchemaAt(trace[i], key).Some? {
      ConstArrives(SchemaAt(trace[i], key).value, Contributed(d, key).value, SchemaAt(trace[i + 1], key).value);
    }
    assert [key][1..] == [];
    assert Dotted("", [key]) == key;
    LookupTop(trace[i + 1].spec, [key]);
    Lock(w, rows, trace, i + 1, j, [key], c);
    LookupTop(trace[j].spec, [key]);
  }

  /** Every step from a state that has the fixed value at the key leaves it there, or at most drops it. */
  ghost predicate StepsKeepOrDrop(key: string, c: Json) {
    forall w: Setting, id, s, after | StepOk(w, id, s, after) ::
      Fixes(SchemaAt(s, key), c) && Lookup(Obj(s.spec), [key]) == Some(c) ==> HoldsOrAbsent(after.spec, [key], c)
  }

  /** The same without dropping. */
  ghost predicate StepsKeep(key: string, c: Json) {
    forall w: Setting, id, s, after | StepOk(w, id, s, after) ::
      Fixes(SchemaAt(s, key), c) && Lookup(Obj(s.spec), [key]) == Some(c) ==> Lookup(Obj(after.spec), [key]) == Some(c)
  }

  /**
   Which fixed values are locked: kept or dropped are exactly those without null members, and kept
   exactly those that are not null either. For the others, a policy that writes the fixed value again
   passes every check, and merging it into itself changes the spec.
   */
  lemma {:induction false} LockExactly(key: string, c: Json)
    requires key != ""
    ensures StepsKeepOrDrop(key, c) <==> NullFree(c)
    ensures StepsKeep(key, c) <==> NullFree(c) && c != Null
  {
    assert Dotted("", [key]) == key by { assert [key][1..] == []; }
    if NullFree(c) {
      forall w: Setting, id, s, after |
        StepOk(w, id, s, after) && Fixes(SchemaAt(s, key), c) && Lookup(Obj(s.spec), [key]) == Some(c)
        ensures HoldsOrAbsent(after.spec, [key], c) && (c != Null ==> Lookup(Obj(after.spec), [key]) == Some(c))
      {
        LockStep(w, id, s, after, [key], c);
      }
    }
    RewriteIsStep(key, c);
    RewriteChanges(key, c);
  }

  // A setting in which the one policy writes `c` to `key`, and nothing else.

  function Rewriting(key: string, c: Json): Setting {
    var result := map["patch" := Obj(map[key := c])];
    Setting(Opa(_ => true, _ => true, (_, _) => true, (_, _) => Value(Obj(result))),
            map["p" := PreparedQuery(map[], "p")],
            Vocabulary(_ => true, (_, _) => true, (_, _) => true, (_, _, _) => true))
  }

  /** The key holds `c`, and is fixed to it. */
  function Holding(key: string, c: Json): RunState {
    RunState(map[key := c], "", Context(map[key := map["const" := c]], map[key := "q"], None))
  }

  function Rewritten(key: string, c: Json): RunState {
    Holding(key, c).(spec := Patched(map[key := c], map[key := c]))
  }

  lemma {:induction false} RewriteIsStep(key: string, c: Json)
    requires key != ""
    ensures StepOk(Rewriting(key, c), "p", Holding(key, c), Rewritten(key, c))
    ensures Fixes(SchemaAt(Holding(key, c), key), c) && Lookup(Obj(Holding(key, c).spec), [key]) == Some(c)
  {
    LookupTop(map[key := c], [key]);
    RewriteIsOk(Rewriting(key, c).voc, key, c);
    var d := NO_DECISION.(patch := Some(map[key := c]));
    RewriteDecision(key, c);
    RewriteApplies(Rewriting(key, c).voc, d, key, c);
  }

  lemma {:induction false} RewriteDecision(key: string, c: Json)
    ensures var result := map["patch" := Obj(map[key := c])];
      && EvaluationOf(Rewriting(key, c), "p", Holding(key, c)) == Defined(result)
      && Decision(result) == NO_DECISION.(patch := Some(map[key := c]))
  {
  }

  lemma {:induction false} RewriteApplies(voc: Vocabulary, d: PolicyDecision, key: string, c: Json)
    requires d == NO_DECISION.(patch := Some(map[key := c]))
    requires PatchOk(voc, map[key := map["const" := c]], map[key := c])
    ensures Applied(voc, "p", d, Holding(key, c), Rewritten(key, c))
  {
  }

  /** The fixed value itself passes. */
  lemma {:induction false} RewriteIsOk(voc: Vocabulary, key: string, c: Json)
    requires key != ""
    ensures PatchOk(voc, map[key := map["const" := c]], map[key := c])
  {
    var schemas: map<string, Fields> := map[key := map["const" := c]];
    var patch: Fields := map[key := c];
    VisitsOfOne(key, c);
    forall x | x in Visits("", patch)
      ensures VisitOk(voc, schemas, x)
    {
      if x != (key, c) {
        VisitsAreBelow(key, c.fields, x);
      }
    }
  }

  lemma {:induction false} RewriteChanges(key: string, c: Json)
    ensures HoldsOrAbsent(Rewritten(key, c).spec, [key], c) <==> NullFree(c)
    ensures Lookup(Obj(Rewritten(key, c).spec), [key]) == Some(c) <==> NullFree(c) && c != Null
  {
    LookupTop(Rewritten(key, c).spec, [key]);
    if c.Obj? {
      PatchedWithItself(c.fields);
    }
  }

  // ----- Tightening over a run

  /** The accumulated schemas of a field path over a run, before the first policy and after each. */
  function SchemaHistory(trace: seq<RunState>, path: string): seq<Option<Fields>> {
    seq(|trace|, i requires 0 <= i < |trace| => SchemaAt(trace[i], path))
  }

  /** The schemas the policies of a run contributed for a field path. */
  function Contributions(w: Setting, rows: seq<Row>, trace: seq<RunState>, path: string): seq<Option<Fields>>
    requires |rows| < |trace|
  {
    seq(|rows|, i requires 0 <= i < |rows| => Contributed(DecisionAt(w, rows, trace, i), path))
  }

  lemma {:induction false} HistoryIsChain(w: Setting, rows: seq<Row>, trace: seq<RunState>, path: string)
    requires IsTrace(w, rows, trace) && |rows| < |trace| && trace[0].context == EMPTY_CONTEXT
    ensures SchemaChain(SchemaHistory(trace, path), Contributions(w, rows, trace, path))
  {
    TraceLength(w, rows, trace);
    var history, added := SchemaHistory(trace, path), Contributions(w, rows, trace, path);
    forall i | 0 <= i < |added|
      ensures SchemaStep(history[i], added[i], history[i + 1])
    {
      SchemaStepAt(w, rows, trace, i, path);
    }
  }

  lemma {:induction false} SchemaStepAt(w: Setting, rows: seq<Row>, trace: seq<RunState>, i: nat, path: string)
    requires IsTrace(w, rows, trace) && i < |rows| && |trace| == |rows| + 1
    ensures SchemaStep(SchemaAt(trace[i], path), Contributed(DecisionAt(w, rows, trace, i), path),
                       SchemaAt(trace[i + 1], path))
  {
    StepAt(w, rows, trace, i);
    StepSchemas(w, rows[i].id, trace[i], trace[i + 1], path);
  }

  /** A value at the key path respects what policy `i` demands there, as seen by policy `j`. */
  predicate RespectsPolicy(w: Setting, rows: seq<Row>, trace: seq<RunState>, i: nat, j: nat, keys: seq<string>, v: Json)
    requires i <= j < |rows| < |trace|
  {
    var path := Dotted("", keys);
    Respects(w.voc, SchemaHistory(trace, path), Contributions(w, rows, trace, path), i, j, v)
  }

  /**
   Whole-run safety. In every evaluation, for policies i before or equal to j: a value that j's patch
   writes at a key path whose dotted path i constrained satisfies i's own schema for that path, apart
   from `Lost` keywords. Nothing is assumed about the policies. In particular every handled keyword
   with a readable argument is respected, except a pattern that is not the first on its path, if an
   `allOf` written by some policy from i to j drops it.
   */
  lemma {:induction false} WholeRunSafety(w: Setting, rows: seq<Row>, trace: seq<RunState>, i: nat, j: nat,
                                          keys: seq<string>)
    requires IsTrace(w, rows, trace) && i <= j < |rows| < |trace| && trace[0].context == EMPTY_CONTEXT
    requires keys != [] && WrittenAt(DecisionAt(w, rows, trace, j), keys).Some?
    ensures RespectsPolicy(w, rows, trace, i, j, keys, WrittenAt(DecisionAt(w, rows, trace, j), keys).value)
  {
    var path := Dotted("", keys);
    HistoryIsChain(w, rows, trace, path);
    WritesAccepted(w, rows, trace, j, keys);
    AccumulatedRespects(w.voc, SchemaHistory(trace, path), Contributions(w, rows, trace, path), i, j,
                        WrittenAt(DecisionAt(w, rows, trace, j), keys).value);
  }

  /** What a policy writes, the schema accumulated with it accepts. */
  lemma {:induction false} WritesAccepted(w: Setting, rows: seq<Row>, trace: seq<RunState>, j: nat, keys: seq<string>)
    requires IsTrace(w, rows, trace) && j < |rows| && |trace| == |rows| + 1
    requires keys != [] && WrittenAt(DecisionAt(w, rows, trace, j), keys).Some?
    ensures AcceptsIfAny(w.voc, SchemaHistory(trace, Dotted("", keys))[j + 1],
                         WrittenAt(DecisionAt(w, rows, trace, j), keys).value)
  {
    StepAt(w, rows, trace, j);
    StepWrites(w, rows[j].id, trace[j], trace[j + 1], keys);
  }

  /** Policy `i` uses the documented keywords with arguments of the right type, and its pattern is not lost. */
  predicate FullyBinding(w: Setting, rows: seq<Row>, trace: seq<RunState>, i: nat, j: nat, path: string)
    requires i <= j < |rows| < |trace|
  {
    var added := Contributions(w, rows, trace, path);
    (added[i].Some? ==> WellTyped(added[i].value)) && KeepsPattern(SchemaHistory(trace, path), added, i, j)
  }

  /**
   Whole-run safety for a policy that uses the documented keywords with arguments of the right type:
   its whole schema is respected, whatever the other policies contribute, unless its pattern is lost.
   */
  lemma {:induction false} WellTypedRunSafety(w: Setting, rows: seq<Row>, trace: seq<RunState>, i: nat, j: nat,
                                              keys: seq<string>)
    requires IsTrace(w, rows, trace) && i <= j < |rows| < |trace| && trace[0].context == EMPTY_CONTEXT
    requires keys != [] && WrittenAt(DecisionAt(w, rows, trace, j), keys).Some?
    requires FullyBinding(w, rows, trace, i, j, Dotted("", keys))
    ensures AcceptsIfAny(w.voc, Contributed(DecisionAt(w, rows, trace, i), Dotted("", keys)),
                         WrittenAt(DecisionAt(w, rows, trace, j), keys).value)
  {
    var path := Dotted("", keys);
    WholeRunSafety(w, rows, trace, i, j, keys);
    WellTypedIsRespected(w.voc, SchemaHistory(trace, path), Contributions(w, rows, trace, path), i, j,
                         WrittenAt(DecisionAt(w, rows, trace, j), keys).value);
  }

  // ----- Where the values of the spec come from

  /** From state `m` to state `n` the spec holds the value at the key path. */
  predicate Held(trace: seq<RunState>, m: nat, n: nat, keys: seq<string>, v: Json)
    requires n < |trace|
  {
    forall x | m <= x <= n :: Lookup(Obj(trace[x].spec), keys) == Some(v)
  }

  lemma HeldOneMore(trace: seq<RunState>, m: nat, n: nat, keys: seq<string>, v: Json)
    requires 0 < n < |trace| && Held(trace, m, n - 1, keys, v) && Lookup(Obj(trace[n].spec), keys) == Some(v)
    ensures Held(trace, m, n, keys, v)
  {
  }

  lemma {:induction false} ComesFrom(w: Setting, rows: seq<Row>, trace: seq<RunState>, n: nat, keys: seq<string>,
                                     v: Json)
    requires IsTrace(w, rows, trace) && n < |rows| && |trace| == |rows| + 1 && keys != [] && !v.Obj?
    requires Lookup(Obj(trace[n + 1].spec), keys) == Some(v)
    ensures Lookup(Obj(trace[n].spec), keys) == Some(v) || WrittenAt(DecisionAt(w, rows, trace, n), keys) == Some(v)
  {
    StepAt(w, rows, trace, n);
    StepSpec(w, rows[n].id, trace[n], trace[n + 1]);
    var d := DecisionAt(w, rows, trace, n);
    if d.patch.Some? {
      LookupPatched(trace[n].spec, d.patch.value, keys);
    }
  }

  /** Who wrote a value of the spec: a policy, or nobody, and then it is the request's. */
  lemma {:induction false} Provenance(w: Setting, rows: seq<Row>, trace: seq<RunState>, n: nat, keys: seq<string>,
                                      v: Json)
    returns (writer: Option<nat>)
    requires IsTrace(w, rows, trace) && n < |trace| == |rows| + 1 && keys != [] && !v.Obj?
    requires Lookup(Obj(trace[n].spec), keys) == Some(v)
    ensures match writer
            case None => Held(trace, 0, n, keys, v)
            case Some(j) =>
              j < n && WrittenAt(DecisionAt(w, rows, trace, j), keys) == Some(v) && Held(trace, j + 1, n, keys, v)
  {
    assert Held(trace, n, n, keys, v);
    if n == 0 {
      writer := None;
    } else if WrittenAt(DecisionAt(w, rows, trace, n - 1), keys) == Some(v) {
      writer := Some(n - 1);
    } else {
      ComesFrom(w, rows, trace, n - 1, keys, v);
      writer := Provenance(w, rows, trace, n - 1, keys, v);
      HeldOneMore(trace, if writer.Some? then writer.value + 1 else 0, n, keys, v);
    }
  }

  /** A policy's value arrives in the spec, and stays as long as the patches after it leave its place alone. */
  lemma {:induction false} WrittenStays(w: Setting, rows: seq<Row>, trace: seq<RunState>, j: nat, n: nat,
                                        keys: seq<string>, v: Json)
    requires IsTrace(w, rows, trace) && j < n < |trace| == |rows| + 1 && keys != [] && !v.Obj? && v != Null
    requires WrittenAt(DecisionAt(w, rows, trace, j), keys) == Some(v)
    requires forall k | j < k < n :: PatchLeavesAlone(DecisionAt(w, rows, trace, k), keys)
    ensures Lookup(Obj(trace[n].spec), keys) == Some(v)
  {
    StepWrote(w, rows, trace, j, keys, v);
    ValueStays(w, rows, trace, j + 1, n, keys, v);
  }

  lemma {:induction false} StepWrote(w: Setting, rows: seq<Row>, trace: seq<RunState>, j: nat,
                                     keys: seq<string>, v: Json)
    requires IsTrace(w, rows, trace) && j < |rows| && |trace| == |rows| + 1 && keys != [] && !v.Obj? && v != Null
    requires WrittenAt(DecisionAt(w, rows, trace, j), keys) == Some(v)
    ensures Lookup(Obj(trace[j + 1].spec), keys) == Some(v)
  {
    StepAt(w, rows, trace, j);
    StepSpec(w, rows[j].id, trace[j], trace[j + 1]);
    WriteArrives(trace[j].spec, DecisionAt(w, rows, trace, j).patch.value, keys, v);
  }

  predicate PatchLeavesAlone(d: PolicyDecision, keys: seq<string>) {
    d.patch.Some? ==> LeavesAlone(d.patch.value, keys)
  }

  /** A value of the spec stays as long as the patches leave its place alone. */
  lemma {:induction false} ValueStays(w: Setting, rows: seq<Row>, trace: seq<RunState>, m: nat, n: nat,
                                      keys: seq<string>, v: Json)
    requires IsTrace(w, rows, trace) && m <= n < |trace| == |rows| + 1 && Lookup(Obj(trace[m].spec), keys) == Some(v)
    requires forall k | m <= k < n :: PatchLeavesAlone(DecisionAt(w, rows, trace, k), keys)
    ensures Lookup(Obj(trace[n].spec), keys) == Some(v)
    decreases n
  {
    if m < n {
      ValueStays(w, rows, trace, m, n - 1, keys, v);
      StepLeavesAlone(w, rows, trace, n - 1, keys, v);
    }
  }

  lemma {:induction false} StepLeavesAlone(w: Setting, rows: seq<Row>, trace: seq<RunState>, n: nat,
                                           keys: seq<string>, v: Json)
    requires IsTrace(w, rows, trace) && n < |rows| && |trace| == |rows| + 1
    requires Lookup(Obj(trace[n].spec), keys) == Some(v)
    requires PatchLeavesAlone(DecisionAt(w, rows, trace, n), keys)
    ensures Lookup(Obj(trace[n + 1].spec), keys) == Some(v)
  {
    StepAt(w, rows, trace, n);
    StepSpec(w, rows[n].id, trace[n], trace[n + 1]);
    var d := DecisionAt(w, rows, trace, n);
    if d.patch.Some? {
      LeftAlone(trace[n].spec, d.patch.value, keys, v);
    }
  }

  /** Policy `j` wrote the value, nobody changed it since, and it respects every policy up to `j`. */
  ghost predicate WrittenLast(w: Setting, rows: seq<Row>, trace: seq<RunState>, j: nat, keys: seq<string>, v: Json)
    requires |trace| == |rows| + 1
  {
    && j < |rows| && WrittenAt(DecisionAt(w, rows, trace, j), keys) == Some(v)
    && Held(trace, j + 1, |rows|, keys, v)
    && forall i | 0 <= i <= j :: RespectsPolicy(w, rows, trace, i, j, keys, v)
  }

  /**
   What the final spec holds. A value other than an object is the request's own and was there all
   along, or some policy wrote it, and it respects every policy up to that one.
   */
  lemma {:induction false} FinalSpec(w: Setting, rows: seq<Row>, trace: seq<RunState>, keys: seq<string>, v: Json)
    requires IsTrace(w, rows, trace) && |trace| == |rows| + 1 && trace[0].context == EMPTY_CONTEXT
    requires keys != [] && !v.Obj? && Lookup(Obj(trace[|rows|].spec), keys) == Some(v)
    ensures Held(trace, 0, |rows|, keys, v) || exists j: nat :: WrittenLast(w, rows, trace, j, keys, v)
  {
    var writer := Provenance(w, rows, trace, |rows|, keys, v);
    if writer.Some? {
      var j := writer.value;
      forall i: nat | 0 <= i <= j
        ensures RespectsPolicy(w, rows, trace, i, j, keys, v)
      {
        WholeRunSafety(w, rows, trace, i, j, keys);
      }
      assert WrittenLast(w, rows, trace, j, keys, v);
    }
  }

  // ----- The selected provider

  /** What a step does to the provider constraints and the provider. */
  ghost predicate ProviderStep(voc: Vocabulary, s: RunState, d: PolicyDecision, after: RunState) {
    && (exists id ::
          Providers.Accumulate(s.context.providers, d.providerConstraints, id) == Some(after.context.providers))
    && (if d.selectedProvider == "" then after.provider == s.provider
        else after.provider == d.selectedProvider && Providers.Allowed(voc, after.context.providers, after.provider))
  }

  lemma {:induction false} StepProviders(w: Setting, id: string, s: RunState, after: RunState)
    requires StepOk(w, id, s, after)
    ensures ProviderStep(w.voc, s, DecisionOf(w, id, s), after)
  {
    var d := DecisionOf(w, id, s);
    assert Providers.Accumulate(s.context.providers, d.providerConstraints, id) == Some(after.context.providers);
  }

  function DecisionsOf(w: Setting, rows: seq<Row>, trace: seq<RunState>): seq<PolicyDecision>
    requires |rows| < |trace|
  {
    seq(|rows|, i requires 0 <= i < |rows| => DecisionAt(w, rows, trace, i))
  }

  ghost predicate ProviderChain(voc: Vocabulary, trace: seq<RunState>, ds: seq<PolicyDecision>) {
    && |trace| == |ds| + 1 && trace[0].context.providers == None && trace[0].provider == ""
    && forall i {:trigger ds[i]} | 0 <= i < |ds| :: ProviderStep(voc, trace[i], ds[i], trace[i + 1])
  }

  lemma {:induction false} TraceIsProviderChain(w: Setting, rows: seq<Row>, trace: seq<RunState>)
    requires IsTrace(w, rows, trace) && |rows| < |trace|
    requires trace[0].context == EMPTY_CONTEXT && trace[0].provider == ""
    ensures ProviderChain(w.voc, trace, DecisionsOf(w, rows, trace))
  {
    TraceLength(w, rows, trace);
    var ds := DecisionsOf(w, rows, trace);
    forall i | 0 <= i < |ds|
      ensures ProviderStep(w.voc, trace[i], ds[i], trace[i + 1])
    {
      ProviderStepAt(w, rows, trace, i);
    }
  }

  lemma {:induction false} ProviderStepAt(w: Setting, rows: seq<Row>, trace: seq<RunState>, i: nat)
    requires IsTrace(w, rows, trace) && i < |rows| && |trace| == |rows| + 1
    ensures ProviderStep(w.voc, trace[i], DecisionAt(w, rows, trace, i), trace[i + 1])
  {
    StepAt(w, rows, trace, i);
    StepProviders(w, rows[i].id, trace[i], trace[i + 1]);
  }

  /** The accumulated provider constraints are those of all policies so far. */
  lemma {:induction false} AccumulatedProviders(voc: Vocabulary, trace: seq<RunState>, ds: seq<PolicyDecision>, n: nat,
                                                provider: string)
    requires ProviderChain(voc, trace, ds) && n <= |ds|
    ensures Providers.Allowed(voc, trace[n].context.providers, provider)
       <==> forall k | 0 <= k < n :: Providers.Meets(voc, ds[k].providerConstraints, provider)
  {
    if n > 0 {
      AccumulatedProviders(voc, trace, ds, n - 1, provider);
      var before, sp := trace[n - 1].context.providers, ds[n - 1].providerConstraints;
      var id :| Providers.Accumulate(before, sp, id) == Some(trace[n].context.providers);
      Providers.AccumulateMeaning(voc, before, sp, id, provider);
    }
  }

  /** Which of the first `n` decisions is the last to select a provider. */
  function LastSelection(ds: seq<PolicyDecision>, n: nat): (sel: Option<nat>)
    requires n <= |ds|
    ensures sel.Some? ==> sel.value < n && ds[sel.value].selectedProvider != ""
    ensures forall k | (if sel.Some? then sel.value + 1 else 0) <= k < n :: ds[k].selectedProvider == ""
  {
    if n == 0 then None
    else if ds[n - 1].selectedProvider != "" then Some(n - 1)
    else LastSelection(ds, n - 1)
  }

  lemma {:induction false} SelectedInChain(voc: Vocabulary, trace: seq<RunState>, ds: seq<PolicyDecision>, n: nat)
    requires ProviderChain(voc, trace, ds) && n <= |ds|
    ensures match LastSelection(ds, n)
            case None => trace[n].provider == ""
            case Some(sel) =>
              && trace[n].provider == ds[sel].selectedProvider
              && Providers.Allowed(voc, trace[sel + 1].context.providers, trace[n].provider)
  {
    if n > 0 {
      SelectedInChain(voc, trace, ds, n - 1);
      assert ProviderStep(voc, trace[n - 1], ds[n - 1], trace[n]);
    }
  }

  predicate MeetsAll(voc: Vocabulary, ds: seq<PolicyDecision>, provider: string) {
    forall d | d in ds :: Providers.Meets(voc, d.providerConstraints, provider)
  }

  lemma {:induction false} AllowedMeetsAll(voc: Vocabulary, trace: seq<RunState>, ds: seq<PolicyDecision>, n: nat,
                                           provider: string)
    requires ProviderChain(voc, trace, ds) && n <= |ds|
    requires Providers.Allowed(voc, trace[n].context.providers, provider)
    ensures MeetsAll(voc, ds[..n], provider)
  {
    AccumulatedProviders(voc, trace, ds, n, provider);
    forall d | d in ds[..n]
      ensures Providers.Meets(voc, d.providerConstraints, provider)
    {
      var k :| 0 <= k < n && ds[k] == d;
    }
  }

  /**
   The provider of a run is empty if no policy selected one; otherwise it is the last one selected,
   and it meets the provider constraints of every policy up to and including the one that selected it.
   */
  lemma {:induction false} SelectedProvider(w: Setting, rows: seq<Row>, trace: seq<RunState>, n: nat)
    requires IsTrace(w, rows, trace) && n <= |rows| < |trace|
    requires trace[0].context == EMPTY_CONTEXT && trace[0].provider == ""
    ensures var ds := DecisionsOf(w, rows, trace);
      match LastSelection(ds, n)
      case None => trace[n].provider == ""
      case Some(sel) =>
        trace[n].provider == ds[sel].selectedProvider && MeetsAll(w.voc, ds[..sel + 1], trace[n].provider)
  {
    var ds := DecisionsOf(w, rows, trace);
    TraceIsProviderChain(w, rows, trace);
    SelectedInChain(w.voc, trace, ds, n);
    var sel := LastSelection(ds, n);
    if sel.Some? {
      AllowedMeetsAll(w.voc, trace, ds, sel.value + 1, trace[n].provider);
    }
  }
}
