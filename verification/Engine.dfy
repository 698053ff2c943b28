/**
 The embedded OPA engine: one prepared query per policy ID, all compiled together. OPA's parser,
 compiler and evaluator are functions that may fail.
 */
module Engines {
  import opened Wrappers
  import opened JsonValues
  import opened Text

  datatype PolicyModule = PolicyModule(id: string, regoCode: string)

  /** A query prepared for one policy in a set of modules that were compiled together. */
  datatype PreparedQuery = PreparedQuery(sources: map<string, string>, id: string)

  datatype OpaInput = OpaInput(
    spec: Fields,
    provider: string,
    constraints: Option<map<string, Fields>>,
    providerConstraints: Option<(seq<string>, seq<string>)>)

  datatype OpaValue = EvalError | NoResult | Value(v: Json)

  /** What OPA does. */
  datatype Opa = Opa(
    parses: string -> bool,
    compiles: map<string, string> -> bool,
    prepares: (map<string, string>, string) -> bool,
    evaluates: (PreparedQuery, OpaInput) -> OpaValue)

  datatype Evaluation = Failed | Undefined | Defined(result: Fields)

  /** The rego code of each policy ID; a later module replaces an earlier one with the same ID. */
  function Sources(modules: seq<PolicyModule>): map<string, string> {
    if modules == [] then map[]
    else
      var last := modules[|modules| - 1];
      Sources(modules[..|modules| - 1])[last.id := last.regoCode]
  }

  /** The queries a successful compilation installs. */
  function QueriesOf(sources: map<string, string>): map<string, PreparedQuery> {
    map id | id in sources :: PreparedQuery(sources, id)
  }

  predicate Compilable(opa: Opa, sources: map<string, string>) {
    sources != map[] ==> opa.compiles(sources) && forall id | id in sources :: opa.prepares(sources, id)
  }

  /** The result of evaluating a policy; an ID without a query is undefined, not an error. */
  function Evaluated(opa: Opa, queries: map<string, PreparedQuery>, policyID: string, input: OpaInput): Evaluation {
    if policyID !in queries then Undefined
    else match opa.evaluates(queries[policyID], input)
      case EvalError => Failed
      case NoResult => Undefined
      case Value(v) => if v.Null? then Undefined else if v.Obj? then Defined(v.fields) else Failed
  }

  function Ids(modules: seq<PolicyModule>): set<string> {
    set m | m in modules :: m.id
  }

  lemma IdsOneMore(modules: seq<PolicyModule>, i: nat)
    requires i < |modules|
    ensures modules[..i + 1][..i] == modules[..i]
    ensures Ids(modules[..i + 1]) == Ids(modules[..i]) + {modules[i].id}
  {
    assert modules[..i + 1] == modules[..i] + [modules[i]];
  }

  lemma {:induction false} SourcesKeys(modules: seq<PolicyModule>)
    ensures Sources(modules).Keys == Ids(modules)
    ensures modules == [] <==> Sources(modules) == map[]
  {
    if modules != [] {
      var init, last := modules[..|modules| - 1], modules[|modules| - 1];
      IdsOneMore(modules, |init|);
      assert modules[..|init| + 1] == modules;
      SourcesKeys(init);
      assert last.id in Sources(modules);
    }
  }

  /** An ID stands for the last module that has it. */
  lemma {:induction false} LastModuleCounts(modules: seq<PolicyModule>, i: nat)
    requires i < |modules| && forall k | i < k < |modules| :: modules[k].id != modules[i].id
    ensures modules[i].id in Sources(modules) && Sources(modules)[modules[i].id] == modules[i].regoCode
  {
    if i < |modules| - 1 {
      LastModuleCounts(modules[..|modules| - 1], i);
    }
  }

  class EmbeddedEngine {
    const opa: Opa
    var queries: map<string, PreparedQuery>

    constructor (opa: Opa)
      ensures this.opa == opa && queries == map[]
    {
      this.opa := opa;
      queries := map[];
    }

    /** All or nothing: the queries of exactly these modules, or those from before. */
    method Compile(modules: seq<PolicyModule>) returns (ok: bool)
      modifies this`queries
      ensures ok <==> Compilable(opa, Sources(modules))
      ensures ok <==> (modules != [] ==>
        opa.compiles(Sources(modules)) && forall m | m in modules :: opa.prepares(Sources(modules), m.id))
      ensures ok ==> queries.Keys == Ids(modules)
      ensures ok ==> queries == QueriesOf(Sources(modules))
      ensures !ok ==> queries == old(queries)
    {
      SourcesKeys(modules);
      if |modules| == 0 {
        queries := map[];
        return true;
      }
      var sources: map<string, string> := map[];
      for i := 0 to |modules|
        invariant sources == Sources(modules[..i])
        invariant queries == old(queries)
      {
        IdsOneMore(modules, i);
        sources := sources[modules[i].id := modules[i].regoCode];
      }
      assert modules[..|modules|] == modules;
      if !opa.compiles(sources) {
        return false;
      }
      var newQueries := Prepare(modules, sources);
      if newQueries.None? {
        return false;
      }
      queries := newQueries.value;
      return true;
    }

    /** One prepared query per policy, or None when some query cannot be prepared. */
    method Prepare(modules: seq<PolicyModule>, sources: map<string, string>)
      returns (r: Option<map<string, PreparedQuery>>)
      requires sources.Keys == Ids(modules)
      ensures r.Some? <==> forall id | id in sources :: opa.prepares(sources, id)
      ensures r.Some? ==> r.value == QueriesOf(sources)
    {
      var newQueries: map<string, PreparedQuery> := map[];
      for i := 0 to |modules|
        invariant newQueries.Keys == Ids(modules[..i])
        invariant forall id | id in newQueries :: newQueries[id] == PreparedQuery(sources, id)
        invariant forall id | id in newQueries :: opa.prepares(sources, id)
      {
        IdsOneMore(modules, i);
        var id := modules[i].id;
        assert id in Ids(modules);
        if !opa.prepares(sources, id) {
          return None;
        }
        newQueries := newQueries[id := PreparedQuery(sources, id)];
      }
      assert modules[..|modules|] == modules;
      assert newQueries == QueriesOf(sources);
      return Some(newQueries);
    }

    method EvaluatePolicy(policyID: string, input: OpaInput) returns (r: Evaluation)
      ensures r == Evaluated(opa, queries, policyID, input)
    {
      if policyID !in queries {
        return Undefined;
      }
      match opa.evaluates(queries[policyID], input) {
        case EvalError => return Failed;
        case NoResult => return Undefined;
        case Value(v) =>
          if v.Null? {
            return Undefined;
          }
          if !v.Obj? {
            return Failed;
          }
          return Defined(v.fields);
      }
    }

    /** The syntax check before a policy is stored. */
    predicate ValidateRego(regoCode: string) {
      !Blank(regoCode) && opa.parses(regoCode)
    }
  }
}
