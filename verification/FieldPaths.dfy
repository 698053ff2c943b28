/** Dotted field paths, and the values a nested patch holds at them. */
module FieldPaths {
  import opened Wrappers
  import opened JsonValues

  function Dot(prefix: string, key: string): string {
    if prefix == "" then key else prefix + "." + key
  }

  /** The dotted path of a sequence of keys below `prefix`. */
  function Dotted(prefix: string, keys: seq<string>): string
    decreases |keys|
  {
    if keys == [] then prefix else Dotted(Dot(prefix, keys[0]), keys[1..])
  }

  /** What validatePatchRecursive meets in a patch: each member's dotted path with its value. */
  function Visits(prefix: string, patch: Fields): set<(string, Json)>
    decreases Obj(patch), 1
  {
    VisitsAt(prefix, patch, patch.Keys)
  }

  function VisitsAt(prefix: string, patch: Fields, keys: set<string>): set<(string, Json)>
    requires keys <= patch.Keys
    decreases Obj(patch), 0
  {
    set k, x | k in keys && x in VisitsBelow(Dot(prefix, k), patch[k]) :: x
  }

  /** A member itself and, when it is an object, what is met inside it. */
  function VisitsBelow(path: string, v: Json): set<(string, Json)>
    decreases v, 2
  {
    {(path, v)} + if v.Obj? then Visits(path, v.fields) else {}
  }

  lemma VisitsOneMore(prefix: string, patch: Fields, keys: set<string>, key: string)
    requires keys <= patch.Keys && key in patch
    ensures VisitsAt(prefix, patch, keys + {key})
         == VisitsAt(prefix, patch, keys) + VisitsBelow(Dot(prefix, key), patch[key])
  {
  }

  lemma {:induction false} VisitsOfOne(key: string, v: Json)
    ensures Visits("", map[key := v]) == VisitsBelow(key, v)
  {
    var patch: Fields := map[key := v];
    VisitsOneMore("", patch, {}, key);
    assert VisitsAt("", patch, {}) == {} && {} + {key} == patch.Keys;
  }

  /** Below a path that is not empty, only longer paths are met. */
  lemma {:induction false} VisitsAreBelow(prefix: string, patch: Fields, visit: (string, Json))
    requires prefix != "" && visit in Visits(prefix, patch)
    ensures |visit.0| > |prefix|
    decreases Obj(patch)
  {
    var k :| k in patch && visit in VisitsBelow(Dot(prefix, k), patch[k]);
    if visit != (Dot(prefix, k), patch[k]) {
      VisitsAreBelow(Dot(prefix, k), patch[k].fields, visit);
    }
  }

  lemma {:induction false} LookupsAreVisits(prefix: string, patch: Fields, keys: seq<string>)
    requires keys != [] && Lookup(Obj(patch), keys).Some?
    ensures (Dotted(prefix, keys), Lookup(Obj(patch), keys).value) in Visits(prefix, patch)
    decreases |keys|
  {
    var k, rest := keys[0], keys[1..];
    var path := Dot(prefix, k);
    assert Lookup(patch[k], rest) == Lookup(Obj(patch), keys);
    if rest == [] {
      assert (path, patch[k]) in VisitsBelow(path, patch[k]);
    } else {
      LookupsAreVisits(path, patch[k].fields, rest);
      assert (Dotted(prefix, keys), Lookup(Obj(patch), keys).value) in VisitsBelow(path, patch[k]);
    }
  }

  lemma {:induction false} VisitsAreLookups(prefix: string, patch: Fields, visit: (string, Json))
    returns (keys: seq<string>)
    requires visit in Visits(prefix, patch)
    ensures keys != [] && Lookup(Obj(patch), keys) == Some(visit.1) && Dotted(prefix, keys) == visit.0
    decreases Obj(patch)
  {
    var k :| k in patch && visit in VisitsBelow(Dot(prefix, k), patch[k]);
    if visit == (Dot(prefix, k), patch[k]) {
      keys := [k];
      assert keys[1..] == [];
    } else {
      var rest := VisitsAreLookups(Dot(prefix, k), patch[k].fields, visit);
      keys := [k] + rest;
      assert keys[1..] == rest;
    }
  }
}
