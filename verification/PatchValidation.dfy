/**
 ValidatePatch: the recursive check of a nested patch against the constraints on dotted field
 paths, with one schema compiler and one cache of compiled schemas for the whole call.
 */
module PatchValidation {
  import opened Wrappers
  import opened JsonValues
  import opened SchemaSemantics
  import opened FieldPaths

  datatype Violation = Violation(fieldPath: string, setByPolicy: string)

  /** The schema resource of a field path: dots become underscores, so distinct paths may share it. */
  function ResourceUri(fieldPath: string): string {
    "file:///constraint/" + Underscored(fieldPath)
  }

  function Underscored(s: string): string {
    if s == "" then "" else [if s[0] == '.' then '_' else s[0]] + Underscored(s[1..])
  }

  /** The value met at a field path satisfies the accumulated schema there, if there is one. */
  predicate VisitOk(voc: Vocabulary, schemas: map<string, Fields>, visit: (string, Json)) {
    visit.0 in schemas ==> Compiles(voc, schemas[visit.0]) && Accepts(voc, schemas[visit.0], visit.1)
  }

  /** Distinct constrained paths among the visits have distinct schema resources. */
  predicate DistinctResources(schemas: map<string, Fields>, visits: set<(string, Json)>) {
    forall x, y | x in visits && y in visits && x.0 in schemas && y.0 in schemas && x.0 != y.0 ::
      ResourceUri(x.0) != ResourceUri(y.0)
  }

  /** What an empty list of violations means. */
  predicate AllOk(voc: Vocabulary, schemas: map<string, Fields>, visits: set<(string, Json)>) {
    (forall x | x in visits :: VisitOk(voc, schemas, x)) && DistinctResources(schemas, visits)
  }

  predicate PatchOk(voc: Vocabulary, schemas: map<string, Fields>, patch: Fields) {
    AllOk(voc, schemas, Visits("", patch))
  }

  /** Every value the patch holds at a key path satisfies the schema of the dotted path. */
  ghost predicate KeyPathsOk(voc: Vocabulary, schemas: map<string, Fields>, patch: Fields) {
    forall keys: seq<string> | keys != [] ::
      Lookup(Obj(patch), keys).Some? ==> VisitOk(voc, schemas, (Dotted("", keys), Lookup(Obj(patch), keys).value))
  }

  /** The verdict in terms of key paths: every constrained value is accepted, and no resource is shared. */
  lemma PatchOkExactly(voc: Vocabulary, schemas: map<string, Fields>, patch: Fields)
    ensures PatchOk(voc, schemas, patch)
       <==> KeyPathsOk(voc, schemas, patch) && DistinctResources(schemas, Visits("", patch))
  {
    if PatchOk(voc, schemas, patch) {
      forall keys: seq<string> | keys != [] && Lookup(Obj(patch), keys).Some?
        ensures VisitOk(voc, schemas, (Dotted("", keys), Lookup(Obj(patch), keys).value))
      {
        LookupsAreVisits("", patch, keys);
      }
    }
    if KeyPathsOk(voc, schemas, patch) {
      forall x | x in Visits("", patch)
        ensures VisitOk(voc, schemas, x)
      {
        var keys := VisitsAreLookups("", patch, x);
        assert VisitOk(voc, schemas, (Dotted("", keys), Lookup(Obj(patch), keys).value));
        assert x == (Dotted("", keys), Lookup(Obj(patch), keys).value);
      }
    }
  }

  /** Two texts that differ in nothing but dots and underscores. */
  predicate AlikeUpToDots(a: string, b: string) {
    |a| == |b| && forall i | 0 <= i < |a| :: a[i] == b[i] || (a[i] in "._" && b[i] in "._")
  }

  lemma {:induction false} SameUnderscoredExactly(a: string, b: string)
    ensures Underscored(a) == Underscored(b) <==> AlikeUpToDots(a, b)
  {
    if a != "" && b != "" {
      SameUnderscoredExactly(a[1..], b[1..]);
      assert a == [a[0]] + a[1..] && b == [b[0]] + b[1..];
      assert Underscored(a)[1..] == Underscored(a[1..]) && Underscored(b)[1..] == Underscored(b[1..]);
    }
  }

  /** Two paths share a schema resource exactly when they differ in nothing but dots and underscores. */
  lemma SameResourceExactly(a: string, b: string)
    ensures ResourceUri(a) == ResourceUri(b) <==> AlikeUpToDots(a, b)
  {
    SameUnderscoredExactly(a, b);
    var prefix := "file:///constraint/";
    assert ResourceUri(a)[|prefix|..] == Underscored(a) && ResourceUri(b)[|prefix|..] == Underscored(b);
  }

  /** No two constrained paths of the patch are alike up to dots and underscores. */
  ghost predicate PathsApart(schemas: map<string, Fields>, patch: Fields) {
    forall a: seq<string>, b: seq<string> | ConstrainedAt(schemas, patch, a) && ConstrainedAt(schemas, patch, b) ::
      Dotted("", a) == Dotted("", b) || !AlikeUpToDots(Dotted("", a), Dotted("", b))
  }

  /** The patch holds a value at the key path, and its dotted path is constrained. */
  predicate ConstrainedAt(schemas: map<string, Fields>, patch: Fields, keys: seq<string>) {
    keys != [] && Lookup(Obj(patch), keys).Some? && Dotted("", keys) in schemas
  }

  /**
   When a patch passes: every constrained value at a key path is accepted by a schema that compiles,
   and no two constrained paths are alike up to dots and underscores.
   */
  lemma PatchPassesExactly(voc: Vocabulary, schemas: map<string, Fields>, patch: Fields)
    ensures PatchOk(voc, schemas, patch)
       <==> PathsApart(schemas, patch) && ConstrainedAccepted(voc, schemas, patch)
  {
    PatchOkExactly(voc, schemas, patch);
    ApartExactly(schemas, patch);
    KeyPathsMeaning(voc, schemas, patch);
  }

  /** Every constrained value at a key path is accepted by a schema that compiles. */
  ghost predicate ConstrainedAccepted(voc: Vocabulary, schemas: map<string, Fields>, patch: Fields) {
    forall keys: seq<string> | ConstrainedAt(schemas, patch, keys) ::
      && Compiles(voc, schemas[Dotted("", keys)])
      && Accepts(voc, schemas[Dotted("", keys)], Lookup(Obj(patch), keys).value)
  }

  lemma KeyPathsMeaning(voc: Vocabulary, schemas: map<string, Fields>, patch: Fields)
    ensures KeyPathsOk(voc, schemas, patch) <==> ConstrainedAccepted(voc, schemas, patch)
  {
    if ConstrainedAccepted(voc, schemas, patch) {
      forall keys: seq<string> | keys != [] && Lookup(Obj(patch), keys).Some?
        ensures VisitOk(voc, schemas, (Dotted("", keys), Lookup(Obj(patch), keys).value))
      {
        if Dotted("", keys) in schemas {
          assert ConstrainedAt(schemas, patch, keys);
        }
      }
    }
    if KeyPathsOk(voc, schemas, patch) {
      forall keys: seq<string> | ConstrainedAt(schemas, patch, keys)
        ensures Compiles(voc, schemas[Dotted("", keys)])
        ensures Accepts(voc, schemas[Dotted("", keys)], Lookup(Obj(patch), keys).value)
      {
        assert VisitOk(voc, schemas, (Dotted("", keys), Lookup(Obj(patch), keys).value));
      }
    }
  }

  lemma ApartExactly(schemas: map<string, Fields>, patch: Fields)
    ensures DistinctResources(schemas, Visits("", patch)) <==> PathsApart(schemas, patch)
  {
    if DistinctResources(schemas, Visits("", patch)) {
      forall a: seq<string>, b: seq<string> | ConstrainedAt(schemas, patch, a) && ConstrainedAt(schemas, patch, b)
        ensures Dotted("", a) == Dotted("", b) || !AlikeUpToDots(Dotted("", a), Dotted("", b))
      {
        LookupsAreVisits("", patch, a);
        LookupsAreVisits("", patch, b);
        var x, y := (Dotted("", a), Lookup(Obj(patch), a).value), (Dotted("", b), Lookup(Obj(patch), b).value);
        assert x in Visits("", patch) && y in Visits("", patch);
        SameResourceExactly(x.0, y.0);
      }
    }
    if PathsApart(schemas, patch) {
      forall x, y | x in Visits("", patch) && y in Visits("", patch) && x.0 in schemas && y.0 in schemas && x.0 != y.0
        ensures ResourceUri(x.0) != ResourceUri(y.0)
      {
        var a := VisitsAreLookups("", patch, x);
        var b := VisitsAreLookups("", patch, y);
        assert ConstrainedAt(schemas, patch, a) && ConstrainedAt(schemas, patch, b);
        SameResourceExactly(x.0, y.0);
      }
    }
  }

  /**
   Distinct paths can share a schema resource: with constraints on `a.b` and on `a_b` a patch of
   both is reported, although both values are accepted.
   */
  lemma SharedResourceIsReported(voc: Vocabulary) returns (schemas: map<string, Fields>, patch: Fields)
    ensures (forall x | x in Visits("", patch) :: VisitOk(voc, schemas, x)) && !PatchOk(voc, schemas, patch)
  {
    schemas := map["a.b" := map[], "a_b" := map[]];
    var inner: Fields := map["b" := Null];
    patch := map["a" := Obj(inner), "a_b" := Null];
    var x, y := ("a.b", Null), ("a_b", Null);
    BothVisited(patch, inner);
    SameUri();
    assert x in Visits("", patch) && y in Visits("", patch) && x.0 in schemas && y.0 in schemas;
    assert !DistinctResources(schemas, Visits("", patch));
    forall v | v in Visits("", patch)
      ensures VisitOk(voc, schemas, v)
    {
      assert v.0 in schemas ==> schemas[v.0] == map[];
    }
  }

  lemma BothVisited(patch: Fields, inner: Fields)
    requires "b" in inner && inner["b"] == Null
    requires "a" in patch && "a_b" in patch && patch["a"] == Obj(inner) && patch["a_b"] == Null
    ensures ("a.b", Null) in Visits("", patch) && ("a_b", Null) in Visits("", patch)
  {
    assert Dot("", "a") == "a" && Dot("", "a_b") == "a_b" && Dot("a", "b") == "a.b";
    assert ("a.b", Null) in VisitsBelow("a.b", Null);
    assert ("a.b", Null) in Visits("a", inner);
    assert ("a.b", Null) in VisitsBelow("a", patch["a"]);
    assert ("a_b", Null) in VisitsBelow("a_b", patch["a_b"]);
  }

  lemma SameUri()
    ensures ResourceUri("a.b") == ResourceUri("a_b") && "a.b" != "a_b"
  {
    assert "a.b"[1..] == ".b" && ".b"[1..] == "b" && "a_b"[1..] == "_b" && "_b"[1..] == "b";
    assert Underscored(".b") == "_" + Underscored("b") == Underscored("_b");
    assert "a.b"[1] != "a_b"[1];
  }

  /** The state of one ValidatePatch call: schema resources, compiled schemas, violations. */
  datatype Progress = Progress(resources: set<string>, compiled: map<string, Fields>, violations: seq<Violation>)

  const FRESH := Progress({}, map[], [])

  /** The state after looking up the schema of a constrained path, and whether there is one. */
  function Looked(voc: Vocabulary, s: Progress, path: string, schema: Fields): (Progress, bool) {
    var uri := ResourceUri(path);
    if path in s.compiled then (s, true)
    else if uri in s.resources then (s, false)
    else if !Compiles(voc, schema) then (s.(resources := s.resources + {uri}), false)
    else (s.(resources := s.resources + {uri}, compiled := s.compiled[path := schema]), true)
  }

  /** The constrained paths among the visits. */
  function Attempted(schemas: map<string, Fields>, visited: set<(string, Json)>): set<string> {
    set x | x in visited && x.0 in schemas :: x.0
  }

  predicate Blamed(violations: seq<Violation>, path: string) {
    exists i | 0 <= i < |violations| :: violations[i].fieldPath == path
  }

  /** Two distinct constrained paths among the visits share the schema resource of `path`. */
  predicate Shared(schemas: map<string, Fields>, visited: set<(string, Json)>, path: string) {
    exists y | y in visited :: y.0 in schemas && y.0 != path && ResourceUri(y.0) == ResourceUri(path)
  }

  /** Something is wrong at the path: a value there is not accepted, or its schema resource is shared. */
  predicate Caused(voc: Vocabulary, schemas: map<string, Fields>, visited: set<(string, Json)>, path: string) {
    (exists x | x in visited :: x.0 == path && !VisitOk(voc, schemas, x)) || Shared(schemas, visited, path)
  }

  /** The resources and the cache belong to the paths attempted so far, and a path is not cached only for a reason. */
  predicate CacheFits(voc: Vocabulary, schemas: map<string, Fields>, visited: set<(string, Json)>, s: Progress) {
    && s.resources == (set p | p in Attempted(schemas, visited) :: ResourceUri(p))
    && s.compiled.Keys <= Attempted(schemas, visited)
    && (forall p | p in s.compiled :: s.compiled[p] == schemas[p] && Compiles(voc, schemas[p]))
    && (forall p, q | p in s.compiled && q in s.compiled && p != q :: ResourceUri(p) != ResourceUri(q))
    && (forall p | p in Attempted(schemas, visited) && p !in s.compiled ::
          !Compiles(voc, schemas[p]) || Shared(schemas, visited, p))
  }

  /**
   Violations are on constrained paths met in the patch and name their owners; each has a cause, and
   no bad value goes unreported.
   */
  predicate BlamesRightly(voc: Vocabulary, schemas: map<string, Fields>, setBy: map<string, string>,
                          visited: set<(string, Json)>, violations: seq<Violation>) {
    && (forall v | v in violations ::
          && v.fieldPath in Attempted(schemas, visited) && Caused(voc, schemas, visited, v.fieldPath)
          && v.fieldPath in setBy && v.setByPolicy == setBy[v.fieldPath])
    && (forall x | x in visited && !VisitOk(voc, schemas, x) :: Blamed(violations, x.0))
  }

  /** What holds after each visit. */
  predicate Tells(voc: Vocabulary, schemas: map<string, Fields>, setBy: map<string, string>,
                  visited: set<(string, Json)>, s: Progress) {
    && CacheFits(voc, schemas, visited, s)
    && (forall p | p in Attempted(schemas, visited) && p !in s.compiled :: Blamed(s.violations, p))
    && BlamesRightly(voc, schemas, setBy, visited, s.violations)
  }

  /** Then there is no violation exactly when all is well. */
  lemma {:induction false} Verdict(voc: Vocabulary, schemas: map<string, Fields>, setBy: map<string, string>,
                                   visited: set<(string, Json)>, s: Progress)
    requires Tells(voc, schemas, setBy, visited, s)
    ensures s.violations == [] <==> AllOk(voc, schemas, visited)
  {
    if s.violations != [] {
      assert s.violations[0] in s.violations;
    } else {
      forall x, y | x in visited && y in visited && x.0 in schemas && y.0 in schemas && x.0 != y.0
        ensures ResourceUri(x.0) != ResourceUri(y.0)
      {
        assert x.0 in Attempted(schemas, visited) && y.0 in Attempted(schemas, visited);
        assert !Blamed(s.violations, x.0) && !Blamed(s.violations, y.0);
      }
    }
  }

  lemma AttemptedOneMore(schemas: map<string, Fields>, visited: set<(string, Json)>, x: (string, Json))
    ensures Attempted(schemas, visited + {x}) == Attempted(schemas, visited) + if x.0 in schemas then {x.0} else {}
    ensures forall p | Shared(schemas, visited, p) :: Shared(schemas, visited + {x}, p)
  {
    forall p | Shared(schemas, visited, p)
      ensures Shared(schemas, visited + {x}, p)
    {
      var y :| y in visited && y.0 in schemas && y.0 != p && ResourceUri(y.0) == ResourceUri(p);
      assert y in visited + {x};
    }
  }

  /** A resource that is already there belongs to another path met before, unless the path itself was tried. */
  lemma {:induction false} ResourceOwner(voc: Vocabulary, schemas: map<string, Fields>, visited: set<(string, Json)>,
                                         s: Progress, path: string)
    requires CacheFits(voc, schemas, visited, s) && path !in Attempted(schemas, visited)
    ensures ResourceUri(path) in s.resources <==> Shared(schemas, visited, path)
  {
    if ResourceUri(path) in s.resources {
      var p :| p in Attempted(schemas, visited) && ResourceUri(p) == ResourceUri(path);
      var y :| y in visited && y.0 in schemas && y.0 == p;
    }
    if Shared(schemas, visited, path) {
      var y :| y in visited && y.0 in schemas && y.0 != path && ResourceUri(y.0) == ResourceUri(path);
      assert y.0 in Attempted(schemas, visited);
    }
  }

  lemma {:induction false} LookedFits(voc: Vocabulary, schemas: map<string, Fields>, visited: set<(string, Json)>,
                                      s: Progress, x: (string, Json))
    requires CacheFits(voc, schemas, visited, s) && x.0 in schemas
    ensures var (after, found) := Looked(voc, s, x.0, schemas[x.0]);
      && CacheFits(voc, schemas, visited + {x}, after)
      && (found <==> x.0 in after.compiled)
      && s.compiled.Keys <= after.compiled.Keys <= s.compiled.Keys + {x.0}
  {
    if x.0 in Attempted(schemas, visited) {
      LookedAgain(voc, schemas, visited, s, x);
    } else {
      LookedFirst(voc, schemas, visited, s, x);
    }
  }

  /** A path that was looked up before: its resource is there, and the state stays as it is. */
  lemma {:induction false} LookedAgain(voc: Vocabulary, schemas: map<string, Fields>, visited: set<(string, Json)>,
                                       s: Progress, x: (string, Json))
    requires CacheFits(voc, schemas, visited, s) && x.0 in Attempted(schemas, visited)
    ensures x.0 in schemas && Looked(voc, s, x.0, schemas[x.0]) == (s, x.0 in s.compiled)
    ensures CacheFits(voc, schemas, visited + {x}, s)
  {
    AttemptedOneMore(schemas, visited, x);
    assert ResourceUri(x.0) in s.resources;
    assert Attempted(schemas, visited + {x}) == Attempted(schemas, visited);
  }

  /** A new path: its schema is added, unless it does not compile or its resource is taken. */
  lemma {:induction false} LookedFirst(voc: Vocabulary, schemas: map<string, Fields>, visited: set<(string, Json)>,
                                       s: Progress, x: (string, Json))
    requires CacheFits(voc, schemas, visited, s) && x.0 in schemas && x.0 !in Attempted(schemas, visited)
    ensures var (after, found) := Looked(voc, s, x.0, schemas[x.0]);
      && CacheFits(voc, schemas, visited + {x}, after)
      && (found <==> x.0 in after.compiled)
      && s.compiled.Keys <= after.compiled.Keys <= s.compiled.Keys + {x.0}
  {
    ResourceOwner(voc, schemas, visited, s, x.0);
    if ResourceUri(x.0) in s.resources {
      TakenFits(voc, schemas, visited, s, x);
    } else {
      FreeFits(voc, schemas, visited, s, x, Looked(voc, s, x.0, schemas[x.0]).0);
    }
  }

  lemma {:induction false} TakenFits(voc: Vocabulary, schemas: map<string, Fields>, visited: set<(string, Json)>,
                                     s: Progress, x: (string, Json))
    requires CacheFits(voc, schemas, visited, s) && x.0 in schemas && x.0 !in s.compiled
    requires Shared(schemas, visited, x.0) && ResourceUri(x.0) in s.resources
    ensures CacheFits(voc, schemas, visited + {x}, s)
  {
    AttemptedOneMore(schemas, visited, x);
    UrisOneMore(Attempted(schemas, visited), x.0);
  }

  lemma {:induction false} FreeFits(voc: Vocabulary, schemas: map<string, Fields>, visited: set<(string, Json)>,
                                    s: Progress, x: (string, Json), after: Progress)
    requires CacheFits(voc, schemas, visited, s) && x.0 in schemas && ResourceUri(x.0) !in s.resources
    requires after.resources == s.resources + {ResourceUri(x.0)}
    requires after.compiled == if Compiles(voc, schemas[x.0]) then s.compiled[x.0 := schemas[x.0]] else s.compiled
    ensures CacheFits(voc, schemas, visited + {x}, after)
  {
    AttemptedOneMore(schemas, visited, x);
    UrisOneMore(Attempted(schemas, visited), x.0);
    if Compiles(voc, schemas[x.0]) {
      forall p | p in s.compiled
        ensures ResourceUri(p) != ResourceUri(x.0)
      {
        assert ResourceUri(p) in s.resources;
      }
    }
  }

  lemma {:induction false} UrisOneMore(paths: set<string>, path: string)
    ensures (set p | p in paths + {path} :: ResourceUri(p))
         == (set p | p in paths :: ResourceUri(p)) + {ResourceUri(path)}
  {
  }

  /** The state after one member of the patch. */
  function Visited(voc: Vocabulary, schemas: map<string, Fields>, setBy: map<string, string>, s: Progress,
                   x: (string, Json)): Progress
    requires schemas.Keys == setBy.Keys
  {
    if x.0 !in schemas then s
    else
      var (after, found) := Looked(voc, s, x.0, schemas[x.0]);
      if found && Accepts(voc, schemas[x.0], x.1) then after
      else after.(violations := after.violations + [Violation(x.0, setBy[x.0])])
  }

  lemma {:induction false} VisitTells(voc: Vocabulary, schemas: map<string, Fields>, setBy: map<string, string>,
                                      visited: set<(string, Json)>, s: Progress, x: (string, Json))
    requires schemas.Keys == setBy.Keys && Tells(voc, schemas, setBy, visited, s)
    ensures Tells(voc, schemas, setBy, visited + {x}, Visited(voc, schemas, setBy, s, x))
  {
    if x.0 in schemas {
      LookedFits(voc, schemas, visited, s, x);
      var (after, found) := Looked(voc, s, x.0, schemas[x.0]);
      if found && Accepts(voc, schemas[x.0], x.1) {
        AcceptedTells(voc, schemas, setBy, visited, s, after, x);
      } else {
        RejectedTells(voc, schemas, setBy, visited, s, after, x);
      }
    } else {
      AcceptedTells(voc, schemas, setBy, visited, s, s, x);
    }
  }

  /** A visit that adds no violation. */
  lemma {:induction false} AcceptedTells(voc: Vocabulary, schemas: map<string, Fields>, setBy: map<string, string>,
                                         visited: set<(string, Json)>, s: Progress, after: Progress, x: (string, Json))
    requires Tells(voc, schemas, setBy, visited, s)
    requires after.violations == s.violations && s.compiled.Keys <= after.compiled.Keys
    requires if x.0 in schemas
      then CacheFits(voc, schemas, visited + {x}, after) && x.0 in after.compiled && Accepts(voc, schemas[x.0], x.1)
      else after == s
    ensures Tells(voc, schemas, setBy, visited + {x}, after)
  {
    AttemptedOneMore(schemas, visited, x);
    OldBlame(voc, schemas, setBy, visited, s.violations, x);
  }

  /** A visit that adds a violation. */
  lemma {:induction false} RejectedTells(voc: Vocabulary, schemas: map<string, Fields>, setBy: map<string, string>,
                                         visited: set<(string, Json)>, s: Progress, after: Progress, x: (string, Json))
    requires schemas.Keys == setBy.Keys && x.0 in schemas && Tells(voc, schemas, setBy, visited, s)
    requires after.violations == s.violations && s.compiled.Keys <= after.compiled.Keys
    requires CacheFits(voc, schemas, visited + {x}, after)
    requires x.0 !in after.compiled || !Accepts(voc, schemas[x.0], x.1)
    ensures Tells(voc, schemas, setBy, visited + {x},
                  after.(violations := after.violations + [Violation(x.0, setBy[x.0])]))
  {
    AttemptedOneMore(schemas, visited, x);
    NewBlame(voc, schemas, setBy, visited, s.violations, after, x);
  }

  /** The violation that is added has a cause and leaves nothing unreported. */
  lemma {:induction false} NewBlame(voc: Vocabulary, schemas: map<string, Fields>, setBy: map<string, string>,
                                    visited: set<(string, Json)>, violations: seq<Violation>, after: Progress,
                                    x: (string, Json))
    requires schemas.Keys == setBy.Keys && x.0 in schemas && BlamesRightly(voc, schemas, setBy, visited, violations)
    requires CacheFits(voc, schemas, visited + {x}, after)
    requires x.0 !in after.compiled || !Accepts(voc, schemas[x.0], x.1)
    ensures var more := violations + [Violation(x.0, setBy[x.0])];
      && BlamesRightly(voc, schemas, setBy, visited + {x}, more)
      && Blamed(more, x.0) && forall p | Blamed(violations, p) :: Blamed(more, p)
  {
    AttemptedOneMore(schemas, visited, x);
    OldBlame(voc, schemas, setBy, visited, violations, x);
    BlameGrows(violations, Violation(x.0, setBy[x.0]));
    assert x in visited + {x};
    assert Caused(voc, schemas, visited + {x}, x.0);
  }

  /** What was blamed before stays blamed rightly. */
  lemma {:induction false} OldBlame(voc: Vocabulary, schemas: map<string, Fields>, setBy: map<string, string>,
                                    visited: set<(string, Json)>, violations: seq<Violation>, x: (string, Json))
    requires BlamesRightly(voc, schemas, setBy, visited, violations)
    ensures forall v | v in violations ::
      && v.fieldPath in Attempted(schemas, visited + {x}) && Caused(voc, schemas, visited + {x}, v.fieldPath)
      && v.fieldPath in setBy && v.setByPolicy == setBy[v.fieldPath]
  {
    AttemptedOneMore(schemas, visited, x);
    forall v | v in violations
      ensures Caused(voc, schemas, visited + {x}, v.fieldPath)
    {
      if !Shared(schemas, visited, v.fieldPath) {
        var y :| y in visited && y.0 == v.fieldPath && !VisitOk(voc, schemas, y);
        assert y in visited + {x};
      }
    }
  }

  lemma BlameGrows(violations: seq<Violation>, v: Violation)
    ensures Blamed(violations + [v], v.fieldPath)
    ensures forall p | Blamed(violations, p) :: Blamed(violations + [v], p)
  {
    assert (violations + [v])[|violations|] == v;
    forall p | Blamed(violations, p)
      ensures Blamed(violations + [v], p)
    {
      var i :| 0 <= i < |violations| && violations[i].fieldPath == p;
      assert (violations + [v])[i] == violations[i];
    }
  }

  /** The shared state of one ValidatePatch call. */
  class Validation {
    var resources: set<string>
    var compiled: map<string, Fields>
    var violations: seq<Violation>

    constructor ()
      ensures Value() == FRESH
    {
      resources, compiled, violations := {}, map[], [];
    }

    function Value(): Progress
      reads this
    {
      Progress(resources, compiled, violations)
    }

    /** The compiled schema of a field path, from the cache or compiled now. */
    method GetOrCompileSchema(voc: Vocabulary, fieldPath: string, schema: Fields) returns (r: Option<Fields>)
      modifies this
      ensures Value() == Looked(voc, old(Value()), fieldPath, schema).0
      ensures r.Some? <==> Looked(voc, old(Value()), fieldPath, schema).1
      ensures r.Some? ==> fieldPath in compiled && r.value == compiled[fieldPath]
    {
      if fieldPath in compiled {
        return Some(compiled[fieldPath]);
      }
      var uri := ResourceUri(fieldPath);
      if uri in resources {
        return None;
      }
      resources := resources + {uri};
      if !Compiles(voc, schema) {
        return None;
      }
      compiled := compiled[fieldPath := schema];
      return Some(schema);
    }

    /** The check of one member against the constraint on its path, if there is one. */
    method CheckMember(voc: Vocabulary, schemas: map<string, Fields>, setBy: map<string, string>, fieldPath: string,
                       value: Json)
      requires schemas.Keys == setBy.Keys
      requires CacheHolds(schemas, Value())
      modifies this
      ensures Value() == Visited(voc, schemas, setBy, old(Value()), (fieldPath, value))
      ensures CacheHolds(schemas, Value())
    {
      if fieldPath in schemas {
        var schema := GetOrCompileSchema(voc, fieldPath, schemas[fieldPath]);
        if schema.None? || !Accepts(voc, schema.value, value) {
          violations := violations + [Violation(fieldPath, setBy[fieldPath])];
        }
      }
    }

    /** One member and, when it is an object, everything inside it. */
    method ValidateMember(voc: Vocabulary, schemas: map<string, Fields>, setBy: map<string, string>, fieldPath: string,
                          value: Json)
      returns (ghost trace: seq<(string, Json)>)
      requires schemas.Keys == setBy.Keys
      requires CacheHolds(schemas, Value())
      modifies this
      ensures SetOf(trace) == VisitsBelow(fieldPath, value)
      ensures Value() == VisitedAll(voc, schemas, setBy, old(Value()), trace)
      ensures CacheHolds(schemas, Value())
      decreases value, 1
    {
      CheckMember(voc, schemas, setBy, fieldPath, value);
      trace := [(fieldPath, value)];
      VisitedAllOne(voc, schemas, setBy, old(Value()), [], (fieldPath, value));
      assert [] + trace == trace;
      if value.Obj? {
        ghost var nested := ValidatePatchRecursive(voc, schemas, setBy, fieldPath, value.fields);
        VisitedAllConcat(voc, schemas, setBy, old(Value()), trace, nested);
        SetOfConcat(trace, nested);
        trace := trace + nested;
      }
    }

    /**
     The recursion over the members of a patch, in whatever order the map yields them; `trace` is
     that order.
     */
    method ValidatePatchRecursive(voc: Vocabulary, schemas: map<string, Fields>, setBy: map<string, string>,
                                  prefix: string, patch: Fields) returns (ghost trace: seq<(string, Json)>)
      requires schemas.Keys == setBy.Keys
      requires CacheHolds(schemas, Value())
      modifies this
      ensures SetOf(trace) == Visits(prefix, patch)
      ensures Value() == VisitedAll(voc, schemas, setBy, old(Value()), trace)
      ensures CacheHolds(schemas, Value())
      decreases Obj(patch), 0
    {
      ghost var start := Value();
      var todo := patch.Keys;
      ghost var done: set<string> := {};
      trace := [];
      while todo != {}
        invariant todo <= patch.Keys && done == patch.Keys - todo
        invariant SetOf(trace) == VisitsAt(prefix, patch, done)
        invariant Value() == VisitedAll(voc, schemas, setBy, start, trace)
        invariant CacheHolds(schemas, Value())
        decreases todo
      {
        var key :| key in todo;
        todo := todo - {key};
        ghost var more := ValidateMember(voc, schemas, setBy, Dot(prefix, key), patch[key]);
        VisitedAllConcat(voc, schemas, setBy, start, trace, more);
        VisitedMembers(prefix, patch, done, key, trace, more);
        done := done + {key};
        trace := trace + more;
      }
      assert done == patch.Keys;
    }
  }

  function SetOf(trace: seq<(string, Json)>): set<(string, Json)> {
    set x | x in trace
  }

  predicate CacheHolds(schemas: map<string, Fields>, s: Progress) {
    forall p | p in s.compiled && p in schemas :: s.compiled[p] == schemas[p]
  }

  function VisitedAll(voc: Vocabulary, schemas: map<string, Fields>, setBy: map<string, string>,
                      s: Progress, trace: seq<(string, Json)>): Progress
    requires schemas.Keys == setBy.Keys
  {
    if trace == [] then s
    else Visited(voc, schemas, setBy, VisitedAll(voc, schemas, setBy, s, trace[..|trace| - 1]), trace[|trace| - 1])
  }

  lemma VisitedAllOne(voc: Vocabulary, schemas: map<string, Fields>, setBy: map<string, string>,
                      s: Progress, trace: seq<(string, Json)>, x: (string, Json))
    requires schemas.Keys == setBy.Keys
    ensures VisitedAll(voc, schemas, setBy, s, trace + [x])
         == Visited(voc, schemas, setBy, VisitedAll(voc, schemas, setBy, s, trace), x)
  {
    assert (trace + [x])[..|trace|] == trace;
  }

  lemma {:induction false} VisitedAllConcat(voc: Vocabulary, schemas: map<string, Fields>, setBy: map<string, string>,
                                            s: Progress, a: seq<(string, Json)>, b: seq<(string, Json)>)
    requires schemas.Keys == setBy.Keys
    ensures VisitedAll(voc, schemas, setBy, s, a + b)
         == VisitedAll(voc, schemas, setBy, VisitedAll(voc, schemas, setBy, s, a), b)
  {
    if b == [] {
      assert a + b == a;
    } else {
      var init, x := b[..|b| - 1], b[|b| - 1];
      assert a + b == (a + init) + [x];
      VisitedAllConcat(voc, schemas, setBy, s, a, init);
      VisitedAllOne(voc, schemas, setBy, s, a + init, x);
    }
  }

  lemma {:induction false} VisitedMembers(prefix: string, patch: Fields, done: set<string>, key: string,
                                          trace: seq<(string, Json)>, more: seq<(string, Json)>)
    requires done <= patch.Keys && key in patch
    requires SetOf(trace) == VisitsAt(prefix, patch, done)
    requires SetOf(more) == VisitsBelow(Dot(prefix, key), patch[key])
    ensures SetOf(trace + more) == VisitsAt(prefix, patch, done + {key})
  {
    SetOfConcat(trace, more);
    VisitsOneMore(prefix, patch, done, key);
  }

  lemma SetOfConcat(a: seq<(string, Json)>, b: seq<(string, Json)>)
    ensures SetOf(a + b) == SetOf(a) + SetOf(b)
  {
  }

  lemma {:induction false} TraceTells(voc: Vocabulary, schemas: map<string, Fields>, setBy: map<string, string>,
                                      trace: seq<(string, Json)>)
    requires schemas.Keys == setBy.Keys
    ensures Tells(voc, schemas, setBy, SetOf(trace), VisitedAll(voc, schemas, setBy, FRESH, trace))
  {
    if trace == [] {
      assert Attempted(schemas, {}) == {};
    } else {
      var init, x := trace[..|trace| - 1], trace[|trace| - 1];
      TraceTells(voc, schemas, setBy, init);
      VisitTells(voc, schemas, setBy, SetOf(init), VisitedAll(voc, schemas, setBy, FRESH, init), x);
      assert trace == init + [x];
      assert SetOf(trace) == SetOf(init) + {x};
    }
  }

  /** The verdict after all visits, in any order. */
  lemma {:induction false} TraceVerdict(voc: Vocabulary, schemas: map<string, Fields>, setBy: map<string, string>,
                                        trace: seq<(string, Json)>)
    requires schemas.Keys == setBy.Keys
    ensures var violations := VisitedAll(voc, schemas, setBy, FRESH, trace).violations;
      && BlamesRightly(voc, schemas, setBy, SetOf(trace), violations)
      && (violations == [] <==> AllOk(voc, schemas, SetOf(trace)))
  {
    TraceTells(voc, schemas, setBy, trace);
    Verdict(voc, schemas, setBy, SetOf(trace), VisitedAll(voc, schemas, setBy, FRESH, trace));
  }
}
