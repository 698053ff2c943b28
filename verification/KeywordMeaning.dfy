/**
 What a merged schema accepts, compared with the two schemas it was merged from, and which
 merges depend on the order in which Go visits the keywords.
 */
module KeywordMeaning {
  import opened Wrappers
  import opened JsonValues
  import opened SchemaSemantics
  import opened Keywords

  // ----- Meaning of a merge

  /**
   Keywords of `existing` whose argument the merge throws away: keywords without a case of their
   own, when the arguments differ, and an unreadable `allOf` that makes room for two patterns.
   */
  function Overridden(existing: Fields, added: Fields): set<string> {
    set k | k in existing &&
      ((k in added && !IsHandled(k) && existing[k] != added[k]) ||
       (k == "allOf" && PatternsDiffer(existing, added) && !existing[k].Arr?))
  }

  /** Keywords of `added` that the merge skips, because it cannot read their argument. */
  function Ignored(existing: Fields, added: Fields): set<string> {
    set k | k in added && k in existing && !Readable(k, added[k])
  }

  /**
   For all schemas that merge: the result accepts exactly what both accept, apart from the
   keywords that were overridden or ignored.
   */
  lemma MergeMeaning(voc: Vocabulary, existing: Fields, added: Fields, v: Json)
    requires !Conflicts(existing, added) && !Clash(existing, added)
    ensures Accepts(voc, Merged(existing, added), v)
       <==> && Accepts(voc, existing - Overridden(existing, added), v)
            && Accepts(voc, added - Ignored(existing, added), v)
  {
    if Accepts(voc, Merged(existing, added), v) {
      MergedAcceptsOld(voc, existing, added, v);
      MergedAcceptsNew(voc, existing, added, v);
    }
    if Accepts(voc, existing - Overridden(existing, added), v) && Accepts(voc, added - Ignored(existing, added), v) {
      MergedAcceptsBoth(voc, existing, added, v);
    }
  }

  lemma {:induction false} MergedAcceptsOld(voc: Vocabulary, existing: Fields, added: Fields, v: Json)
    requires !Conflicts(existing, added) && !Clash(existing, added)
    requires Accepts(voc, Merged(existing, added), v)
    ensures Accepts(voc, existing - Overridden(existing, added), v)
  {
    var m, e := Merged(existing, added), existing - Overridden(existing, added);
    forall k | k in e
      ensures KeywordAccepts(voc, k, e[k], v)
    {
      KeywordMeaning(voc, existing, added, k, v);
      assert KeywordAccepts(voc, k, m[k], v);
    }
  }

  lemma {:induction false} MergedAcceptsNew(voc: Vocabulary, existing: Fields, added: Fields, v: Json)
    requires !Conflicts(existing, added) && !Clash(existing, added)
    requires Accepts(voc, Merged(existing, added), v)
    ensures Accepts(voc, added - Ignored(existing, added), v)
  {
    var m, n := Merged(existing, added), added - Ignored(existing, added);
    forall k | k in n
      ensures KeywordAccepts(voc, k, n[k], v)
    {
      KeywordMeaning(voc, existing, added, k, v);
      assert KeywordAccepts(voc, k, m[k], v);
      if k == "pattern" && PatternsDiffer(existing, added) {
        assert KeywordAccepts(voc, "allOf", m["allOf"], v);
        AllOfMeaning(voc, existing, added, v);
      }
    }
  }

  lemma {:induction false} MergedAcceptsBoth(voc: Vocabulary, existing: Fields, added: Fields, v: Json)
    requires !Conflicts(existing, added) && !Clash(existing, added)
    requires Accepts(voc, existing - Overridden(existing, added), v)
    requires Accepts(voc, added - Ignored(existing, added), v)
    ensures Accepts(voc, Merged(existing, added), v)
  {
    var m := Merged(existing, added);
    var e := existing - Overridden(existing, added);
    var n := added - Ignored(existing, added);
    forall k | k in m
      ensures KeywordAccepts(voc, k, m[k], v)
    {
      assert k in e ==> KeywordAccepts(voc, k, e[k], v);
      assert k in n ==> KeywordAccepts(voc, k, n[k], v);
      if k == "allOf" && PatternsDiffer(existing, added) {
        assert KeywordAccepts(voc, "pattern", e["pattern"], v);
        assert KeywordAccepts(voc, "pattern", n["pattern"], v);
        AllOfMeaning(voc, existing, added, v);
      } else {
        KeywordMeaning(voc, existing, added, k, v);
      }
    }
  }

  /** One key of the merged schema, in terms of the keys it came from. */
  lemma KeywordMeaning(voc: Vocabulary, existing: Fields, added: Fields, k: string, v: Json)
    requires !Conflicts(existing, added) && !Clash(existing, added)
    requires k in existing || k in added
    ensures k in Merged(existing, added)
    ensures var m := Merged(existing, added)[k];
      var over, skip := k in Overridden(existing, added), k in Ignored(existing, added);
      var fromOld := k in existing && !over ==> KeywordAccepts(voc, k, existing[k], v);
      var fromNew := k in added && !skip ==> KeywordAccepts(voc, k, added[k], v);
      var differ := PatternsDiffer(existing, added);
      && (KeywordAccepts(voc, k, m, v) ==> fromOld && ((k == "pattern" && differ) || fromNew))
      && (fromOld && fromNew && !(k == "allOf" && differ) ==> KeywordAccepts(voc, k, m, v))
  {
    if k == "allOf" && PatternsDiffer(existing, added) {
      AllOfMeaning(voc, existing, added, v);
    } else if k in existing && k in added {
      assert !ConflictAt(k, existing[k], added[k]);
      ArgumentMeaning(voc, k, existing[k], added[k], v);
    }
  }

  /** The argument of a shared keyword after the merge. */
  lemma ArgumentMeaning(voc: Vocabulary, k: string, oldArg: Json, newArg: Json, v: Json)
    requires !ConflictAt(k, oldArg, newArg)
    ensures var kept := IsHandled(k) || newArg == oldArg;
      var differ := k == "pattern" && oldArg.Str? && newArg.Str? && oldArg != newArg;
      var fromOld := kept ==> KeywordAccepts(voc, k, oldArg, v);
      var fromNew := Readable(k, newArg) ==> KeywordAccepts(voc, k, newArg, v);
      var merged := KeywordAccepts(voc, k, MergedArgument(k, oldArg, newArg), v);
      && (merged ==> fromOld && (differ || fromNew))
      && (fromOld && fromNew ==> merged)
  {
    if k == "multipleOf" {
      MultipleMeaning(voc, oldArg, newArg, v);
    }
  }

  /** The `allOf` that chains patterns. */
  lemma AllOfMeaning(voc: Vocabulary, existing: Fields, added: Fields, v: Json)
    requires PatternsDiffer(existing, added)
    ensures KeywordAccepts(voc, "allOf", ExtendedAllOf(existing, added["pattern"]), v)
       <==> && KeywordAccepts(voc, "pattern", added["pattern"], v)
            && (if "allOf" in existing && existing["allOf"].Arr?
                then KeywordAccepts(voc, "allOf", existing["allOf"], v)
                else KeywordAccepts(voc, "pattern", existing["pattern"], v))
  {
    var items := ExtendedAllOf(existing, added["pattern"]).items;
    PatternOnlyMeaning(voc, existing["pattern"], v);
    PatternOnlyMeaning(voc, added["pattern"], v);
    var last := |items| - 1;
    assert items[last] == PatternOnly(added["pattern"]);
    if "allOf" in existing && existing["allOf"].Arr? {
      assert items[..last] == existing["allOf"].items;
      assert forall i | 0 <= i < last :: items[i] == existing["allOf"].items[i];
    } else {
      assert items[0] == PatternOnly(existing["pattern"]);
    }
  }

  lemma PatternOnlyMeaning(voc: Vocabulary, pattern: Json, v: Json)
    ensures SubschemaAccepts(voc, PatternOnly(pattern), v) <==> KeywordAccepts(voc, "pattern", pattern, v)
  {
    var schema := map["pattern" := pattern];
    assert PatternOnly(pattern).fields == schema;
    assert Accepts(voc, schema, v) <==> forall k | k in schema :: KeywordAccepts(voc, k, schema[k], v);
    assert "pattern" in schema;
  }

  /** A multiple of a multiple is a multiple. */
  lemma MultipleMeaning(voc: Vocabulary, oldArg: Json, newArg: Json, v: Json)
    requires !ConflictAt("multipleOf", oldArg, newArg)
    ensures var m := MergedArgument("multipleOf", oldArg, newArg);
      KeywordAccepts(voc, "multipleOf", m, v)
      <==> && KeywordAccepts(voc, "multipleOf", oldArg, v)
           && (Readable("multipleOf", newArg) ==> KeywordAccepts(voc, "multipleOf", newArg, v))
  {
    if oldArg.Num? && newArg.Num? && oldArg.n != 0.0 && newArg.n != 0.0 && v.Num? && IsMultiple(v.n, newArg.n) {
      MultipleTransitive(v.n, newArg.n, oldArg.n);
    }
  }

  lemma MultipleTransitive(x: real, y: real, z: real)
    requires y != 0.0 && z != 0.0
    requires IsMultiple(x, y) && IsMultiple(y, z)
    ensures IsMultiple(x, z)
  {
    var i, j := (x / y).Floor, (y / z).Floor;
    var product := (i as real) * (j as real);
    IntegerProduct(i, j);
    assert IsInteger(product);
    Quotient(x, y, z, i as real, j as real);
    assert x / z == product;
  }

  lemma Quotient(x: real, y: real, z: real, a: real, b: real)
    requires y != 0.0 && z != 0.0 && x / y == a && y / z == b
    ensures x / z == a * b
  {
    assert x == a * y && y == b * z;
    assert x == (a * b) * z;
  }

  lemma IntegerProduct(i: int, j: int)
    ensures IsInteger((i as real) * (j as real))
  {
    assert (i as real) * (j as real) == (i * j) as real;
  }

  // ----- Tightening

  /** A merge that overrides nothing never accepts more than before. */
  lemma Tightens(voc: Vocabulary, existing: Fields, added: Fields, v: Json)
    requires !Conflicts(existing, added) && !Clash(existing, added)
    requires Overridden(existing, added) == {}
    requires Accepts(voc, Merged(existing, added), v)
    ensures Accepts(voc, existing, v)
  {
    MergeMeaning(voc, existing, added, v);
    assert existing - {} == existing;
  }

  /** Whatever the vocabulary, the merged schema accepts nothing that the existing one rejects. */
  ghost predicate AlwaysTightens(existing: Fields, merged: Fields) {
    forall voc: Vocabulary, v :: Accepts(voc, merged, v) ==> Accepts(voc, existing, v)
  }

  ghost predicate Satisfiable(schema: Fields) {
    exists voc: Vocabulary, v :: Accepts(voc, schema, v)
  }

  /** `allOf` is not there, or holds the patterns that merges have chained. */
  predicate OnlyChains(schema: Fields) {
    "allOf" in schema && schema["allOf"].Arr? ==>
      forall x | x in schema["allOf"].items :: x.Obj? && x.fields.Keys == {"pattern"}
  }

  /**
   When a merge tightens. Unless a policy wrote `allOf` itself, a merge that accepts something at all
   never loosens, in any vocabulary, if and only if it overrides no keyword.
   */
  lemma TightensExactly(existing: Fields, added: Fields)
    requires !Conflicts(existing, added) && OnlyChains(existing) && "allOf" !in added
    ensures AlwaysTightens(existing, Merged(existing, added))
       <==> Overridden(existing, added) == {} || !Satisfiable(Merged(existing, added))
  {
    var merged := Merged(existing, added);
    if Overridden(existing, added) == {} {
      forall voc: Vocabulary, v | Accepts(voc, merged, v)
        ensures Accepts(voc, existing, v)
      {
        Tightens(voc, existing, added, v);
      }
    } else if Satisfiable(merged) {
      var voc: Vocabulary, v :| Accepts(voc, merged, v);
      var k :| k in Overridden(existing, added);
      var stricter := Loosens(voc, existing, added, k, v);
      assert Accepts(stricter, merged, v) && !Accepts(stricter, existing, v);
    }
  }

  /** An overridden keyword loosens in some vocabulary: one in which its old argument accepts nothing. */
  lemma {:induction false} Loosens(voc: Vocabulary, existing: Fields, added: Fields, k: string, v: Json)
    returns (stricter: Vocabulary)
    requires OnlyChains(existing) && "allOf" !in added
    requires k in Overridden(existing, added) && Accepts(voc, Merged(existing, added), v)
    ensures Accepts(stricter, Merged(existing, added), v) && !Accepts(stricter, existing, v)
  {
    var merged := Merged(existing, added);
    stricter := Without(voc, k, existing[k]);
    assert !KeywordAccepts(stricter, k, existing[k], v);
    MergedOnlyChains(existing, added);
    forall x | x in merged
      ensures KeywordAccepts(stricter, x, merged[x], v)
    {
      assert KeywordAccepts(voc, x, merged[x], v);
      if x == "allOf" {
        PatternsWithout(voc, k, existing[k], merged[x], v);
      }
    }
  }

  /** The vocabulary in which one keyword, with one argument, accepts nothing. */
  function Without(voc: Vocabulary, k: string, arg: Json): Vocabulary {
    voc.(otherAccepts := (keyword, a, v) => !(keyword == k && a == arg) && voc.otherAccepts(keyword, a, v))
  }

  lemma {:induction false} PatternsWithout(voc: Vocabulary, k: string, arg: Json, chain: Json, v: Json)
    requires OnlyChains(map["allOf" := chain]) && KeywordAccepts(voc, "allOf", chain, v)
    ensures KeywordAccepts(Without(voc, k, arg), "allOf", chain, v)
  {
    forall i | 0 <= i < |chain.items|
      ensures SubschemaAccepts(Without(voc, k, arg), chain.items[i], v)
    {
      var schema := map["allOf" := chain];
      var x := chain.items[i];
      assert x in schema["allOf"].items;
      var pattern := x.fields["pattern"];
      assert x.fields == map["pattern" := pattern];
      assert x == PatternOnly(pattern);
      PatternOnlyMeaning(voc, pattern, v);
      PatternOnlyMeaning(Without(voc, k, arg), pattern, v);
    }
  }

  /** Merging keeps `allOf` a chain of patterns. */
  lemma {:induction false} MergedOnlyChains(existing: Fields, added: Fields)
    requires OnlyChains(existing) && "allOf" !in added
    ensures OnlyChains(Merged(existing, added))
  {
    if PatternsDiffer(existing, added) {
      var items := ExtendedAllOf(existing, added["pattern"]).items;
      forall x | x in items
        ensures x.Obj? && x.fields.Keys == {"pattern"}
      {
        if x != PatternOnly(added["pattern"]) && "allOf" in existing && existing["allOf"].Arr? {
          assert x in existing["allOf"].items;
        }
      }
    }
  }

  /** What a merge accepts satisfies the added schema if and only if the merge ignored none of its keywords. */
  lemma Binds(voc: Vocabulary, existing: Fields, added: Fields, v: Json)
    requires !Conflicts(existing, added) && !Clash(existing, added)
    requires Accepts(voc, Merged(existing, added), v)
    ensures Accepts(voc, added, v) <==> Ignored(existing, added) == {}
  {
    MergeMeaning(voc, existing, added, v);
    assert added - {} == added;
    if k :| k in Ignored(existing, added) {
      assert !KeywordAccepts(voc, k, added[k], v);
    }
  }

  /** Only keywords the merge handles, each with an argument it can read. */
  predicate WellTyped(schema: Fields) {
    forall k | k in schema :: IsHandled(k) && Readable(k, schema[k])
  }

  /** Schemas that accumulate from well-typed ones: patterns may have been chained in `allOf`. */
  predicate AccumulatedSchema(schema: Fields) {
    forall k | k in schema :: if k == "allOf" then schema[k].Arr? else IsHandled(k) && Readable(k, schema[k])
  }

  /** Over well-typed schemas the merge is intersection, and stays in the same class of schemas. */
  lemma MergeIsIntersection(voc: Vocabulary, existing: Fields, added: Fields, v: Json)
    requires AccumulatedSchema(existing) && WellTyped(added)
    requires !Conflicts(existing, added)
    ensures !Clash(existing, added)
    ensures Overridden(existing, added) == {} && Ignored(existing, added) == {}
    ensures AccumulatedSchema(Merged(existing, added))
    ensures Accepts(voc, Merged(existing, added), v) <==> Accepts(voc, existing, v) && Accepts(voc, added, v)
  {
    WellTypedMerge(existing, added);
    assert existing - {} == existing && added - {} == added;
    MergeMeaning(voc, existing, added, v);
  }

  lemma WellTypedMerge(existing: Fields, added: Fields)
    requires AccumulatedSchema(existing) && WellTyped(added)
    ensures !Clash(existing, added)
    ensures Overridden(existing, added) == {} && Ignored(existing, added) == {}
    ensures AccumulatedSchema(Merged(existing, added))
  {
    WellTypedLosesNothing(existing, added);
    var m := Merged(existing, added);
    forall k | k in m
      ensures if k == "allOf" then m[k].Arr? else IsHandled(k) && Readable(k, m[k])
    {
      if k != "allOf" && k in existing && k in added {
        ReadableMerge(k, existing[k], added[k]);
      }
    }
  }

  lemma WellTypedLosesNothing(existing: Fields, added: Fields)
    requires AccumulatedSchema(existing) && WellTyped(added)
    ensures !Clash(existing, added)
    ensures Overridden(existing, added) == {} && Ignored(existing, added) == {}
  {
  }

  lemma ReadableMerge(k: string, oldArg: Json, newArg: Json)
    requires IsHandled(k) && Readable(k, oldArg) && Readable(k, newArg)
    ensures Readable(k, MergedArgument(k, oldArg, newArg))
  {
  }

  /** The fixed value of `const` survives every merge, in every order. */
  lemma {:induction false} ConstInOrder(existing: Fields, added: Fields, order: seq<string>)
    requires forall k | k in order :: k in added
    requires "const" in existing && MergeInOrder(existing, added, order).Some?
    ensures var m := MergeInOrder(existing, added, order).value;
      "const" in m && m["const"] == existing["const"]
  {
    if order != [] {
      ConstInOrder(existing, added, order[..|order| - 1]);
    }
  }

  lemma ConstSurvives(existing: Fields, added: Fields, merged: Fields)
    requires "const" in existing && MergesTo(existing, added, merged)
    ensures "const" in merged && merged["const"] == existing["const"]
  {
    var order: seq<string> :| IsOrderOf(order, added.Keys) && MergeInOrder(existing, added, order) == Some(merged);
    assert forall x :: x in order <==> x in Elements(order);
    ConstInOrder(existing, added, order);
  }

  /** A fixed value that is added arrives, in every order. */
  lemma {:induction false} ConstInOrderArrives(existing: Fields, added: Fields, order: seq<string>)
    requires forall k | k in order :: k in added
    requires "const" in order && MergeInOrder(existing, added, order).Some?
    ensures var m := MergeInOrder(existing, added, order).value;
      "const" in m && m["const"] == added["const"]
  {
    var init, last := order[..|order| - 1], order[|order| - 1];
    assert order == init + [last];
    if last != "const" {
      ConstInOrderArrives(existing, added, init);
    }
  }

  lemma ConstArrives(existing: Fields, added: Fields, merged: Fields)
    requires "const" in added && MergesTo(existing, added, merged)
    ensures "const" in merged && merged["const"] == added["const"]
  {
    var order: seq<string> :| IsOrderOf(order, added.Keys) && MergeInOrder(existing, added, order) == Some(merged);
    assert forall x :: x in order <==> x in Elements(order);
    ConstInOrderArrives(existing, added, order);
  }

  /** Without a clash there is one result only. */
  lemma MergesToUnique(existing: Fields, added: Fields, merged: Fields)
    requires !Clash(existing, added)
    ensures MergesTo(existing, added, merged) <==> !Conflicts(existing, added) && merged == Merged(existing, added)
  {
    if MergesTo(existing, added, merged) {
      var order: seq<string> :| IsOrderOf(order, added.Keys) && MergeInOrder(existing, added, order) == Some(merged);
      OrderIrrelevant(existing, added, order);
    }
    var order := SomeOrder(added.Keys);
    OrderIrrelevant(existing, added, order);
  }

  lemma {:induction false} SomeOrder(keys: set<string>) returns (order: seq<string>)
    ensures IsOrderOf(order, keys)
  {
    if keys == {} {
      order := [];
    } else {
      var k :| k in keys;
      var rest := SomeOrder(keys - {k});
      order := rest + [k];
      assert Elements(order) == Elements(rest) + {k};
      assert forall i | 0 <= i < |rest| :: rest[i] in Elements(rest);
    }
  }

  // ----- The documented keywords

  /** The keywords the documentation lists, and which way each bound may move. */
  predicate MayOnlyIncrease(k: string) {
    k in ["minimum", "exclusiveMinimum", "minLength", "minItems", "minProperties"]
  }

  predicate MayOnlyDecrease(k: string) {
    k in ["maximum", "exclusiveMaximum", "maxLength", "maxItems", "maxProperties"]
  }

  /** A bound is refused exactly when it moves the wrong way; otherwise the new one counts. */
  lemma BoundsTable(k: string, was: real, next: real)
    requires MayOnlyIncrease(k) || MayOnlyDecrease(k)
    ensures IsHandled(k)
    ensures ConflictAt(k, Num(was), Num(next)) <==> if MayOnlyIncrease(k) then next < was else next > was
    ensures !ConflictAt(k, Num(was), Num(next)) ==> MergedArgument(k, Num(was), Num(next)) == Num(next)
  {
  }

  /** The items that are among the others, from the front. */
  function Common(items: seq<Json>, others: seq<Json>): seq<Json> {
    if items == [] then [] else (if items[0] in others then [items[0]] else []) + Common(items[1..], others)
  }

  lemma {:induction false} IntersectIsCommon(a: seq<Json>, b: seq<Json>)
    ensures Intersect(a, b) == Common(a, b)
  {
    if a != [] {
      var init, x := a[..|a| - 1], a[|a| - 1];
      IntersectIsCommon(init, b);
      CommonSnoc(init, x, b);
      assert a == init + [x];
    }
  }

  lemma {:induction false} CommonSnoc(a: seq<Json>, x: Json, b: seq<Json>)
    ensures Common(a + [x], b) == Common(a, b) + if x in b then [x] else []
  {
    if a == [] {
      assert [x][1..] == [];
    } else {
      CommonSnoc(a[1..], x, b);
      assert (a + [x])[1..] == a[1..] + [x];
    }
  }

  /** The values of an earlier `enum` stay in their order; a later one only takes some away. */
  lemma EnumsInOrder(was: seq<Json>, next: seq<Json>)
    ensures ConflictAt("enum", Arr(was), Arr(next)) <==> Common(was, next) == []
    ensures MergedArgument("enum", Arr(was), Arr(next)) == Arr(Common(was, next))
  {
    IntersectIsCommon(was, next);
  }

  /** Every other handled keyword is one of four. */
  lemma HandledExactly(k: string)
    ensures IsHandled(k)
       <==> MayOnlyIncrease(k) || MayOnlyDecrease(k) || k in ["const", "enum", "pattern", "multipleOf"]
  {
  }

  /**
   Bounds come in pairs: over the integers that a length or a number of items or members is, what one
   bound rejects is exactly what the opposite bound accepts; over numbers, the opposite one of the other kind.
   */
  lemma OppositeBounds(voc: Vocabulary, n: int, x: real, v: Json)
    ensures v.Num? ==>
      && (KeywordAccepts(voc, "minimum", Num(x), v) <==> !KeywordAccepts(voc, "exclusiveMaximum", Num(x), v))
      && (KeywordAccepts(voc, "maximum", Num(x), v) <==> !KeywordAccepts(voc, "exclusiveMinimum", Num(x), v))
      && (KeywordAccepts(voc, "minimum", Num(x), v) <==> v.n >= x)
      && (KeywordAccepts(voc, "maximum", Num(x), v) <==> v.n <= x)
    ensures v.Str? ==>
      && (KeywordAccepts(voc, "minLength", Num(n as real), v) <==> |v.s| >= n)
      && (KeywordAccepts(voc, "minLength", Num((n + 1) as real), v)
          <==> !KeywordAccepts(voc, "maxLength", Num(n as real), v))
    ensures v.Arr? ==>
      && (KeywordAccepts(voc, "minItems", Num(n as real), v) <==> |v.items| >= n)
      && (KeywordAccepts(voc, "minItems", Num((n + 1) as real), v)
          <==> !KeywordAccepts(voc, "maxItems", Num(n as real), v))
    ensures v.Obj? ==>
      && (KeywordAccepts(voc, "minProperties", Num(n as real), v) <==> |v.fields| >= n)
      && (KeywordAccepts(voc, "minProperties", Num((n + 1) as real), v)
          <==> !KeywordAccepts(voc, "maxProperties", Num(n as real), v))
  {
  }

  // ----- What is refused

  /**
   For a fixed value, a bound or a multiple, the merge refuses exactly the arguments that would
   loosen: those that accept some value the earlier argument rejects.
   */
  lemma RefusesExactlyLoosening(voc: Vocabulary, k: string, oldArg: Json, newArg: Json)
    requires k == "const" || k == "multipleOf" || IsLowerBound(k) || IsUpperBound(k)
    requires KeywordCompiles(voc, k, oldArg) && KeywordCompiles(voc, k, newArg)
    ensures ConflictAt(k, oldArg, newArg)
       <==> exists v :: KeywordAccepts(voc, k, newArg, v) && !KeywordAccepts(voc, k, oldArg, v)
  {
    if k == "const" {
      assert KeywordAccepts(voc, k, newArg, newArg);
    } else if k == "multipleOf" {
      RefusesExactlyNonMultiples(voc, oldArg, newArg);
    } else {
      RefusesExactlyLooserBounds(voc, k, oldArg, newArg);
    }
  }

  lemma RefusesExactlyNonMultiples(voc: Vocabulary, oldArg: Json, newArg: Json)
    requires oldArg.Num? && newArg.Num? && oldArg.n > 0.0 && newArg.n > 0.0
    ensures ConflictAt("multipleOf", oldArg, newArg)
       <==> exists v :: KeywordAccepts(voc, "multipleOf", newArg, v) && !KeywordAccepts(voc, "multipleOf", oldArg, v)
  {
    if ConflictAt("multipleOf", oldArg, newArg) {
      assert newArg.n / newArg.n == 1.0;
      assert KeywordAccepts(voc, "multipleOf", newArg, newArg);
      assert !KeywordAccepts(voc, "multipleOf", oldArg, newArg);
    } else {
      forall v | KeywordAccepts(voc, "multipleOf", newArg, v)
        ensures KeywordAccepts(voc, "multipleOf", oldArg, v)
      {
        MultipleMeaning(voc, oldArg, newArg, v);
      }
    }
  }

  lemma RefusesExactlyLooserBounds(voc: Vocabulary, k: string, oldArg: Json, newArg: Json)
    requires IsLowerBound(k) || IsUpperBound(k)
    requires KeywordCompiles(voc, k, oldArg) && KeywordCompiles(voc, k, newArg)
    ensures ConflictAt(k, oldArg, newArg)
       <==> exists v :: KeywordAccepts(voc, k, newArg, v) && !KeywordAccepts(voc, k, oldArg, v)
  {
    if ConflictAt(k, oldArg, newArg) {
      var x := if k in {"exclusiveMinimum", "exclusiveMaximum"} then oldArg.n else newArg.n;
      var v := InstanceOfMeasure(k, x);
      assert KeywordAccepts(voc, k, newArg, v);
      assert !KeywordAccepts(voc, k, oldArg, v);
    }
  }

  /** Some instance has the measure a bound speaks about. */
  lemma InstanceOfMeasure(k: string, x: real) returns (v: Json)
    requires IsNumericBound(k) || (IsSizeBound(k) && x >= 0.0 && IsInteger(x))
    ensures Measured(k, v) == Some(x)
  {
    if IsNumericBound(k) {
      v := Num(x);
    } else {
      var size := x.Floor;
      if k in {"minLength", "maxLength"} {
        v := Str(seq(size, _ => 'a'));
      } else if k in {"minItems", "maxItems"} {
        v := Arr(seq(size, _ => Null));
      } else {
        var fields := FieldsOfSize(size);
        v := Obj(fields);
      }
    }
  }

  lemma {:induction false} FieldsOfSize(size: nat) returns (fields: Fields)
    ensures |fields| == size
    ensures forall k | k in fields :: |k| < size
  {
    if size == 0 {
      fields := map[];
    } else {
      var smaller := FieldsOfSize(size - 1);
      var key := seq(size - 1, _ => 'a');
      fields := smaller[key := Null];
    }
  }

  /** Two enumerations are refused exactly when no value satisfies both. */
  lemma RefusesExactlyDisjointEnums(voc: Vocabulary, oldArg: Json, newArg: Json)
    requires oldArg.Arr? && newArg.Arr?
    ensures ConflictAt("enum", oldArg, newArg)
       <==> !exists v :: KeywordAccepts(voc, "enum", oldArg, v) && KeywordAccepts(voc, "enum", newArg, v)
  {
    var both := Intersect(oldArg.items, newArg.items);
    if both != [] {
      assert both[0] in both;
      assert KeywordAccepts(voc, "enum", oldArg, both[0]) && KeywordAccepts(voc, "enum", newArg, both[0]);
    }
  }

  // ----- When the order matters

  /**
   A merge that succeeds has the same result for all orders if and only if no policy-written
   `allOf` meets a new pattern.
   */
  lemma OrderMattersExactlyOnClash(existing: Fields, added: Fields)
    requires !Conflicts(existing, added)
    ensures Clash(existing, added)
       <==> exists m1, m2 :: MergesTo(existing, added, m1) && MergesTo(existing, added, m2) && m1 != m2
  {
    if Clash(existing, added) {
      var _, _ := ClashHasTwoResults(existing, added);
    } else {
      forall m1, m2 | MergesTo(existing, added, m1) && MergesTo(existing, added, m2)
        ensures m1 == m2
      {
        MergesToUnique(existing, added, m1);
        MergesToUnique(existing, added, m2);
      }
    }
  }

  /** With the pattern first, nothing of it remains; with `allOf` first, it is chained behind that. */
  lemma ClashHasTwoResults(existing: Fields, added: Fields) returns (m1: Fields, m2: Fields)
    requires !Conflicts(existing, added) && Clash(existing, added)
    ensures MergesTo(existing, added, m1) && MergesTo(existing, added, m2) && m1 != m2
    ensures "pattern" in m1 && m1["pattern"] == existing["pattern"]
    ensures "allOf" in m1 && m1["allOf"] == added["allOf"]
    ensures "allOf" in m2 && m2["allOf"] == ExtendedAllOf(existing["allOf" := added["allOf"]], added["pattern"])
  {
    var rest := SomeOrder(added.Keys - {"pattern", "allOf"});
    assert forall k :: k in rest <==> k in Elements(rest);
    m1 := TwoMore(existing, added, rest, "pattern", "allOf");
    m2 := TwoMore(existing, added, rest, "allOf", "pattern");
    Untouched(existing, added, rest, "pattern");
    var m := MergeInOrder(existing, added, rest).value;
    LastStep(m, added["pattern"], added["allOf"]);
  }

  /** The order `rest` completed by two keywords. */
  lemma TwoMore(existing: Fields, added: Fields, rest: seq<string>, a: string, b: string) returns (m: Fields)
    requires a in added && b in added && a != b && IsOrderOf(rest, added.Keys - {a, b})
    requires !Conflicts(existing, added)
    ensures forall k | k in rest :: k in added
    ensures MergeInOrder(existing, added, rest).Some?
    ensures var first := MergeStep(MergeInOrder(existing, added, rest).value, a, added[a]);
      first.Some? && MergeStep(first.value, b, added[b]) == Some(m)
    ensures MergesTo(existing, added, m)
  {
    assert forall k :: k in rest <==> k in Elements(rest);
    var order := rest + [a] + [b];
    assert Elements(order) == Elements(rest) + {a, b};
    assert IsOrderOf(order, added.Keys);
    ConflictOrNot(existing, added, order);
    assert order[..|order| - 1] == rest + [a] && (rest + [a])[..|rest|] == rest;
    m := MergeInOrder(existing, added, order).value;
  }

  lemma LastStep(schema: Fields, pattern: Json, allOf: Json)
    requires "pattern" in schema && schema["pattern"].Str? && pattern.Str? && schema["pattern"] != pattern
    ensures var patternFirst := schema["allOf" := ExtendedAllOf(schema, pattern)];
      && MergeStep(schema, "pattern", pattern) == Some(patternFirst)
      && MergeStep(patternFirst, "allOf", allOf) == Some(patternFirst["allOf" := allOf])
    ensures var allOfFirst := schema["allOf" := allOf];
      && MergeStep(schema, "allOf", allOf) == Some(allOfFirst)
      && MergeStep(allOfFirst, "pattern", pattern).Some?
      && MergeStep(allOfFirst, "pattern", pattern).value["allOf"] != allOf
  {
    assert !ConflictAt("allOf", Null, allOf) && MergedArgument("allOf", Null, allOf) == allOf;
    var extended := ExtendedAllOf(schema["allOf" := allOf], pattern);
    assert allOf.Arr? ==> |extended.items| == |allOf.items| + 1;
  }

  /** Such a merge can lose the new pattern: a value the new schema rejects is accepted. */
  lemma ClashCanLosePattern(voc: Vocabulary)
    requires voc.regexMatches("a", "ax") && !voc.regexMatches("b", "ax")
    ensures exists existing: Fields, added: Fields, merged: Fields ::
      && MergesTo(existing, added, merged)
      && Accepts(voc, merged, Str("ax")) && !Accepts(voc, added, Str("ax"))
  {
    var existing, added, merged := ClashLosesPattern(Str("a"), Str("b"));
    PatternAndTrue(voc, "a", "ax");
    assert !KeywordAccepts(voc, "pattern", added["pattern"], Str("ax"));
  }

  lemma ClashLosesPattern(p: Json, q: Json) returns (existing: Fields, added: Fields, merged: Fields)
    requires p.Str? && q.Str? && p != q
    ensures "pattern" in added && added["pattern"] == q
    ensures merged == map["pattern" := p, "allOf" := Arr([Bool(true)])] && MergesTo(existing, added, merged)
  {
    existing := map["pattern" := p];
    added := map["pattern" := q, "allOf" := Arr([Bool(true)])];
    assert Elements([]) == added.Keys - {"pattern", "allOf"};
    merged := TwoMore(existing, added, [], "pattern", "allOf");
    LastStep(existing, q, Arr([Bool(true)]));
  }

  lemma PatternAndTrue(voc: Vocabulary, pattern: string, text: string)
    requires voc.regexMatches(pattern, text)
    ensures Accepts(voc, map["pattern" := Str(pattern), "allOf" := Arr([Bool(true)])], Str(text))
  {
  }

  /** Overriding can loosen: a later `type` replaces an earlier one. */
  lemma OverrideCanLoosen(voc: Vocabulary)
    requires !voc.otherAccepts("type", Str("string"), Num(1.0))
    requires voc.otherAccepts("type", Str("number"), Num(1.0))
    ensures exists existing: Fields, added: Fields ::
      && !Conflicts(existing, added) && !Clash(existing, added)
      && Accepts(voc, Merged(existing, added), Num(1.0)) && !Accepts(voc, existing, Num(1.0))
  {
    var existing: Fields := map["type" := Str("string")];
    var added: Fields := map["type" := Str("number")];
    assert Merged(existing, added) == added;
    assert "type" in existing;
    assert Accepts(voc, added, Num(1.0));
  }
}
