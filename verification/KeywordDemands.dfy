/**
 What a merged schema still demands of a value, whatever else was merged: through the keyword itself,
 or through `allOf`, where patterns are chained and a policy may write.
 */
module KeywordDemands {
  import opened Wrappers
  import opened JsonValues
  import opened SchemaSemantics
  import opened Keywords
  import opened KeywordMeaning

  // ----- Demands of a schema

  predicate HasSubschemas(allOf: Json, subschemas: seq<Json>) {
    allOf.Arr? && forall x | x in subschemas :: x in allOf.items
  }

  predicate InAllOf(schema: Fields, subschemas: seq<Json>) {
    "allOf" in schema && HasSubschemas(schema["allOf"], subschemas)
  }

  /** The schema has the pattern, in `pattern` or chained in `allOf`, or a `pattern` that accepts nothing. */
  predicate CarriesPattern(schema: Fields, pattern: Json) {
    || ("pattern" in schema && (schema["pattern"] == pattern || !schema["pattern"].Str?))
    || InAllOf(schema, [PatternOnly(pattern)])
  }

  /** The schema demands of `v` what keyword `k` with argument `arg` does. */
  predicate Demands(voc: Vocabulary, schema: Fields, k: string, arg: Json, v: Json) {
    if k == "pattern" then CarriesPattern(schema, arg)
    else if k == "allOf" then arg.Arr? && InAllOf(schema, arg.items)
    else k in schema && (KeywordAccepts(voc, k, schema[k], v) ==> KeywordAccepts(voc, k, arg, v))
  }

  lemma {:induction false} DemandsAccepts(voc: Vocabulary, schema: Fields, k: string, arg: Json, v: Json)
    requires Demands(voc, schema, k, arg, v) && Accepts(voc, schema, v)
    ensures KeywordAccepts(voc, k, arg, v)
  {
    if k == "pattern" {
      if InAllOf(schema, [PatternOnly(arg)]) {
        InAllOfAccepts(voc, schema, [PatternOnly(arg)], PatternOnly(arg), v);
        PatternOnlyMeaning(voc, arg, v);
      } else {
        assert KeywordAccepts(voc, "pattern", schema["pattern"], v);
      }
    } else if k == "allOf" {
      forall i | 0 <= i < |arg.items|
        ensures SubschemaAccepts(voc, arg.items[i], v)
      {
        InAllOfAccepts(voc, schema, arg.items, arg.items[i], v);
      }
    } else {
      assert KeywordAccepts(voc, k, schema[k], v);
    }
  }

  lemma {:induction false} InAllOfAccepts(voc: Vocabulary, schema: Fields, subschemas: seq<Json>, x: Json, v: Json)
    requires InAllOf(schema, subschemas) && x in subschemas && Accepts(voc, schema, v)
    ensures SubschemaAccepts(voc, x, v)
  {
    var items := schema["allOf"].items;
    assert KeywordAccepts(voc, "allOf", schema["allOf"], v);
    var i :| 0 <= i < |items| && items[i] == x;
  }

  // ----- What a contribution does to them

  /** The contribution may drop keyword `k` with argument `arg`: it overrides it, or the `allOf` it is in. */
  predicate MayLoosen(k: string, arg: Json, added: Fields) {
    if k == "pattern" then "allOf" in added && !HasSubschemas(added["allOf"], [PatternOnly(arg)])
    else if k == "allOf" then "allOf" in added && !(arg.Arr? && HasSubschemas(added["allOf"], arg.items))
    else !IsHandled(k) && k in added && added[k] != arg
  }

  /** Visiting keyword `x` brings keyword `k` with argument `arg` in. */
  predicate SetsAt(k: string, arg: Json, x: string, newArg: Json) {
    || (x == k && newArg == arg && Readable(k, arg) && (k == "allOf" ==> arg.Arr?))
    || (x == "allOf" && k == "pattern" && HasSubschemas(newArg, [PatternOnly(arg)]))
    || (x == "allOf" && k == "allOf" && arg.Arr? && HasSubschemas(newArg, arg.items))
  }

  /** The contribution has the keyword itself, readably, or has its demand in `allOf`. */
  predicate Sets(k: string, arg: Json, added: Fields) {
    || (k in added && SetsAt(k, arg, k, added[k]))
    || ("allOf" in added && SetsAt(k, arg, "allOf", added["allOf"]))
  }

  /** The pattern step only adds to `allOf`, as long as that can be read. */
  lemma {:induction false} PatternStepKeeps(schema: Fields, pattern: Json, m: Fields, subschemas: seq<Json>)
    requires "pattern" in schema && MergeStep(schema, "pattern", pattern) == Some(m)
    ensures forall k | k in schema && k != "allOf" :: k in m && m[k] == schema[k]
    ensures InAllOf(schema, subschemas) ==> InAllOf(m, subschemas)
    ensures pattern.Str? ==> CarriesPattern(m, pattern)
  {
    if PatternsDiffer(schema, map["pattern" := pattern]) {
      var items := ExtendedAllOf(schema, pattern).items;
      assert items[|items| - 1] == PatternOnly(pattern);
    }
  }

  /** A round of the merge loop keeps a demand it may not loosen. */
  lemma {:induction false} StepKeepsDemand(voc: Vocabulary, schema: Fields, added: Fields, x: string, m: Fields,
                                           k: string, arg: Json, v: Json)
    requires x in added && MergeStep(schema, x, added[x]) == Some(m)
    requires Demands(voc, schema, k, arg, v) && !MayLoosen(k, arg, added)
    ensures Demands(voc, m, k, arg, v)
  {
    if x == "pattern" && x in schema {
      PatternStepKeeps(schema, added[x], m, if k == "allOf" then arg.items else [PatternOnly(arg)]);
    } else if x == k && k in schema && k != "allOf" {
      if KeywordAccepts(voc, k, m[k], v) {
        ArgumentMeaning(voc, k, schema[k], added[k], v);
      }
    }
  }

  /** The round that visits the right keyword establishes the demand. */
  lemma {:induction false} StepSetsDemand(voc: Vocabulary, schema: Fields, x: string, newArg: Json, m: Fields,
                                          k: string, arg: Json, v: Json)
    requires MergeStep(schema, x, newArg) == Some(m) && SetsAt(k, arg, x, newArg)
    ensures Demands(voc, m, k, arg, v)
  {
    if x == "pattern" && x in schema {
      PatternStepKeeps(schema, newArg, m, []);
    } else if x in schema && x != "allOf" {
      if KeywordAccepts(voc, k, m[k], v) {
        ArgumentMeaning(voc, k, schema[k], arg, v);
      }
    }
  }

  lemma {:induction false} OrderKeepsDemand(voc: Vocabulary, existing: Fields, added: Fields, order: seq<string>,
                                            k: string, arg: Json, v: Json)
    requires forall x | x in order :: x in added
    requires MergeInOrder(existing, added, order).Some?
    requires Demands(voc, existing, k, arg, v) && !MayLoosen(k, arg, added)
    ensures Demands(voc, MergeInOrder(existing, added, order).value, k, arg, v)
  {
    if order != [] {
      var init, x := order[..|order| - 1], order[|order| - 1];
      OrderKeepsDemand(voc, existing, added, init, k, arg, v);
      StepKeepsDemand(voc, MergeInOrder(existing, added, init).value, added, x,
                      MergeInOrder(existing, added, order).value, k, arg, v);
    }
  }

  lemma {:induction false} OrderSetsDemand(voc: Vocabulary, existing: Fields, added: Fields, order: seq<string>,
                                           k: string, arg: Json, x: string, v: Json)
    requires forall y | y in order :: y in added
    requires x in order && MergeInOrder(existing, added, order).Some?
    requires SetsAt(k, arg, x, added[x]) && !MayLoosen(k, arg, added)
    ensures Demands(voc, MergeInOrder(existing, added, order).value, k, arg, v)
  {
    var init, last := order[..|order| - 1], order[|order| - 1];
    var before, after := MergeInOrder(existing, added, init).value, MergeInOrder(existing, added, order).value;
    assert order == init + [last];
    if last == x {
      StepSetsDemand(voc, before, x, added[x], after, k, arg, v);
    } else {
      OrderSetsDemand(voc, existing, added, init, k, arg, x, v);
      StepKeepsDemand(voc, before, added, last, after, k, arg, v);
    }
  }

  /** The order behind a possible result of a merge. */
  lemma OrderOf(existing: Fields, added: Fields, merged: Fields) returns (order: seq<string>)
    requires MergesTo(existing, added, merged)
    ensures forall x :: x in order <==> x in added
    ensures MergeInOrder(existing, added, order) == Some(merged)
  {
    order :| IsOrderOf(order, added.Keys) && MergeInOrder(existing, added, order) == Some(merged);
    assert forall x :: x in order <==> x in Elements(order);
  }

  lemma MergeKeepsDemand(voc: Vocabulary, existing: Fields, added: Fields, merged: Fields, k: string, arg: Json,
                         v: Json)
    requires MergesTo(existing, added, merged)
    requires Demands(voc, existing, k, arg, v) && !MayLoosen(k, arg, added)
    ensures Demands(voc, merged, k, arg, v)
  {
    var order := OrderOf(existing, added, merged);
    OrderKeepsDemand(voc, existing, added, order, k, arg, v);
  }

  lemma MergeSetsDemand(voc: Vocabulary, existing: Fields, added: Fields, merged: Fields, k: string, arg: Json, v: Json)
    requires MergesTo(existing, added, merged)
    requires Sets(k, arg, added) && !MayLoosen(k, arg, added)
    ensures Demands(voc, merged, k, arg, v)
  {
    var order := OrderOf(existing, added, merged);
    OrderSetsDemand(voc, existing, added, order, k, arg,
                    if k in added && SetsAt(k, arg, k, added[k]) then k else "allOf", v);
  }

  // ----- Outside `allOf` the order does not matter

  /** What becomes of a keyword other than `allOf`. */
  function MergedAt(existing: Fields, added: Fields, k: string): Option<Json> {
    if k !in added then (if k in existing then Some(existing[k]) else None)
    else if k !in existing then Some(added[k])
    else Some(MergedArgument(k, existing[k], added[k]))
  }

  function At(schema: Fields, k: string): Option<Json> {
    if k in schema then Some(schema[k]) else None
  }

  lemma {:induction false} OutsideInOrder(existing: Fields, added: Fields, order: seq<string>, k: string)
    requires forall x | x in order :: x in added
    requires Distinct(order) && k != "allOf" && MergeInOrder(existing, added, order).Some?
    ensures At(MergeInOrder(existing, added, order).value, k)
         == if k in order then MergedAt(existing, added, k) else At(existing, k)
  {
    if order != [] {
      var init, last := order[..|order| - 1], order[|order| - 1];
      assert order == init + [last];
      OutsideInOrder(existing, added, init, k);
      OutsideStep(MergeInOrder(existing, added, init).value, last, added[last],
                  MergeInOrder(existing, added, order).value, k);
    }
  }

  lemma OutsideStep(schema: Fields, x: string, newArg: Json, m: Fields, k: string)
    requires MergeStep(schema, x, newArg) == Some(m) && k != "allOf"
    ensures At(m, k) == if x == k then MergedAt(schema, map[x := newArg], k) else At(schema, k)
  {
  }

  /** Every order gives every keyword but `allOf` the same argument. */
  lemma OutsideAllOf(existing: Fields, added: Fields, merged: Fields, k: string)
    requires MergesTo(existing, added, merged) && k != "allOf"
    ensures At(merged, k) == MergedAt(existing, added, k)
  {
    var order: seq<string> :| IsOrderOf(order, added.Keys) && MergeInOrder(existing, added, order) == Some(merged);
    assert forall x :: x in order <==> x in Elements(order);
    OutsideInOrder(existing, added, order, k);
  }

  // ----- The added pattern

  /**
   When the added pattern arrives. It is in the merged schema for every order of the keywords if and
   only if the added schema does not clash, or has the pattern in its own `allOf` as well.
   */
  lemma PatternArrivesExactly(existing: Fields, added: Fields)
    requires !Conflicts(existing, added) && "pattern" in added && added["pattern"].Str?
    ensures (forall m | MergesTo(existing, added, m) :: CarriesPattern(m, added["pattern"]))
       <==> (Clash(existing, added) ==> HasSubschemas(added["allOf"], [PatternOnly(added["pattern"])]))
  {
    var pattern := added["pattern"];
    if Clash(existing, added) && !HasSubschemas(added["allOf"], [PatternOnly(pattern)]) {
      var m, _ := ClashHasTwoResults(existing, added);
      assert !CarriesPattern(m, pattern);
    } else {
      forall m | MergesTo(existing, added, m)
        ensures CarriesPattern(m, pattern)
      {
        PatternArrives(existing, added, m);
      }
    }
  }

  lemma PatternArrives(existing: Fields, added: Fields, m: Fields)
    requires MergesTo(existing, added, m) && "pattern" in added && added["pattern"].Str?
    requires Clash(existing, added) ==> HasSubschemas(added["allOf"], [PatternOnly(added["pattern"])])
    ensures CarriesPattern(m, added["pattern"])
  {
    if PatternsDiffer(existing, added) {
      MergeSetsDemand(AnyVocabulary(), existing, added, m, "pattern", added["pattern"], Null);
    } else {
      OutsideAllOf(existing, added, m, "pattern");
    }
  }

  function AnyVocabulary(): Vocabulary {
    Vocabulary(_ => true, (_, _) => true, (_, _) => true, (_, _, _) => true)
  }
}
