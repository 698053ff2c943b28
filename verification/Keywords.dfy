/**
 mergeSchemaKeywords: the merge of one field's constraint with a later policy's constraint on the
 same field. A Go map is visited in arbitrary order; the specification therefore first says what
 happens for a given order (`MergeInOrder`), and then which orders matter (`OrderIrrelevant`).
 */
module Keywords {
  import opened Wrappers
  import opened JsonValues
  import opened SchemaSemantics

  /** A lower-priority policy would loosen a field's constraint. */
  datatype Conflict = Conflict(fieldPath: string, setByPolicy: string)

  // ----- One keyword

  /** The elements of `a` that also occur in `b`, in the order of `a`. */
  function Intersect<T(==,!new)>(a: seq<T>, b: seq<T>): (r: seq<T>)
    ensures forall x :: x in r <==> x in a && x in b
    ensures a == [] ==> r == []
  {
    if a == [] then []
    else Intersect(a[..|a| - 1], b) + if a[|a| - 1] in b then [a[|a| - 1]] else []
  }

  lemma {:induction false} IntersectSnoc<T(!new)>(a: seq<T>, x: T, b: seq<T>)
    ensures Intersect(a + [x], b) == Intersect(a, b) + if x in b then [x] else []
  {
    assert (a + [x])[..|a|] == a;
  }

  /** Whether the two arguments of a shared keyword cannot be merged. */
  predicate ConflictAt(keyword: string, oldArg: Json, newArg: Json) {
    if keyword == "const" then oldArg != newArg
    else if keyword == "enum" then oldArg.Arr? && newArg.Arr? && Intersect(oldArg.items, newArg.items) == []
    else if IsLowerBound(keyword) then oldArg.Num? && newArg.Num? && newArg.n < oldArg.n
    else if IsUpperBound(keyword) then oldArg.Num? && newArg.Num? && newArg.n > oldArg.n
    else if keyword == "multipleOf" then
      oldArg.Num? && newArg.Num? && oldArg.n != 0.0 && !IsMultiple(newArg.n, oldArg.n)
    else false
  }

  /** The argument a shared keyword has after the merge, when there is no conflict. */
  function MergedArgument(keyword: string, oldArg: Json, newArg: Json): Json {
    if keyword == "const" || keyword == "pattern" then oldArg
    else if keyword == "enum" then
      if oldArg.Arr? && newArg.Arr? then Arr(Intersect(oldArg.items, newArg.items)) else oldArg
    else if IsLowerBound(keyword) || IsUpperBound(keyword) then
      if oldArg.Num? && newArg.Num? then newArg else oldArg
    else if keyword == "multipleOf" then
      if oldArg.Num? && newArg.Num? && oldArg.n != 0.0 then newArg else oldArg
    else newArg
  }

  /** Both schemas have a `pattern`, and the two differ. */
  predicate PatternsDiffer(existing: Fields, added: Fields) {
    && "pattern" in existing && "pattern" in added
    && existing["pattern"].Str? && added["pattern"].Str?
    && existing["pattern"] != added["pattern"]
  }

  function PatternOnly(pattern: Json): Json {
    Obj(map["pattern" := pattern])
  }

  /** The `allOf` that holds one more pattern. */
  function ExtendedAllOf(schema: Fields, pattern: Json): Json
    requires "pattern" in schema
  {
    if "allOf" in schema && schema["allOf"].Arr?
    then Arr(schema["allOf"].items + [PatternOnly(pattern)])
    else Arr([PatternOnly(schema["pattern"]), PatternOnly(pattern)])
  }

  // ----- The loop, for a given order of the keywords

  function MergeStep(schema: Fields, keyword: string, newArg: Json): Option<Fields> {
    if keyword !in schema then Some(schema[keyword := newArg])
    else if ConflictAt(keyword, schema[keyword], newArg) then None
    else if keyword == "pattern" then
      if schema[keyword].Str? && newArg.Str? && schema[keyword] != newArg
      then Some(schema["allOf" := ExtendedAllOf(schema, newArg)])
      else Some(schema)
    else Some(schema[keyword := MergedArgument(keyword, schema[keyword], newArg)])
  }

  function MergeInOrder(existing: Fields, added: Fields, order: seq<string>): Option<Fields>
    requires forall k | k in order :: k in added
  {
    if order == [] then Some(existing)
    else
      var last := |order| - 1;
      match MergeInOrder(existing, added, order[..last])
      case None => None
      case Some(schema) => MergeStep(schema, order[last], added[order[last]])
  }

  predicate Distinct(order: seq<string>) {
    forall i, j | 0 <= i < j < |order| :: order[i] != order[j]
  }

  function Elements(order: seq<string>): set<string> {
    set k | k in order
  }

  /** A possible order of visiting a map with these keys. */
  predicate IsOrderOf(order: seq<string>, keys: set<string>) {
    Distinct(order) && Elements(order) == keys
  }

  /** Some order of visiting `added` makes the merge produce `merged`. */
  ghost predicate MergesTo(existing: Fields, added: Fields, merged: Fields) {
    exists order: seq<string> ::
      IsOrderOf(order, added.Keys) && MergeInOrder(existing, added, order) == Some(merged)
  }

  // ----- The result, without mentioning an order

  predicate Conflicts(existing: Fields, added: Fields) {
    exists k | k in existing && k in added :: ConflictAt(k, existing[k], added[k])
  }

  /** A policy wrote `allOf` itself and also adds a pattern: both go to the key `allOf`. */
  predicate Clash(existing: Fields, added: Fields) {
    "allOf" in added && PatternsDiffer(existing, added)
  }

  function Merged(existing: Fields, added: Fields): Fields {
    map k | k in existing.Keys + added.Keys + (if PatternsDiffer(existing, added) then {"allOf"} else {}) ::
      if k == "allOf" && PatternsDiffer(existing, added) then ExtendedAllOf(existing, added["pattern"])
      else if k !in added then existing[k]
      else if k !in existing then added[k]
      else MergedArgument(k, existing[k], added[k])
  }

  method IntersectAnySlices(a: seq<Json>, b: seq<Json>) returns (result: seq<Json>)
    ensures result == Intersect(a, b)
  {
    result := [];
    for i := 0 to |a|
      invariant result == Intersect(a[..i], b)
    {
      IntersectSnoc(a[..i], a[i], b);
      assert a[..i] + [a[i]] == a[..i + 1];
      for j := 0 to |b|
        invariant result == Intersect(a[..i], b)
        invariant a[i] !in b[..j]
      {
        if a[i] == b[j] {
          result := result + [a[i]];
          break;
        }
      }
    }
    assert a[..|a|] == a;
  }

  /**
   The loop over the new keywords. It fails exactly when some shared keyword conflicts, whatever
   the order; otherwise the result is that of some order, and of every order unless the two
   writers of `allOf` clash.
   */
  method MergeSchemaKeywords(existing: Fields, added: Fields, fieldPath: string, existingPolicyID: string)
    returns (r: Result<Fields, Conflict>)
    ensures r.Err? <==> Conflicts(existing, added)
    ensures r.Err? ==> r.error == Conflict(fieldPath, existingPolicyID)
    ensures r.Ok? ==> MergesTo(existing, added, r.value)
    ensures r.Ok? && !Clash(existing, added) ==> r.value == Merged(existing, added)
  {
    var merged := existing;
    var todo := added.Keys;
    ghost var order: seq<string> := [];
    while todo != {}
      invariant todo <= added.Keys
      invariant Distinct(order) && Elements(order) == added.Keys - todo
      invariant forall k | k in order :: k in added
      invariant MergeInOrder(existing, added, order) == Some(merged)
      decreases todo
    {
      var keyword :| keyword in todo;
      todo := todo - {keyword};
      assert keyword !in order by { assert keyword !in Elements(order); }
      var next := MergeKeyword(merged, keyword, added[keyword]);
      assert (order + [keyword])[..|order|] == order;
      if next.None? {
        StepConflict(existing, added, order, merged, keyword);
        return Err(Conflict(fieldPath, existingPolicyID));
      }
      merged := next.value;
      assert Elements(order + [keyword]) == Elements(order) + {keyword};
      order := order + [keyword];
    }
    r := Ok(merged);
    assert IsOrderOf(order, added.Keys);
    ConflictOrNot(existing, added, order);
    if !Clash(existing, added) {
      OrderIrrelevant(existing, added, order);
    }
  }

  /** One round of the loop: the switch over the keyword. */
  method MergeKeyword(schema: Fields, keyword: string, newVal: Json) returns (r: Option<Fields>)
    ensures r == MergeStep(schema, keyword, newVal)
  {
    if keyword !in schema {
      return Some(schema[keyword := newVal]);
    }
    var existingVal := schema[keyword];
    assert schema[keyword := existingVal] == schema;
    var merged := schema;
    if keyword == "const" {
      if existingVal != newVal {
        return None;
      }
    } else if keyword == "enum" {
      if existingVal.Arr? && newVal.Arr? {
        var intersected := IntersectAnySlices(existingVal.items, newVal.items);
        if |intersected| == 0 {
          return None;
        }
        merged := merged[keyword := Arr(intersected)];
      }
    } else if IsLowerBound(keyword) {
      if existingVal.Num? && newVal.Num? {
        if newVal.n < existingVal.n {
          return None;
        }
        merged := merged[keyword := Num(Max(existingVal.n, newVal.n))];
      }
    } else if IsUpperBound(keyword) {
      if existingVal.Num? && newVal.Num? {
        if newVal.n > existingVal.n {
          return None;
        }
        merged := merged[keyword := Num(Min(existingVal.n, newVal.n))];
      }
    } else if keyword == "pattern" {
      if existingVal.Str? && newVal.Str? && existingVal != newVal {
        if "allOf" in merged && merged["allOf"].Arr? {
          merged := merged["allOf" := Arr(merged["allOf"].items + [PatternOnly(newVal)])];
        } else {
          merged := merged["allOf" := Arr([PatternOnly(existingVal), PatternOnly(newVal)])];
        }
      }
    } else if keyword == "multipleOf" {
      if existingVal.Num? && newVal.Num? && existingVal.n != 0.0 {
        if !IsMultiple(newVal.n, existingVal.n) {
          return None;
        }
        merged := merged[keyword := newVal];
      }
    } else {
      merged := merged[keyword := newVal];
    }
    r := Some(merged);
  }

  function Max(x: real, y: real): real { if x < y then y else x }

  function Min(x: real, y: real): real { if x < y then x else y }

  // ----- Proofs about the order

  /** Keywords that are still to be visited keep their argument, except `allOf`. */
  lemma {:induction false} Untouched(existing: Fields, added: Fields, order: seq<string>, k: string)
    requires forall x | x in order :: x in added
    requires k !in order && k != "allOf"
    ensures match MergeInOrder(existing, added, order)
            case None => true
            case Some(m) => (k in m <==> k in existing) && (k in m ==> m[k] == existing[k])
  {
    if order != [] {
      Untouched(existing, added, order[..|order| - 1], k);
    }
  }

  lemma StepConflict(existing: Fields, added: Fields, order: seq<string>, schema: Fields, k: string)
    requires forall x | x in order :: x in added
    requires k in added && k !in order && MergeInOrder(existing, added, order) == Some(schema)
    ensures MergeStep(schema, k, added[k]) == None <==> k in existing && ConflictAt(k, existing[k], added[k])
  {
    if k != "allOf" {
      Untouched(existing, added, order, k);
    }
  }

  /** For every order, the merge fails exactly on a conflict of a visited keyword. */
  lemma {:induction false} FailsExactly(existing: Fields, added: Fields, order: seq<string>)
    requires forall x | x in order :: x in added
    requires Distinct(order)
    ensures MergeInOrder(existing, added, order) == None
       <==> exists k | k in order && k in existing :: ConflictAt(k, existing[k], added[k])
  {
    if order != [] {
      var init, last := order[..|order| - 1], order[|order| - 1];
      assert order == init + [last];
      FailsExactly(existing, added, init);
      if MergeInOrder(existing, added, init).Some? {
        StepConflict(existing, added, init, MergeInOrder(existing, added, init).value, last);
      }
    }
  }

  lemma ConflictOrNot(existing: Fields, added: Fields, order: seq<string>)
    requires IsOrderOf(order, added.Keys)
    ensures forall x | x in order :: x in added
    ensures MergeInOrder(existing, added, order) == None <==> Conflicts(existing, added)
  {
    assert forall x :: x in order <==> x in Elements(order);
    FailsExactly(existing, added, order);
  }

  /** Without a clash every order reaches the same result, namely `Merged`. */
  lemma OrderIrrelevant(existing: Fields, added: Fields, order: seq<string>)
    requires IsOrderOf(order, added.Keys)
    requires !Clash(existing, added)
    ensures forall x | x in order :: x in added
    ensures MergeInOrder(existing, added, order)
         == if Conflicts(existing, added) then None else Some(Merged(existing, added))
  {
    ConflictOrNot(existing, added, order);
    if !Conflicts(existing, added) {
      PrefixMerged(existing, added, order);
      assert Only(added, Elements(order)) == added;
    }
  }

  lemma {:induction false} PrefixMerged(existing: Fields, added: Fields, order: seq<string>)
    requires forall x | x in order :: x in added
    requires Distinct(order)
    requires !Clash(existing, added) && !Conflicts(existing, added)
    ensures MergeInOrder(existing, added, order) == Some(Merged(existing, Only(added, Elements(order))))
  {
    if order == [] {
      assert Merged(existing, Only(added, {})) == existing;
    } else {
      var init, k := order[..|order| - 1], order[|order| - 1];
      assert order == init + [k];
      PrefixMerged(existing, added, init);
      assert Elements(order) == Elements(init) + {k};
      assert k !in Elements(init);
      StepMerged(existing, added, Elements(init), k);
    }
  }

  lemma StepMerged(existing: Fields, added: Fields, done: set<string>, k: string)
    requires done <= added.Keys && k in added && k !in done
    requires !Clash(existing, added) && !Conflicts(existing, added)
    ensures MergeStep(Merged(existing, Only(added, done)), k, added[k])
         == Some(Merged(existing, Only(added, done + {k})))
  {
    var part := Only(added, done);
    assert Only(added, done + {k}) == part[k := added[k]];
    if k == "pattern" {
      StepMergedPattern(existing, part, added[k]);
    } else {
      StepMergedOther(existing, part, k, added[k]);
    }
  }

  lemma {:induction false} StepMergedPattern(existing: Fields, part: Fields, pattern: Json)
    requires "pattern" !in part
    requires PatternsDiffer(existing, part["pattern" := pattern]) ==> "allOf" !in part
    ensures MergeStep(Merged(existing, part), "pattern", pattern) == Some(Merged(existing, part["pattern" := pattern]))
  {
    var m, m' := Merged(existing, part), Merged(existing, part["pattern" := pattern]);
    if PatternsDiffer(existing, part["pattern" := pattern]) {
      PatternChained(existing, part, pattern);
    } else if "pattern" in existing {
      assert m == m';
    } else {
      assert m["pattern" := pattern] == m';
    }
  }

  lemma {:induction false} PatternChained(existing: Fields, part: Fields, pattern: Json)
    requires "pattern" !in part && "allOf" !in part
    requires PatternsDiffer(existing, part["pattern" := pattern])
    ensures var m := Merged(existing, part);
      && "pattern" in m && m["pattern"] == existing["pattern"]
      && m["allOf" := ExtendedAllOf(m, pattern)] == Merged(existing, part["pattern" := pattern])
  {
    var m, m' := Merged(existing, part), Merged(existing, part["pattern" := pattern]);
    assert ExtendedAllOf(m, pattern) == ExtendedAllOf(existing, pattern);
    assert m["allOf" := ExtendedAllOf(m, pattern)] == m';
  }

  lemma {:induction false} StepMergedOther(existing: Fields, part: Fields, k: string, arg: Json)
    requires k != "pattern" && k !in part
    requires k == "allOf" ==> !PatternsDiffer(existing, part)
    requires k in existing ==> !ConflictAt(k, existing[k], arg)
    ensures MergeStep(Merged(existing, part), k, arg) == Some(Merged(existing, part[k := arg]))
  {
    var m, more := Merged(existing, part), part[k := arg];
    assert PatternsDiffer(existing, more) == PatternsDiffer(existing, part);
    MergedOneMore(existing, part, k, arg);
    if k in existing {
      assert m[k] == existing[k];
    }
  }

  lemma {:induction false} MergedOneMore(existing: Fields, part: Fields, k: string, arg: Json)
    requires k != "pattern" && k !in part
    requires PatternsDiffer(existing, part[k := arg]) == PatternsDiffer(existing, part)
    requires k == "allOf" ==> !PatternsDiffer(existing, part)
    ensures Merged(existing, part[k := arg])
         == Merged(existing, part)[k := if k in existing then MergedArgument(k, existing[k], arg) else arg]
  {
  }
}
