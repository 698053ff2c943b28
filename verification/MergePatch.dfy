/**
 mergePatch: the recursive merge of a policy's patch into the service instance spec, compared with
 the MergePatch function of section 2 of RFC 7396.
 */
module MergePatches {
  import opened Wrappers
  import opened JsonValues

  /** The merged object, member by member. */
  function Patched(base: Fields, patch: Fields): Fields
    decreases Obj(patch)
  {
    map k | k in base.Keys + patch.Keys && !(k in patch && patch[k].Null?) ::
      if k !in patch then base[k]
      else if patch[k].Obj? && k in base && base[k].Obj? then Obj(Patched(base[k].fields, patch[k].fields))
      else patch[k]
  }

  /** The members of the patch in whatever order the map yields them. */
  method MergePatch(base: Fields, patch: Fields) returns (result: Fields)
    ensures result == Patched(base, patch)
    decreases Obj(patch)
  {
    result := base;
    var todo := patch.Keys;
    ghost var part: Fields := map[];
    while todo != {}
      invariant todo <= patch.Keys && part == patch - todo
      invariant result == Patched(base, part)
      decreases todo
    {
      var key :| key in todo;
      PatchedOneMore(base, part, key, patch[key]);
      todo := todo - {key};
      part := part[key := patch[key]];
      if patch[key].Null? {
        result := result - {key};
      } else if patch[key].Obj? && key in result && result[key].Obj? {
        var nested := MergePatch(result[key].fields, patch[key].fields);
        result := result[key := Obj(nested)];
      } else {
        result := result[key := patch[key]];
      }
    }
    assert part == patch;
  }

  lemma PatchedOneMore(base: Fields, part: Fields, key: string, v: Json)
    requires key !in part
    ensures var before := Patched(base, part);
      && (key in before <==> key in base) && (key in base ==> before[key] == base[key])
      && Patched(base, part[key := v]) ==
         (if v.Null? then before - {key}
          else if v.Obj? && key in base && base[key].Obj? then before[key := Obj(Patched(base[key].fields, v.fields))]
          else before[key := v])
  {
    var before, after := Patched(base, part), Patched(base, part[key := v]);
    if v.Null? {
      assert after == before - {key};
    } else if v.Obj? && key in base && base[key].Obj? {
      assert after == before[key := Obj(Patched(base[key].fields, v.fields))];
    } else {
      assert after == before[key := v];
    }
  }

  // ----- RFC 7396

  /** MergePatch of section 2 of RFC 7396; a missing target is treated like any non-object. */
  function Rfc7396(target: Json, patch: Json): Json
    decreases patch
  {
    if !patch.Obj? then patch
    else
      var base := if target.Obj? then target.fields else map[];
      Obj(map k | k in base.Keys + patch.fields.Keys && !(k in patch.fields && patch.fields[k].Null?) ::
        if k !in patch.fields then base[k]
        else Rfc7396(if k in base then base[k] else Null, patch.fields[k]))
  }

  /** No object inside the value, itself included, has a null member. */
  predicate NullFree(v: Json) {
    v.Obj? ==> forall k | k in v.fields :: v.fields[k] != Null && NullFree(v.fields[k])
  }

  /** Every patch object that lands on a missing or non-object member is free of nulls. */
  predicate LandsNullFree(base: Fields, patch: Fields)
    decreases Obj(patch)
  {
    forall k | k in patch && patch[k].Obj? ::
      if k in base && base[k].Obj? then LandsNullFree(base[k].fields, patch[k].fields) else NullFree(patch[k])
  }

  /** Merging into nothing gives the patch itself exactly when it has no null to drop. */
  lemma {:induction false} RfcIntoNothing(target: Json, patch: Json)
    requires !target.Obj?
    ensures Rfc7396(target, patch) == patch <==> NullFree(patch)
    decreases patch
  {
    if patch.Obj? {
      var merged := Rfc7396(target, patch).fields;
      forall k | k in patch.fields
        ensures (k in merged && merged[k] == patch.fields[k]) <==> patch.fields[k] != Null && NullFree(patch.fields[k])
      {
        RfcIntoNothing(Null, patch.fields[k]);
      }
      if NullFree(patch) {
        assert merged == patch.fields;
      }
    }
  }

  /** The code computes what RFC 7396 computes if and only if no null lands inside a new object. */
  lemma {:induction false} EqualsRfcExactly(base: Fields, patch: Fields)
    ensures Obj(Patched(base, patch)) == Rfc7396(Obj(base), Obj(patch)) <==> LandsNullFree(base, patch)
    decreases Obj(patch)
  {
    var ours, rfc := Patched(base, patch), Rfc7396(Obj(base), Obj(patch)).fields;
    forall k | k in patch && patch[k].Obj?
      ensures ours[k] == rfc[k] <==>
        if k in base && base[k].Obj? then LandsNullFree(base[k].fields, patch[k].fields) else NullFree(patch[k])
    {
      if k in base && base[k].Obj? {
        EqualsRfcExactly(base[k].fields, patch[k].fields);
      } else {
        RfcIntoNothing(if k in base then base[k] else Null, patch[k]);
      }
    }
    assert ours.Keys == rfc.Keys;
    if LandsNullFree(base, patch) {
      forall k | k in ours
        ensures ours[k] == rfc[k]
      {
        if k in patch && !patch[k].Obj? {
          assert rfc[k] == Rfc7396(if k in base then base[k] else Null, patch[k]);
        }
      }
      assert ours == rfc;
    }
  }

  /** Where the two differ: the code keeps the null that RFC 7396 drops. */
  lemma DiffersFromRfc()
    ensures var patch := map["a" := Obj(map["b" := Null])];
      && Patched(map[], patch) == patch
      && Rfc7396(Obj(map[]), Obj(patch)) == Obj(map["a" := Obj(map[])])
  {
    var inner: Fields := map["b" := Null];
    assert Rfc7396(Null, Obj(inner)).fields == map[];
    assert Rfc7396(Obj(map[]), Obj(map["a" := Obj(inner)])).fields == map["a" := Obj(map[])];
  }

  /** A value patched with itself stays the same exactly when it has no null member. */
  lemma {:induction false} PatchedWithItself(v: Fields)
    ensures Patched(v, v) == v <==> NullFree(Obj(v))
    decreases Obj(v)
  {
    var twice := Patched(v, v);
    forall k | k in v
      ensures (k in twice && twice[k] == v[k]) <==> v[k] != Null && NullFree(v[k])
    {
      if v[k].Obj? {
        PatchedWithItself(v[k].fields);
      }
    }
    if NullFree(Obj(v)) {
      assert twice == v;
    }
  }

  /** Applying a patch twice equals applying it once under exactly the same condition. */
  lemma {:induction false} IdempotentExactly(base: Fields, patch: Fields)
    ensures Patched(Patched(base, patch), patch) == Patched(base, patch) <==> LandsNullFree(base, patch)
    decreases Obj(patch)
  {
    var once := Patched(base, patch);
    var twice := Patched(once, patch);
    forall k | k in patch && patch[k].Obj?
      ensures once[k] == twice[k] <==>
        if k in base && base[k].Obj? then LandsNullFree(base[k].fields, patch[k].fields) else NullFree(patch[k])
    {
      if k in base && base[k].Obj? {
        IdempotentExactly(base[k].fields, patch[k].fields);
      } else {
        PatchedWithItself(patch[k].fields);
      }
    }
    assert once.Keys == twice.Keys;
    if LandsNullFree(base, patch) {
      assert once == twice;
    }
  }

  // ----- What a patch does at a key path

  /** A value the patch has at a key path arrives there, unless it is an object or null. */
  lemma {:induction false} WriteArrives(base: Fields, patch: Fields, keys: seq<string>, v: Json)
    requires keys != [] && Lookup(Obj(patch), keys) == Some(v) && !v.Obj? && v != Null
    ensures Lookup(Obj(Patched(base, patch)), keys) == Some(v)
    decreases |keys|
  {
    var k, rest := keys[0], keys[1..];
    if rest != [] && k in base && base[k].Obj? {
      WriteArrives(base[k].fields, patch[k].fields, rest, v);
    }
  }

  /** The patch says nothing about the key path, nor about a path on the way but that it is an object. */
  predicate LeavesAlone(patch: Fields, keys: seq<string>)
    decreases |keys|
  {
    keys != [] && (keys[0] in patch ==> patch[keys[0]].Obj? && LeavesAlone(patch[keys[0]].fields, keys[1..]))
  }

  /** A value stays where a patch leaves it alone. */
  lemma {:induction false} LeftAlone(base: Fields, patch: Fields, keys: seq<string>, v: Json)
    requires LeavesAlone(patch, keys) && Lookup(Obj(base), keys) == Some(v)
    ensures Lookup(Obj(Patched(base, patch)), keys) == Some(v)
    decreases |keys|
  {
    var k, rest := keys[0], keys[1..];
    if k in patch {
      LeftAlone(base[k].fields, patch[k].fields, rest, v);
    }
  }

  /** After a patch, the value at a key path is the old one, the patch's own, or a merge of both objects, or gone. */
  lemma {:induction false} LookupPatched(base: Fields, patch: Fields, keys: seq<string>)
    requires keys != []
    ensures var was, written := Lookup(Obj(base), keys), Lookup(Obj(patch), keys);
      var after := Lookup(Obj(Patched(base, patch)), keys);
      after.Some? ==>
        || after == was
        || after == written
        || (was.Some? && written.Some? && was.value.Obj? && written.value.Obj? &&
            after.value == Obj(Patched(was.value.fields, written.value.fields)))
    decreases |keys|
  {
    var k, rest := keys[0], keys[1..];
    if k in patch && patch[k].Obj? && k in base && base[k].Obj? {
      if rest != [] {
        LookupPatched(base[k].fields, patch[k].fields, rest);
      }
    }
  }
}
