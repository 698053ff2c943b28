/**
 The schema accumulated for one field path over a run: what it was before the first policy and after
 each, and what the policies contributed to it.
 */
module SchemaRuns {
  import opened Wrappers
  import opened JsonValues
  import opened SchemaSemantics
  import opened Keywords
  import opened KeywordMeaning
  import opened KeywordDemands

  /** How the accumulated schema of one field path changes in a step. */
  ghost predicate SchemaStep(before: Option<Fields>, added: Option<Fields>, after: Option<Fields>) {
    match (before, added)
    case (_, None) => after == before
    case (None, Some(n)) => after == Some(n)
    case (Some(e), Some(n)) => after.Some? && MergesTo(e, n, after.value)
  }

  ghost predicate SchemaChain(history: seq<Option<Fields>>, added: seq<Option<Fields>>) {
    && |history| == |added| + 1 && history[0] == None
    && forall i {:trigger added[i]} | 0 <= i < |added| :: SchemaStep(history[i], added[i], history[i + 1])
  }

  // ----- Merges that lose nothing

  /** The merge of policy `i`'s schema for the path, if there is one, loses nothing of either side. */
  predicate Faithful(before: Option<Fields>, added: Option<Fields>) {
    before.Some? && added.Some? ==>
      && !Clash(before.value, added.value)
      && Overridden(before.value, added.value) == {} && Ignored(before.value, added.value) == {}
  }

  /** A schema that is not there accepts everything. */
  predicate AcceptsIfAny(voc: Vocabulary, schema: Option<Fields>, v: Json) {
    schema.Some? ==> Accepts(voc, schema.value, v)
  }

  lemma {:induction false} SchemaStepMeaning(voc: Vocabulary, before: Option<Fields>, added: Option<Fields>,
                                             after: Option<Fields>, v: Json)
    requires SchemaStep(before, added, after) && Faithful(before, added)
    ensures AcceptsIfAny(voc, after, v) <==> AcceptsIfAny(voc, before, v) && AcceptsIfAny(voc, added, v)
  {
    if before.Some? && added.Some? {
      var e, n := before.value, added.value;
      MergesToUnique(e, n, after.value);
      MergeMeaning(voc, e, n, v);
      assert e - {} == e && n - {} == n;
    }
  }

  /** The first `n` merges lose nothing. */
  predicate FaithfulUpTo(history: seq<Option<Fields>>, added: seq<Option<Fields>>, n: nat)
    requires n <= |added| < |history|
  {
    forall k {:trigger added[k]} | 0 <= k < n :: Faithful(history[k], added[k])
  }

  /**
   The accumulated schema accepts exactly what every policy so far accepts, when no merge on the way
   overrides, ignores or clashes.
   */
  lemma {:induction false} AccumulatedMeaning(voc: Vocabulary, history: seq<Option<Fields>>,
                                              added: seq<Option<Fields>>, n: nat, v: Json)
    requires SchemaChain(history, added) && n <= |added| && FaithfulUpTo(history, added, n)
    ensures AcceptsIfAny(voc, history[n], v) <==> forall k | 0 <= k < n :: AcceptsIfAny(voc, added[k], v)
  {
    if n > 0 {
      AccumulatedMeaning(voc, history, added, n - 1, v);
      SchemaStepMeaning(voc, history[n - 1], added[n - 1], history[n], v);
    }
  }

  /** Every contributed schema has only handled keywords with readable arguments. */
  predicate AllWellTyped(added: seq<Option<Fields>>) {
    forall k | 0 <= k < |added| :: added[k].Some? ==> WellTyped(added[k].value)
  }

  lemma {:induction false} FaithfulOneMore(history: seq<Option<Fields>>, added: seq<Option<Fields>>, n: nat)
    requires 0 < n <= |added| < |history|
    requires FaithfulUpTo(history, added, n - 1) && Faithful(history[n - 1], added[n - 1])
    ensures FaithfulUpTo(history, added, n)
  {
  }

  /** Well-typed contributions are always merged faithfully. */
  lemma {:induction false} WellTypedIsFaithful(history: seq<Option<Fields>>, added: seq<Option<Fields>>, n: nat)
    requires SchemaChain(history, added) && n <= |added| && AllWellTyped(added)
    ensures FaithfulUpTo(history, added, n)
    ensures history[n].Some? ==> AccumulatedSchema(history[n].value)
  {
    if n > 0 {
      WellTypedIsFaithful(history, added, n - 1);
      StepStaysWellTyped(history[n - 1], added[n - 1], history[n]);
      FaithfulOneMore(history, added, n);
    }
  }

  lemma {:induction false} StepStaysWellTyped(before: Option<Fields>, added: Option<Fields>, after: Option<Fields>)
    requires SchemaStep(before, added, after)
    requires before.Some? ==> AccumulatedSchema(before.value)
    requires added.Some? ==> WellTyped(added.value)
    ensures Faithful(before, added)
    ensures after.Some? ==> AccumulatedSchema(after.value)
  {
    if added.Some? {
      WellTypedAccumulates(added.value);
      if before.Some? {
        WellTypedMerge(before.value, added.value);
        MergesToUnique(before.value, added.value, after.value);
      }
    }
  }

  lemma WellTypedAccumulates(schema: Fields)
    requires WellTyped(schema)
    ensures AccumulatedSchema(schema)
  {
  }

  /** Along well-typed contributions the accumulated schema accepts exactly what all of them accept. */
  lemma {:induction false} WellTypedRunMeaning(voc: Vocabulary, history: seq<Option<Fields>>,
                                               added: seq<Option<Fields>>, n: nat, v: Json)
    requires SchemaChain(history, added) && n <= |added| && AllWellTyped(added)
    ensures AcceptsIfAny(voc, history[n], v) <==> forall k | 0 <= k < n :: AcceptsIfAny(voc, added[k], v)
  {
    WellTypedIsFaithful(history, added, n);
    AccumulatedMeaning(voc, history, added, n, v);
  }

  // ----- What lasts whatever the others contribute

  predicate DemandsIfAny(voc: Vocabulary, schema: Option<Fields>, k: string, arg: Json, v: Json) {
    schema.Some? && Demands(voc, schema.value, k, arg, v)
  }

  predicate MayLoosenIfAny(k: string, arg: Json, added: Option<Fields>) {
    added.Some? && MayLoosen(k, arg, added.value)
  }

  lemma {:induction false} ChainKeepsDemand(voc: Vocabulary, before: Option<Fields>, added: Option<Fields>,
                                            after: Option<Fields>, k: string, arg: Json, v: Json)
    requires SchemaStep(before, added, after)
    requires DemandsIfAny(voc, before, k, arg, v) && !MayLoosenIfAny(k, arg, added)
    ensures DemandsIfAny(voc, after, k, arg, v)
  {
    if added.Some? {
      MergeKeepsDemand(voc, before.value, added.value, after.value, k, arg, v);
    }
  }

  lemma {:induction false} ChainSetsDemand(voc: Vocabulary, before: Option<Fields>, added: Fields,
                                           after: Option<Fields>, k: string, arg: Json, v: Json)
    requires SchemaStep(before, Some(added), after)
    requires Sets(k, arg, added) && !MayLoosen(k, arg, added)
    ensures DemandsIfAny(voc, after, k, arg, v)
  {
    if before.Some? {
      MergeSetsDemand(voc, before.value, added, after.value, k, arg, v);
    } else if k == "pattern" && !("pattern" in added && added["pattern"] == arg) {
      assert InAllOf(added, [PatternOnly(arg)]);
    }
  }

  /**
   From policy `i` to `j`, the last contribution that says something about the demand sets it, and
   does not drop it.
   */
  predicate InForce(added: seq<Option<Fields>>, i: nat, j: nat, k: string, arg: Json)
    requires i <= j < |added|
    decreases j
  {
    && !MayLoosenIfAny(k, arg, added[j])
    && ((added[j].Some? && Sets(k, arg, added[j].value)) || (i < j && InForce(added, i, j - 1, k, arg)))
  }

  /** A handled keyword whose place is free, or already taken by the same argument or an unreadable one. */
  predicate IsFirst(before: Option<Fields>, k: string, arg: Json) {
    && IsHandled(k)
    && (before.Some? && k in before.value ==> before.value[k] == arg || !Readable(k, before.value[k]))
  }

  /** Policy `j` has to respect keyword `k` of policy `i`, with argument `arg`. */
  predicate Kept(history: seq<Option<Fields>>, added: seq<Option<Fields>>, i: nat, j: nat, k: string, arg: Json)
    requires i <= j < |added| && i < |history|
  {
    IsFirst(history[i], k, arg) || InForce(added, i, j, k, arg)
  }

  /**
   The keywords of policy `i`'s schema that policy `j` need not respect: a keyword the merge has no
   case for, if the last policy up to `j` that uses it gives it another argument; a pattern that is not
   the first on its path, if it is dropped by an `allOf` that some policy from `i` to `j` writes, and
   not set again since; an argument that cannot be read, if an earlier policy's can.
   */
  function Lost(history: seq<Option<Fields>>, added: seq<Option<Fields>>, i: nat, j: nat): set<string>
    requires i <= j < |added| && i < |history| && added[i].Some?
  {
    var schema := added[i].value;
    set k | k in schema && !Kept(history, added, i, j, k, schema[k])
  }

  /** What is in force is demanded. */
  lemma {:induction false} InForceDemands(voc: Vocabulary, history: seq<Option<Fields>>, added: seq<Option<Fields>>,
                                          i: nat, j: nat, k: string, arg: Json, v: Json)
    requires SchemaChain(history, added) && i <= j < |added| && InForce(added, i, j, k, arg)
    ensures DemandsIfAny(voc, history[j + 1], k, arg, v)
    decreases j
  {
    assert SchemaStep(history[j], added[j], history[j + 1]);
    if added[j].Some? && Sets(k, arg, added[j].value) {
      ChainSetsDemand(voc, history[j], added[j].value, history[j + 1], k, arg, v);
    } else {
      InForceDemands(voc, history, added, i, j - 1, k, arg, v);
      ChainKeepsDemand(voc, history[j], added[j], history[j + 1], k, arg, v);
    }
  }

  /** A keyword keeps its argument, except `allOf`, where it is not merged or overridden. */
  lemma {:induction false} StepOutsideAllOf(before: Option<Fields>, added: Option<Fields>, after: Option<Fields>,
                                            k: string)
    requires SchemaStep(before, added, after) && before.Some? && k != "allOf"
    ensures after.Some?
    ensures At(after.value, k) == if added.Some? then MergedAt(before.value, added.value, k) else At(before.value, k)
  {
    if added.Some? {
      OutsideAllOf(before.value, added.value, after.value, k);
    }
  }

  /** The first readable pattern of a path stays in `pattern`. */
  lemma {:induction false} PatternStays(history: seq<Option<Fields>>, added: seq<Option<Fields>>, i: nat, j: nat)
    requires SchemaChain(history, added) && i <= j < |history|
    requires history[i].Some? && "pattern" in history[i].value
    ensures history[j].Some? && At(history[j].value, "pattern") == At(history[i].value, "pattern")
    decreases j
  {
    if i < j {
      PatternStays(history, added, i, j - 1);
      assert SchemaStep(history[j - 1], added[j - 1], history[j]);
      StepOutsideAllOf(history[j - 1], added[j - 1], history[j], "pattern");
    }
  }

  /** What comes first is demanded right away. */
  lemma {:induction false} FirstDemands(voc: Vocabulary, before: Option<Fields>, added: Fields, after: Option<Fields>,
                                        k: string, v: Json)
    requires SchemaStep(before, Some(added), after) && k in added && IsFirst(before, k, added[k])
    ensures DemandsIfAny(voc, after, k, added[k], v)
    ensures k == "pattern" ==>
      "pattern" in after.value && (after.value["pattern"] == added["pattern"] || !after.value["pattern"].Str?)
  {
    if before.Some? {
      OutsideAllOf(before.value, added, after.value, k);
    }
  }

  /** What is kept is demanded. */
  lemma {:induction false} KeptDemands(voc: Vocabulary, history: seq<Option<Fields>>, added: seq<Option<Fields>>,
                                       i: nat, j: nat, k: string, v: Json)
    requires SchemaChain(history, added) && i <= j < |added| && added[i].Some? && k in added[i].value
    requires Kept(history, added, i, j, k, added[i].value[k])
    ensures DemandsIfAny(voc, history[j + 1], k, added[i].value[k], v)
    decreases j
  {
    var arg := added[i].value[k];
    assert SchemaStep(history[i], added[i], history[i + 1]);
    if InForce(added, i, j, k, arg) {
      InForceDemands(voc, history, added, i, j, k, arg, v);
    } else {
      FirstDemands(voc, history[i], added[i].value, history[i + 1], k, v);
      if k == "pattern" {
        PatternStays(history, added, i + 1, j + 1);
      } else if i < j {
        KeptDemands(voc, history, added, i, j - 1, k, v);
        assert SchemaStep(history[j], added[j], history[j + 1]);
        ChainKeepsDemand(voc, history[j], added[j], history[j + 1], k, arg, v);
      }
    }
  }

  /** The value satisfies policy `i`'s schema, apart from what is lost. */
  predicate Respects(voc: Vocabulary, history: seq<Option<Fields>>, added: seq<Option<Fields>>, i: nat, j: nat, v: Json)
    requires i <= j < |added| && i < |history|
  {
    added[i].Some? ==> Accepts(voc, added[i].value - Lost(history, added, i, j), v)
  }

  /** What the schema accumulated up to policy `j` accepts respects every policy up to `j`. */
  lemma {:induction false} AccumulatedRespects(voc: Vocabulary, history: seq<Option<Fields>>,
                                               added: seq<Option<Fields>>, i: nat, j: nat, v: Json)
    requires SchemaChain(history, added) && i <= j < |added| && AcceptsIfAny(voc, history[j + 1], v)
    ensures Respects(voc, history, added, i, j, v)
  {
    if added[i].Some? {
      var schema := added[i].value;
      var kept := schema - Lost(history, added, i, j);
      forall k | k in kept
        ensures KeywordAccepts(voc, k, kept[k], v)
      {
        KeptDemands(voc, history, added, i, j, k, v);
        DemandsAccepts(voc, history[j + 1].value, k, schema[k], v);
      }
    }
  }

  // ----- When nothing is lost

  /** Policy `i`'s pattern for the path, if there is one, is kept up to policy `j`. */
  predicate KeepsPattern(history: seq<Option<Fields>>, added: seq<Option<Fields>>, i: nat, j: nat)
    requires i <= j < |added| && i < |history|
  {
    added[i].Some? && "pattern" in added[i].value ==>
      Kept(history, added, i, j, "pattern", added[i].value["pattern"])
  }

  /** No policy from `i` to `j` writes `allOf`. */
  predicate NoWrittenAllOf(added: seq<Option<Fields>>, i: nat, j: nat)
    requires j < |added|
  {
    forall n | i <= n <= j :: added[n].Some? ==> "allOf" !in added[n].value
  }

  /** A readable pattern is kept if it is the first on its path, or no policy from `i` to `j` writes `allOf`. */
  lemma {:induction false} PatternIsKept(history: seq<Option<Fields>>, added: seq<Option<Fields>>, i: nat, j: nat)
    requires i <= j < |added| && i < |history| && added[i].Some? && "pattern" in added[i].value
    requires added[i].value["pattern"].Str?
    requires IsFirst(history[i], "pattern", added[i].value["pattern"]) || NoWrittenAllOf(added, i, j)
    ensures KeepsPattern(history, added, i, j)
    decreases j
  {
    var pattern := added[i].value["pattern"];
    if !IsFirst(history[i], "pattern", pattern) {
      assert added[j].Some? ==> "allOf" !in added[j].value;
      if i < j {
        assert NoWrittenAllOf(added, i, j - 1);
        PatternIsKept(history, added, i, j - 1);
      }
    }
  }

  /** Of a well-typed schema nothing but a pattern is ever lost. */
  lemma {:induction false} WellTypedIsRespected(voc: Vocabulary, history: seq<Option<Fields>>,
                                                added: seq<Option<Fields>>, i: nat, j: nat, v: Json)
    requires i <= j < |added| && i < |history| && Respects(voc, history, added, i, j, v)
    requires added[i].Some? ==> WellTyped(added[i].value)
    requires KeepsPattern(history, added, i, j)
    ensures AcceptsIfAny(voc, added[i], v)
  {
    if added[i].Some? {
      var schema := added[i].value;
      forall k | k in schema
        ensures Kept(history, added, i, j, k, schema[k])
      {
        if k != "pattern" {
          HandledInForce(added, i, j, k);
        }
      }
      assert Lost(history, added, i, j) == {};
      assert schema - {} == schema;
    }
  }

  lemma {:induction false} HandledInForce(added: seq<Option<Fields>>, i: nat, j: nat, k: string)
    requires i <= j < |added| && added[i].Some? && k in added[i].value
    requires IsHandled(k) && k != "pattern" && Readable(k, added[i].value[k])
    ensures InForce(added, i, j, k, added[i].value[k])
    decreases j
  {
    if i < j {
      HandledInForce(added, i, j - 1, k);
    }
  }

  // ----- Lost keywords can be lost

  /** The schema still has the keyword with this argument. */
  predicate Has(schema: Option<Fields>, k: string, arg: Json) {
    schema.Some? && if k == "pattern" then CarriesPattern(schema.value, arg) else At(schema.value, k) == Some(arg)
  }

  /**
   `Lost` is exact. A readable pattern, or a keyword the merge has no case for (other than `allOf`), is
   lost after the last policy if and only if some order of the merges from policy `i` on leaves an
   accumulated schema without it.
   */
  lemma {:induction false} LostExactly(history: seq<Option<Fields>>, added: seq<Option<Fields>>, i: nat, k: string)
    requires SchemaChain(history, added) && i < |added| && added[i].Some? && k in added[i].value
    requires if k == "pattern" then added[i].value[k].Str? else k != "allOf" && !IsHandled(k)
    ensures k in Lost(history, added, i, |added| - 1)
       <==> exists h :: SchemaChain(h, added) && h[..i + 1] == history[..i + 1]
                        && !Has(h[|added|], k, added[i].value[k])
  {
    var arg := added[i].value[k];
    if k in Lost(history, added, i, |added| - 1) {
      var h := LoseKeyword(history, added, i, k);
      assert SchemaChain(h, added) && h[..i + 1] == history[..i + 1] && !Has(h[|added|], k, arg);
    } else {
      forall h: seq<Option<Fields>> | SchemaChain(h, added) && h[..i + 1] == history[..i + 1]
        ensures Has(h[|added|], k, arg)
      {
        assert h[..i + 1][i] == h[i] && history[..i + 1][i] == history[i];
        KeepKeyword(h, added, i, k);
      }
    }
  }

  lemma {:induction false} LoseKeyword(history: seq<Option<Fields>>, added: seq<Option<Fields>>, i: nat, k: string)
    returns (h: seq<Option<Fields>>)
    requires SchemaChain(history, added) && i < |added| && added[i].Some? && k in added[i].value
    requires if k == "pattern" then added[i].value[k].Str? else k != "allOf" && !IsHandled(k)
    requires !Kept(history, added, i, |added| - 1, k, added[i].value[k])
    ensures SchemaChain(h, added) && h[..i + 1] == history[..i + 1] && !Has(h[|added|], k, added[i].value[k])
  {
    if k == "pattern" {
      h := LosePattern(history, added, i, |added| - 1);
      assert added[..|added|] == added;
    } else {
      h := history;
      OverriddenExactly(history, added, i, |added| - 1, k);
    }
  }

  lemma {:induction false} KeepKeyword(history: seq<Option<Fields>>, added: seq<Option<Fields>>, i: nat, k: string)
    requires SchemaChain(history, added) && i < |added| && added[i].Some? && k in added[i].value
    requires k == "pattern" || (k != "allOf" && !IsHandled(k))
    requires Kept(history, added, i, |added| - 1, k, added[i].value[k])
    ensures Has(history[|added|], k, added[i].value[k])
  {
    if k == "pattern" {
      KeptDemands(AnyVocabulary(), history, added, i, |added| - 1, k, Null);
    } else {
      OverriddenExactly(history, added, i, |added| - 1, k);
    }
  }

  /** A keyword without a case of its own has the argument it was given last. */
  lemma {:induction false} OverriddenExactly(history: seq<Option<Fields>>, added: seq<Option<Fields>>, i: nat, j: nat,
                                             k: string)
    requires SchemaChain(history, added) && i <= j < |added| && added[i].Some? && k in added[i].value
    requires k != "allOf" && !IsHandled(k)
    ensures history[j + 1].Some? && k in history[j + 1].value
    ensures Has(history[j + 1], k, added[i].value[k]) <==> InForce(added, i, j, k, added[i].value[k])
    decreases j
  {
    assert SchemaStep(history[j], added[j], history[j + 1]);
    if i < j {
      OverriddenExactly(history, added, i, j - 1, k);
    }
    if history[j].Some? {
      StepOutsideAllOf(history[j], added[j], history[j + 1], k);
    }
  }

  /** The schemas differ in nothing but `allOf`. */
  ghost predicate AlikeOutside(a: Option<Fields>, b: Option<Fields>) {
    a.Some? && b.Some? && forall k | k != "allOf" :: At(a.value, k) == At(b.value, k)
  }

  /** A run of merges that ends without policy `i`'s pattern. */
  lemma {:induction false} LosePattern(history: seq<Option<Fields>>, added: seq<Option<Fields>>, i: nat, j: nat)
    returns (h: seq<Option<Fields>>)
    requires SchemaChain(history, added) && i <= j < |added| && added[i].Some? && "pattern" in added[i].value
    requires added[i].value["pattern"].Str? && !KeepsPattern(history, added, i, j)
    ensures |h| == j + 2 && SchemaChain(h, added[..j + 1]) && h[..i + 1] == history[..i + 1]
    ensures AlikeOutside(h[j + 1], history[j + 1])
    ensures !CarriesPattern(h[j + 1].value, added[i].value["pattern"])
    decreases j
  {
    var pattern := added[i].value["pattern"];
    var init, last;
    assert SchemaStep(history[j], added[j], history[j + 1]);
    PatternStays(history, added, i, j);
    if MayLoosenIfAny("pattern", pattern, added[j]) {
      init := history[..j + 1];
      PrefixChain(history, added, j);
      last := DropPattern(history[j], added[j].value, history[j + 1], pattern);
    } else {
      init := LosePattern(history, added, i, j - 1);
      last := StillWithout(init[j], added[j], history[j], history[j + 1], pattern);
    }
    h := init + [last];
    ChainSnoc(init, added, j, last);
  }

  lemma {:induction false} PrefixChain(history: seq<Option<Fields>>, added: seq<Option<Fields>>, j: nat)
    requires SchemaChain(history, added) && j < |added|
    ensures SchemaChain(history[..j + 1], added[..j])
  {
    forall n | 0 <= n < j
      ensures SchemaStep(history[..j + 1][n], added[..j][n], history[..j + 1][n + 1])
    {
      assert SchemaStep(history[n], added[n], history[n + 1]);
    }
  }

  lemma {:induction false} ChainSnoc(init: seq<Option<Fields>>, added: seq<Option<Fields>>, j: nat,
                                     last: Option<Fields>)
    requires j < |added| && SchemaChain(init, added[..j]) && SchemaStep(init[j], added[j], last)
    ensures SchemaChain(init + [last], added[..j + 1])
  {
    var h := init + [last];
    forall n | 0 <= n < j + 1
      ensures SchemaStep(h[n], added[..j + 1][n], h[n + 1])
    {
      if n < j {
        assert SchemaStep(init[n], added[..j][n], init[n + 1]);
      }
    }
  }

  /** An order in which the written `allOf` comes last, and replaces the one that had the pattern. */
  lemma {:induction false} DropPattern(before: Option<Fields>, added: Fields, after: Option<Fields>, pattern: Json)
    returns (last: Option<Fields>)
    requires SchemaStep(before, Some(added), after) && MayLoosen("pattern", pattern, added)
    requires before.Some? && "pattern" in before.value
    requires before.value["pattern"].Str? && before.value["pattern"] != pattern
    ensures SchemaStep(before, Some(added), last) && AlikeOutside(last, after)
    ensures !CarriesPattern(last.value, pattern)
  {
    var merged := after.value;
    if Clash(before.value, added) {
      NoConflict(before.value, added, merged);
      var patternFirst, _ := ClashHasTwoResults(before.value, added);
      merged := patternFirst;
    } else {
      MergesToUnique(before.value, added, merged);
    }
    last := Some(merged);
    assert merged["allOf"] == added["allOf"];
    OutsideAllOf(before.value, added, merged, "pattern");
    forall k | k != "allOf"
      ensures At(merged, k) == At(after.value, k)
    {
      OutsideAllOf(before.value, added, merged, k);
      OutsideAllOf(before.value, added, after.value, k);
    }
  }

  /** A contribution that does not set the pattern leaves a schema without it without it. */
  lemma {:induction false} StillWithout(other: Option<Fields>, added: Option<Fields>, before: Option<Fields>,
                                        after: Option<Fields>, pattern: Json) returns (last: Option<Fields>)
    requires SchemaStep(before, added, after) && AlikeOutside(other, before)
    requires "pattern" in other.value && !CarriesPattern(other.value, pattern) && pattern.Str?
    requires added.Some? ==> !MayLoosen("pattern", pattern, added.value) && !Sets("pattern", pattern, added.value)
    ensures SchemaStep(other, added, last) && AlikeOutside(last, after)
    ensures !CarriesPattern(last.value, pattern)
  {
    last := other;
    if added.Some? {
      var e, n := other.value, added.value;
      assert "allOf" !in n;
      NoConflict(before.value, n, after.value);
      SameConflicts(e, before.value, n);
      MergesToUnique(e, n, Merged(e, n));
      last := Some(Merged(e, n));
      if PatternsDiffer(e, n) {
        assert n["pattern"] != pattern;
        ExtendedWithout(e, n["pattern"], pattern);
      }
      forall k | k != "allOf"
        ensures At(last.value, k) == At(after.value, k)
      {
        assert At(e, k) == At(before.value, k);
        OutsideAllOf(e, n, last.value, k);
        OutsideAllOf(before.value, n, after.value, k);
      }
    }
  }

  lemma {:induction false} ExtendedWithout(schema: Fields, added: Json, pattern: Json)
    requires "pattern" in schema && !CarriesPattern(schema, pattern) && added != pattern
    ensures PatternOnly(pattern) !in ExtendedAllOf(schema, added).items
  {
    assert PatternOnly(added).fields["pattern"] == added && PatternOnly(pattern).fields["pattern"] == pattern;
    assert PatternOnly(schema["pattern"]).fields["pattern"] == schema["pattern"];
  }

  lemma NoConflict(existing: Fields, added: Fields, merged: Fields)
    requires MergesTo(existing, added, merged)
    ensures !Conflicts(existing, added)
  {
    var order: seq<string> :| IsOrderOf(order, added.Keys) && MergeInOrder(existing, added, order) == Some(merged);
    ConflictOrNot(existing, added, order);
  }

  lemma SameConflicts(a: Fields, b: Fields, added: Fields)
    requires AlikeOutside(Some(a), Some(b)) && !Conflicts(b, added)
    ensures !Conflicts(a, added)
  {
    forall k | k in a && k in added
      ensures !ConflictAt(k, a[k], added[k])
    {
      assert k != "allOf" ==> At(a, k) == At(b, k);
    }
  }
}
