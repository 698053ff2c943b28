/** Accumulated constraints on the service provider: one allow list and a list of patterns. */
module Providers {
  import opened Wrappers
  import opened SchemaSemantics
  import opened Keywords
  import opened Decisions

  datatype Accumulated = Accumulated(allowList: seq<string>, patterns: seq<string>, setByPolicy: string)

  /** The allow list or the patterns of a contribution say something. */
  predicate Contributes(sp: Option<ProviderConstraints>) {
    sp.Some? && (sp.value.allowList != [] || sp.value.patterns != [])
  }

  /** The allow lists exist and have no provider in common. */
  predicate Disjoint(acc: Option<Accumulated>, sp: Option<ProviderConstraints>) {
    && acc.Some? && sp.Some?
    && acc.value.allowList != [] && sp.value.allowList != []
    && Intersect(sp.value.allowList, acc.value.allowList) == []
  }

  /** The accumulated constraints after one more contribution, or None when the lists are disjoint. */
  function Accumulate(acc: Option<Accumulated>, sp: Option<ProviderConstraints>,
                      policyID: string): Option<Option<Accumulated>> {
    if !Contributes(sp) then Some(acc)
    else if Disjoint(acc, sp) then None
    else if acc.None? then Some(Some(Accumulated(sp.value.allowList, sp.value.patterns, policyID)))
    else
      var allowList := if sp.value.allowList == [] then acc.value.allowList
                       else if acc.value.allowList == [] then sp.value.allowList
                       else Intersect(sp.value.allowList, acc.value.allowList);
      Some(Some(acc.value.(allowList := allowList, patterns := acc.value.patterns + sp.value.patterns)))
  }

  /** A non-empty provider passes the accumulated constraints; an invalid pattern passes none. */
  predicate Allowed(voc: Vocabulary, acc: Option<Accumulated>, provider: string) {
    acc.Some? ==>
      && (acc.value.allowList != [] ==> provider in acc.value.allowList)
      && forall p | p in acc.value.patterns :: voc.regexValid(p) && voc.regexMatches(p, provider)
  }

  /** A provider meets one policy's own provider constraints. */
  predicate Meets(voc: Vocabulary, sp: Option<ProviderConstraints>, provider: string) {
    sp.Some? ==>
      && (sp.value.allowList != [] ==> provider in sp.value.allowList)
      && forall p | p in sp.value.patterns :: voc.regexValid(p) && voc.regexMatches(p, provider)
  }

  /** One accumulation adds exactly the demands of the contribution. */
  lemma AccumulateMeaning(voc: Vocabulary, acc: Option<Accumulated>, sp: Option<ProviderConstraints>, id: string,
                          provider: string)
    requires Accumulate(acc, sp, id).Some?
    ensures Allowed(voc, Accumulate(acc, sp, id).value, provider)
       <==> Allowed(voc, acc, provider) && Meets(voc, sp, provider)
  {
    if Contributes(sp) && acc.Some? {
      var after := Accumulate(acc, sp, id).value.value;
      assert forall p :: p in after.patterns <==> p in acc.value.patterns || p in sp.value.patterns;
    }
  }

  /** A contribution is refused exactly when both allow lists say something and name no common provider. */
  lemma RefusedExactly(acc: Option<Accumulated>, sp: Option<ProviderConstraints>, id: string)
    ensures Accumulate(acc, sp, id) == None
       <==> && acc.Some? && sp.Some? && acc.value.allowList != [] && sp.value.allowList != []
            && !exists p :: p in acc.value.allowList && p in sp.value.allowList
  {
    if acc.Some? && sp.Some? {
      var both := Intersect(sp.value.allowList, acc.value.allowList);
      if both != [] {
        assert both[0] in both;
      }
    }
  }

  /** Contributions one after the other, from the first policy on. */
  function AccumulateAll(contributions: seq<(Option<ProviderConstraints>, string)>): Option<Option<Accumulated>> {
    if contributions == [] then Some(None)
    else
      var last := |contributions| - 1;
      match AccumulateAll(contributions[..last])
      case None => None
      case Some(acc) => Accumulate(acc, contributions[last].0, contributions[last].1)
  }

  /**
   After any sequence of contributions that succeeds, a provider passes exactly when it meets all
   of them; and once some allow list was contributed the accumulated one is not empty, so that it
   is never mistaken for "any provider".
   */
  lemma {:induction false} ProviderAcceptance(voc: Vocabulary,
                                              contributions: seq<(Option<ProviderConstraints>, string)>,
                                              provider: string)
    requires AccumulateAll(contributions).Some?
    ensures Allowed(voc, AccumulateAll(contributions).value, provider)
       <==> forall c | c in contributions && c.0.Some? ::
              && (c.0.value.allowList != [] ==> provider in c.0.value.allowList)
              && forall p | p in c.0.value.patterns :: voc.regexValid(p) && voc.regexMatches(p, provider)
    ensures (exists c | c in contributions :: c.0.Some? && c.0.value.allowList != [])
       <==> AccumulateAll(contributions).value.Some? && AccumulateAll(contributions).value.value.allowList != []
  {
    if contributions != [] {
      var init, c := contributions[..|contributions| - 1], contributions[|contributions| - 1];
      assert contributions == init + [c];
      ProviderAcceptance(voc, init, provider);
      AccumulateMeaning(voc, AccumulateAll(init).value, c.0, c.1, provider);
    }
  }

  /** The contribution has an allow list, and the provider is not in it. */
  predicate Excludes(sp: Option<ProviderConstraints>, provider: string) {
    sp.Some? && sp.value.allowList != [] && provider !in sp.value.allowList
  }

  predicate HasAllowList(contributions: seq<(Option<ProviderConstraints>, string)>) {
    exists c | c in contributions :: c.0.Some? && c.0.value.allowList != []
  }

  predicate Excluded(contributions: seq<(Option<ProviderConstraints>, string)>, provider: string) {
    exists c | c in contributions :: Excludes(c.0, provider)
  }

  /** The accumulated allow list holds exactly the providers that no contribution excludes. */
  lemma {:induction false} AccumulatedList(contributions: seq<(Option<ProviderConstraints>, string)>, provider: string)
    requires AccumulateAll(contributions).Some? && HasAllowList(contributions)
    ensures AccumulateAll(contributions).value.Some?
    ensures var list := AccumulateAll(contributions).value.value.allowList;
      list != [] && (provider in list <==> !Excluded(contributions, provider))
  {
    var init, c := contributions[..|contributions| - 1], contributions[|contributions| - 1];
    assert contributions == init + [c];
    ExcludedOneMore(init, c, provider);
    if HasAllowList(init) {
      AccumulatedList(init, provider);
    } else {
      NoAllowList(init);
      assert !Excluded(init, provider);
    }
  }

  lemma ExcludedOneMore(init: seq<(Option<ProviderConstraints>, string)>, c: (Option<ProviderConstraints>, string),
                        provider: string)
    ensures Excluded(init + [c], provider) <==> Excluded(init, provider) || Excludes(c.0, provider)
    ensures HasAllowList(init + [c]) <==> HasAllowList(init) || (c.0.Some? && c.0.value.allowList != [])
  {
    assert c in init + [c];
    assert forall x | x in init :: x in init + [c];
  }

  lemma {:induction false} NoAllowList(contributions: seq<(Option<ProviderConstraints>, string)>)
    requires AccumulateAll(contributions).Some? && !HasAllowList(contributions)
    ensures AccumulateAll(contributions).value.Some? ==> AccumulateAll(contributions).value.value.allowList == []
  {
    if contributions != [] {
      var init, c := contributions[..|contributions| - 1], contributions[|contributions| - 1];
      assert contributions == init + [c];
      ExcludedOneMore(init, c, "");
      NoAllowList(init);
    }
  }

  /** A run of contributions is refused exactly when there are allow lists, and no provider is in all of them. */
  lemma {:induction false} RunRefusedExactly(contributions: seq<(Option<ProviderConstraints>, string)>)
    ensures AccumulateAll(contributions) == None
       <==> HasAllowList(contributions) && forall provider :: Excluded(contributions, provider)
  {
    if AccumulateAll(contributions).Some? {
      if HasAllowList(contributions) {
        AccumulatedList(contributions, "");
        var one := AccumulateAll(contributions).value.value.allowList[0];
        AccumulatedList(contributions, one);
      }
    } else {
      var init, c := contributions[..|contributions| - 1], contributions[|contributions| - 1];
      assert contributions == init + [c];
      RunRefusedExactly(init);
      forall provider
        ensures HasAllowList(contributions) && Excluded(contributions, provider)
      {
        ExcludedOneMore(init, c, provider);
        if AccumulateAll(init).Some? {
          DisjointExcludes(init, c, provider);
        }
      }
    }
  }

  lemma {:induction false} DisjointExcludes(init: seq<(Option<ProviderConstraints>, string)>,
                                            c: (Option<ProviderConstraints>, string), provider: string)
    requires AccumulateAll(init).Some? && Accumulate(AccumulateAll(init).value, c.0, c.1) == None
    ensures c.0.Some? && c.0.value.allowList != [] && (Excluded(init, provider) || Excludes(c.0, provider))
  {
    RefusedExactly(AccumulateAll(init).value, c.0, c.1);
    if !HasAllowList(init) {
      NoAllowList(init);
    }
    AccumulatedList(init, provider);
  }

  /** The providers of a list that no contribution excludes, in the list's order. */
  function NotExcluded(list: seq<string>, contributions: seq<(Option<ProviderConstraints>, string)>): seq<string> {
    if list == [] then []
    else
      var p := list[|list| - 1];
      NotExcluded(list[..|list| - 1], contributions) + if Excluded(contributions, p) then [] else [p]
  }

  lemma {:induction false} IntersectNotExcluded(list: seq<string>, accumulated: seq<string>,
                                                contributions: seq<(Option<ProviderConstraints>, string)>)
    requires forall p | p in list :: p in accumulated <==> !Excluded(contributions, p)
    ensures Intersect(list, accumulated) == NotExcluded(list, contributions)
  {
    if list != [] {
      IntersectNotExcluded(list[..|list| - 1], accumulated, contributions);
    }
  }

  lemma {:induction false} NoneExcluded(list: seq<string>, contributions: seq<(Option<ProviderConstraints>, string)>)
    requires !HasAllowList(contributions)
    ensures NotExcluded(list, contributions) == list
  {
    if list != [] {
      NoneExcluded(list[..|list| - 1], contributions);
    }
  }

  /** The accumulated allow list is the last one contributed, in its order, without what the others exclude. */
  lemma {:induction false} ListInOrder(contributions: seq<(Option<ProviderConstraints>, string)>, i: nat)
    requires AccumulateAll(contributions).Some? && i < |contributions|
    requires contributions[i].0.Some? && contributions[i].0.value.allowList != []
    requires !HasAllowList(contributions[i + 1..])
    ensures AccumulateAll(contributions).value.Some?
    ensures AccumulateAll(contributions).value.value.allowList
         == NotExcluded(contributions[i].0.value.allowList, contributions[..i])
  {
    var init, c := contributions[..|contributions| - 1], contributions[|contributions| - 1];
    if i < |init| {
      assert contributions[i + 1..] == init[i + 1..] + [c] && contributions[..i] == init[..i];
      ExcludedOneMore(init[i + 1..], c, "");
      ListInOrder(init, i);
    } else {
      LastList(init, c);
    }
  }

  lemma {:induction false} LastList(init: seq<(Option<ProviderConstraints>, string)>,
                                    c: (Option<ProviderConstraints>, string))
    requires AccumulateAll(init).Some? && Accumulate(AccumulateAll(init).value, c.0, c.1).Some?
    requires c.0.Some? && c.0.value.allowList != []
    ensures Accumulate(AccumulateAll(init).value, c.0, c.1).value.Some?
    ensures Accumulate(AccumulateAll(init).value, c.0, c.1).value.value.allowList
         == NotExcluded(c.0.value.allowList, init)
  {
    if HasAllowList(init) {
      AccumulatedList(init, "");
      forall p
        ensures p in AccumulateAll(init).value.value.allowList <==> !Excluded(init, p)
      {
        AccumulatedList(init, p);
      }
      IntersectNotExcluded(c.0.value.allowList, AccumulateAll(init).value.value.allowList, init);
    } else {
      NoAllowList(init);
      NoneExcluded(c.0.value.allowList, init);
    }
  }

  /** The patterns of all contributions, one policy's after the other's. */
  function PatternsOf(contributions: seq<(Option<ProviderConstraints>, string)>): seq<string> {
    if contributions == [] then []
    else
      (if contributions[0].0.Some? then contributions[0].0.value.patterns else []) + PatternsOf(contributions[1..])
  }

  lemma {:induction false} PatternsOneMore(init: seq<(Option<ProviderConstraints>, string)>,
                                           c: (Option<ProviderConstraints>, string))
    ensures PatternsOf(init + [c]) == PatternsOf(init) + if c.0.Some? then c.0.value.patterns else []
  {
    if init == [] {
      assert [c][1..] == [];
    } else {
      PatternsOneMore(init[1..], c);
      assert (init + [c])[1..] == init[1..] + [c];
    }
  }

  /** The accumulated patterns are those of all contributions, in the order of the policies. */
  lemma {:induction false} PatternsInOrder(contributions: seq<(Option<ProviderConstraints>, string)>)
    requires AccumulateAll(contributions).Some?
    ensures match AccumulateAll(contributions).value
      case None => PatternsOf(contributions) == []
      case Some(acc) => acc.patterns == PatternsOf(contributions)
  {
    if contributions != [] {
      var init, c := contributions[..|contributions| - 1], contributions[|contributions| - 1];
      assert contributions == init + [c];
      PatternsInOrder(init);
      PatternsOneMore(init, c);
    }
  }

  predicate SaysSomething(sp: Option<ProviderConstraints>) {
    sp.Some? && |sp.value.allowList| + |sp.value.patterns| > 0
  }

  /** The accumulated constraints belong to the first policy that contributed any. */
  lemma {:induction false} OwnedByFirst(contributions: seq<(Option<ProviderConstraints>, string)>, i: nat)
    requires AccumulateAll(contributions).Some? && i < |contributions|
    requires SaysSomething(contributions[i].0) && forall k | 0 <= k < i :: !SaysSomething(contributions[k].0)
    ensures AccumulateAll(contributions).value.Some?
    ensures AccumulateAll(contributions).value.value.setByPolicy == contributions[i].1
  {
    var init := contributions[..|contributions| - 1];
    if i < |init| {
      OwnedByFirst(init, i);
    } else {
      NothingContributed(init);
    }
  }

  lemma {:induction false} NothingContributed(contributions: seq<(Option<ProviderConstraints>, string)>)
    requires forall k | 0 <= k < |contributions| :: !SaysSomething(contributions[k].0)
    ensures AccumulateAll(contributions) == Some(None)
  {
    if contributions != [] {
      NothingContributed(contributions[..|contributions| - 1]);
    }
  }

  /** The set-and-loop intersection of two lists: the second list's order, its duplicates kept. */
  method IntersectStringSlices(a: seq<string>, b: seq<string>) returns (result: seq<string>)
    ensures result == Intersect(b, a)
  {
    var members: set<string> := {};
    for i := 0 to |a|
      invariant members == set s | s in a[..i]
    {
      members := members + {a[i]};
      assert a[..i + 1] == a[..i] + [a[i]];
    }
    assert a[..|a|] == a;
    result := [];
    for i := 0 to |b|
      invariant result == Intersect(b[..i], a)
    {
      IntersectSnoc(b[..i], b[i], a);
      assert b[..i] + [b[i]] == b[..i + 1];
      if b[i] in members {
        result := result + [b[i]];
      }
    }
    assert b[..|b|] == b;
  }
}
