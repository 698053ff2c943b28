/** The decision a policy returns, read from the object that OPA evaluated its main rule to. */
module Decisions {
  import opened Wrappers
  import opened JsonValues

  datatype ProviderConstraints = ProviderConstraints(allowList: seq<string>, patterns: seq<string>)

  datatype PolicyDecision = PolicyDecision(
    rejected: bool,
    rejectionReason: string,
    patch: Option<Fields>,
    constraints: Option<Fields>,
    providerConstraints: Option<ProviderConstraints>,
    selectedProvider: string)

  const NO_DECISION := PolicyDecision(false, "", None, None, None, "")

  /** The strings of a list, in order; items of other types are skipped. */
  function Strings(items: seq<Json>): seq<string> {
    if items == [] then []
    else Strings(items[..|items| - 1]) +
         (if items[|items| - 1].Str? then [items[|items| - 1].s] else [])
  }

  function StringField(result: Fields, name: string): string {
    if name in result && result[name].Str? then result[name].s else ""
  }

  function ObjectField(result: Fields, name: string): Option<Fields> {
    if name in result && result[name].Obj? then Some(result[name].fields) else None
  }

  function ListField(result: Fields, name: string): seq<string> {
    if name in result && result[name].Arr? then Strings(result[name].items) else []
  }

  /** What the decision is, field by field. */
  function Decision(result: Fields): PolicyDecision {
    PolicyDecision(
      "rejected" in result && result["rejected"] == Bool(true),
      StringField(result, "rejection_reason"),
      ObjectField(result, "patch"),
      ObjectField(result, "constraints"),
      match ObjectField(result, "service_provider_constraints")
      case None => None
      case Some(spc) => Some(ProviderConstraints(ListField(spc, "allow_list"), ListField(spc, "patterns"))),
      StringField(result, "selected_provider"))
  }

  /** A list read back: exactly its strings, and all of a list of strings. */
  lemma {:induction false} StringsExactly(items: seq<Json>, x: string)
    ensures x in Strings(items) <==> Str(x) in items
    ensures (forall item | item in items :: item.Str?) ==>
      |Strings(items)| == |items| && forall i | 0 <= i < |items| :: items[i] == Str(Strings(items)[i])
  {
    if items != [] {
      var init, last := items[..|items| - 1], items[|items| - 1];
      assert items == init + [last];
      StringsExactly(init, x);
    }
  }

  function StringItems(list: seq<string>): Json {
    Arr(seq(|list|, i requires 0 <= i < |list| => Str(list[i])))
  }

  function Member(result: Fields, name: string): Option<Json> {
    if name in result then Some(result[name]) else None
  }

  function ObjectMember(fields: Option<Fields>): Option<Json> {
    match fields case None => None case Some(f) => Some(Obj(f))
  }

  /** The result object says what the decision is; absent parts are absent members. */
  predicate Says(result: Fields, d: PolicyDecision) {
    && Member(result, "rejected") == Some(Bool(d.rejected))
    && Member(result, "rejection_reason") == Some(Str(d.rejectionReason))
    && Member(result, "patch") == ObjectMember(d.patch)
    && Member(result, "constraints") == ObjectMember(d.constraints)
    && Member(result, "selected_provider") == Some(Str(d.selectedProvider))
    && match (Member(result, "service_provider_constraints"), d.providerConstraints)
       case (None, None) => true
       case (Some(Obj(spc)), Some(lists)) =>
         && Member(spc, "allow_list") == Some(StringItems(lists.allowList))
         && Member(spc, "patterns") == Some(StringItems(lists.patterns))
       case _ => false
  }

  /** A decision is read back as it was meant. */
  lemma {:induction false} DecisionOfSaid(result: Fields, d: PolicyDecision)
    requires Says(result, d)
    ensures Decision(result) == d
  {
    if d.providerConstraints.Some? {
      StringsOfItems(d.providerConstraints.value.allowList);
      StringsOfItems(d.providerConstraints.value.patterns);
    }
  }

  /** Where the result object says nothing, or something of another type, the decision says nothing. */
  lemma DecisionSees(result: Fields)
    ensures var d := Decision(result);
      && (d.rejected <==> Member(result, "rejected") == Some(Bool(true)))
      && (forall x | x != "" :: d.rejectionReason == x <==> Member(result, "rejection_reason") == Some(Str(x)))
      && (forall x | x != "" :: d.selectedProvider == x <==> Member(result, "selected_provider") == Some(Str(x)))
      && (forall p :: d.patch == Some(p) <==> Member(result, "patch") == Some(Obj(p)))
      && (forall c :: d.constraints == Some(c) <==> Member(result, "constraints") == Some(Obj(c)))
      && (d.providerConstraints.Some? <==>
            exists spc :: Member(result, "service_provider_constraints") == Some(Obj(spc)))
  {
  }

  /** Each list of provider constraints is read on its own; one that is missing or no list is empty. */
  lemma ListsSeen(result: Fields, spc: Fields)
    requires Member(result, "service_provider_constraints") == Some(Obj(spc))
    ensures var lists := Decision(result).providerConstraints.value;
      && (match Member(spc, "allow_list")
          case Some(Arr(items)) => forall x :: x in lists.allowList <==> Str(x) in items
          case _ => lists.allowList == [])
      && (match Member(spc, "patterns")
          case Some(Arr(items)) => forall x :: x in lists.patterns <==> Str(x) in items
          case _ => lists.patterns == [])
  {
    forall name: string, x | name in spc && spc[name].Arr?
      ensures x in Strings(spc[name].items) <==> Str(x) in spc[name].items
    {
      StringsExactly(spc[name].items, x);
    }
  }

  lemma StringsOfItems(list: seq<string>)
    ensures Strings(StringItems(list).items) == list
  {
    StringsExactly(StringItems(list).items, "");
  }

  method ParsePolicyDecision(result: Fields) returns (decision: PolicyDecision)
    ensures decision == Decision(result)
  {
    decision := NO_DECISION;
    if "rejected" in result && result["rejected"].Bool? {
      decision := decision.(rejected := result["rejected"].b);
    }
    if "rejection_reason" in result && result["rejection_reason"].Str? {
      decision := decision.(rejectionReason := result["rejection_reason"].s);
    }
    if "patch" in result && result["patch"].Obj? {
      decision := decision.(patch := Some(result["patch"].fields));
    }
    if "constraints" in result && result["constraints"].Obj? {
      decision := decision.(constraints := Some(result["constraints"].fields));
    }
    if "service_provider_constraints" in result && result["service_provider_constraints"].Obj? {
      var lists := ParseProviderConstraints(result["service_provider_constraints"].fields);
      decision := decision.(providerConstraints := Some(lists));
    }
    if "selected_provider" in result && result["selected_provider"].Str? {
      decision := decision.(selectedProvider := result["selected_provider"].s);
    }
  }

  method ParseProviderConstraints(spc: Fields) returns (lists: ProviderConstraints)
    ensures lists == ProviderConstraints(ListField(spc, "allow_list"), ListField(spc, "patterns"))
  {
    lists := ProviderConstraints([], []);
    if "allow_list" in spc && spc["allow_list"].Arr? {
      var allowList := AppendStrings(lists.allowList, spc["allow_list"].items);
      lists := lists.(allowList := allowList);
    }
    if "patterns" in spc && spc["patterns"].Arr? {
      var patterns := AppendStrings(lists.patterns, spc["patterns"].items);
      lists := lists.(patterns := patterns);
    }
  }

  method AppendStrings(list: seq<string>, items: seq<Json>) returns (extended: seq<string>)
    ensures extended == list + Strings(items)
  {
    extended := list;
    for i := 0 to |items|
      invariant extended == list + Strings(items[..i])
    {
      assert items[..i + 1][..i] == items[..i];
      if items[i].Str? {
        extended := extended + [items[i].s];
      }
    }
    assert items[..|items|] == items;
  }
}
