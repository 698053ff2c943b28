/**
 ConstraintContext: the constraints that the policies evaluated so far have set, merged field by
 field, and the checks of a patch and of a provider against them.
 */
module Constraints {
  import opened Wrappers
  import opened JsonValues
  import opened SchemaSemantics
  import opened Keywords
  import opened FieldPaths
  import opened PatchValidation
  import opened Decisions
  import Providers

  /** The abstract value of a ConstraintContext. */
  datatype Context = Context(
    schemas: map<string, Fields>,
    setBy: map<string, string>,
    providers: Option<Providers.Accumulated>)

  const EMPTY_CONTEXT := Context(map[], map[], None)

  // ----- Merging constraints

  /** The field paths a policy constrains: entries that are not objects are skipped. */
  function Constrained(added: Fields): set<string> {
    set p | p in added && added[p].Obj?
  }

  /** The field paths whose merge is refused. */
  function Refused(schemas: map<string, Fields>, added: Fields): set<string> {
    set p | p in Constrained(added) && p in schemas && Conflicts(schemas[p], added[p].fields)
  }

  /** The accumulated schemas may become `after` when the constraints at `paths` are merged. */
  ghost predicate MergedSchemas(schemas: map<string, Fields>, added: Fields, paths: set<string>,
                                after: map<string, Fields>)
    requires paths <= Constrained(added)
  {
    && after.Keys == schemas.Keys + paths
    && forall p | p in after ::
         if p !in paths then after[p] == schemas[p]
         else if p !in schemas then after[p] == added[p].fields
         else MergesTo(schemas[p], added[p].fields, after[p])
  }

  /** A field belongs to the first policy that constrained it. */
  function Owners(setBy: map<string, string>, paths: set<string>, policyID: string): map<string, string> {
    map p | p in setBy.Keys + paths :: if p in setBy then setBy[p] else policyID
  }

  /** A successful merge of one policy's constraints. */
  ghost predicate MergedContext(c: Context, added: Fields, policyID: string, after: Context) {
    && MergedSchemas(c.schemas, added, Constrained(added), after.schemas)
    && after.setBy == Owners(c.setBy, Constrained(added), policyID)
    && after.providers == c.providers
  }

  lemma FieldUntouched(before: map<string, Fields>, added: Fields, done: set<string>, schemas: map<string, Fields>,
                       p: string)
    requires done <= Constrained(added) && p !in done && MergedSchemas(before, added, done, schemas)
    ensures p in schemas <==> p in before
    ensures p in schemas ==> schemas[p] == before[p]
  {
  }

  lemma FieldMerged(before: map<string, Fields>, added: Fields, done: set<string>, schemas: map<string, Fields>,
                    p: string, merged: Fields)
    requires done <= Constrained(added) && p in Constrained(added) && p !in done
    requires MergedSchemas(before, added, done, schemas)
    requires if p in before then MergesTo(before[p], added[p].fields, merged) else merged == added[p].fields
    ensures MergedSchemas(before, added, done + {p}, schemas[p := merged])
  {
  }

  lemma OwnersOneMore(setBy: map<string, string>, done: set<string>, p: string, policyID: string)
    requires p !in done
    ensures var owners := Owners(setBy, done, policyID);
      && (p in owners <==> p in setBy) && (p in owners ==> owners[p] == setBy[p])
      && Owners(setBy, done + {p}, policyID) == (if p in setBy then owners else owners[p := policyID])
  {
    var owners, more := Owners(setBy, done, policyID), Owners(setBy, done + {p}, policyID);
    if p in setBy {
      assert more == owners;
    } else {
      assert more == owners[p := policyID];
    }
  }

  class ConstraintContext {
    var schemas: map<string, Fields>
    var setBy: map<string, string>
    var providers: Option<Providers.Accumulated>

    constructor ()
      ensures Value() == EMPTY_CONTEXT && Valid()
    {
      schemas, setBy, providers := map[], map[], None;
    }

    function Value(): Context
      reads this
    {
      Context(schemas, setBy, providers)
    }

    /** Every constrained field has an owner. */
    predicate Valid()
      reads this
    {
      schemas.Keys == setBy.Keys
    }

    /**
     Merges a policy's constraints, in whatever order the map yields them. It fails exactly when
     some field is refused, whatever the order; the fields visited before stay merged then.
     */
    method MergeConstraints(added: Fields, policyID: string) returns (r: Outcome<Conflict>)
      requires Valid()
      modifies this
      ensures Valid()
      ensures r.Pass? <==> Refused(old(schemas), added) == {}
      ensures r.Pass? ==> MergedContext(old(Value()), added, policyID, Value())
      ensures r.Fail? ==>
        && r.error.fieldPath in Refused(old(schemas), added)
        && r.error.setByPolicy == old(setBy)[r.error.fieldPath]
        && providers == old(providers)
        && exists done | done <= Constrained(added) - Refused(old(schemas), added) ::
             MergedSchemas(old(schemas), added, done, schemas) && setBy == Owners(old(setBy), done, policyID)
    {
      ghost var before, owners := schemas, setBy;
      ghost var refused := Refused(schemas, added);
      var todo := added.Keys;
      ghost var done: set<string> := {};
      while todo != {}
        invariant Valid() && providers == old(providers)
        invariant todo <= added.Keys && done == Constrained(added) - todo
        invariant done !! refused
        invariant MergedSchemas(before, added, done, schemas)
        invariant setBy == Owners(owners, done, policyID)
        decreases todo
      {
        var fieldPath :| fieldPath in todo;
        todo := todo - {fieldPath};
        if !added[fieldPath].Obj? {
          continue;
        }
        var newConstraint := added[fieldPath].fields;
        ghost var was := schemas;
        FieldUntouched(before, added, done, schemas, fieldPath);
        OwnersOneMore(owners, done, fieldPath, policyID);
        var conflict := MergeField(fieldPath, newConstraint, policyID);
        if conflict.Fail? {
          assert fieldPath in refused && done <= Constrained(added) - refused;
          return conflict;
        }
        FieldMerged(before, added, done, was, fieldPath, schemas[fieldPath]);
        done := done + {fieldPath};
      }
      assert done == Constrained(added);
      assert refused <= Constrained(added);
      r := Pass;
    }

    /** The constraint of one field: stored if it is the first, merged otherwise. */
    method MergeField(fieldPath: string, newConstraint: Fields, policyID: string) returns (r: Outcome<Conflict>)
      requires Valid()
      modifies this
      ensures Valid() && providers == old(providers)
      ensures r.Fail? <==> fieldPath in old(schemas) && Conflicts(old(schemas)[fieldPath], newConstraint)
      ensures r.Fail? ==>
        && schemas == old(schemas) && setBy == old(setBy)
        && fieldPath in setBy && r.error == Conflict(fieldPath, setBy[fieldPath])
      ensures r.Pass? ==> fieldPath in schemas && schemas == old(schemas)[fieldPath := schemas[fieldPath]]
      ensures r.Pass? && fieldPath in old(schemas) ==>
        MergesTo(old(schemas)[fieldPath], newConstraint, schemas[fieldPath]) && setBy == old(setBy)
      ensures r.Pass? && fieldPath !in old(schemas) ==>
        schemas[fieldPath] == newConstraint && setBy == old(setBy)[fieldPath := policyID]
    {
      if fieldPath !in schemas {
        schemas := schemas[fieldPath := newConstraint];
        setBy := setBy[fieldPath := policyID];
        return Pass;
      }
      var merged := MergeSchemaKeywords(schemas[fieldPath], newConstraint, fieldPath, setBy[fieldPath]);
      if merged.Err? {
        return Fail(merged.error);
      }
      schemas := schemas[fieldPath := merged.value];
      r := Pass;
    }

    /** No violation is reported exactly when the patch is fine, whatever the order; each one has a cause. */
    method ValidatePatch(voc: Vocabulary, patch: Fields) returns (violations: seq<Violation>)
      requires Valid()
      ensures violations == [] <==> PatchOk(voc, schemas, patch)
      ensures BlamesRightly(voc, schemas, setBy, Visits("", patch), violations)
    {
      var validation := new Validation();
      ghost var trace := validation.ValidatePatchRecursive(voc, schemas, setBy, "", patch);
      TraceVerdict(voc, schemas, setBy, trace);
      violations := validation.violations;
    }

    /** Intersects the allow lists and appends the patterns; fails when the lists are disjoint. */
    method MergeSPConstraints(sp: Option<ProviderConstraints>, policyID: string) returns (r: Outcome<string>)
      modifies this`providers
      ensures r.Pass? <==> Providers.Accumulate(old(providers), sp, policyID).Some?
      ensures r.Pass? ==> Providers.Accumulate(old(providers), sp, policyID) == Some(providers)
      ensures r.Fail? ==> providers == old(providers) && r.error == policyID
    {
      if sp.None? {
        return Pass;
      }
      var allowList, patterns := sp.value.allowList, sp.value.patterns;
      if |allowList| == 0 && |patterns| == 0 {
        return Pass;
      }
      if providers.None? {
        providers := Some(Providers.Accumulated(allowList, patterns, policyID));
        return Pass;
      }
      if |allowList| > 0 && |providers.value.allowList| > 0 {
        var intersected := Providers.IntersectStringSlices(providers.value.allowList, allowList);
        if |intersected| == 0 {
          return Fail(policyID);
        }
        providers := Some(providers.value.(allowList := intersected));
      } else if |allowList| > 0 {
        providers := Some(providers.value.(allowList := allowList));
      }
      providers := Some(providers.value.(patterns := providers.value.patterns + patterns));
      r := Pass;
    }

    /** The empty provider always passes. */
    method ValidateServiceProvider(voc: Vocabulary, provider: string) returns (ok: bool)
      ensures ok <==> provider == "" || Providers.Allowed(voc, providers, provider)
    {
      if providers.None? || provider == "" {
        return true;
      }
      var sp := providers.value;
      if |sp.allowList| > 0 && provider !in sp.allowList {
        return false;
      }
      for i := 0 to |sp.patterns|
        invariant forall j | 0 <= j < i :: voc.regexValid(sp.patterns[j]) && voc.regexMatches(sp.patterns[j], provider)
      {
        if !voc.regexValid(sp.patterns[i]) || !voc.regexMatches(sp.patterns[i], provider) {
          return false;
        }
      }
      return true;
    }
  }

  /** The constraints as a policy sees them in its input; absent before the first one. */
  function ConstraintsMap(c: Context): Option<map<string, Fields>> {
    if |c.schemas| == 0 then None else Some(c.schemas)
  }

  /** The provider constraints as a policy sees them in its input. */
  function ProviderConstraintsMap(c: Context): Option<(seq<string>, seq<string>)> {
    if c.providers.None? then None else Some((c.providers.value.allowList, c.providers.value.patterns))
  }
}
