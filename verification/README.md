# A verified model of the DCM policy manager

The policy manager stores prioritised policies, compiles them into an embedded OPA engine, and
evaluates a request by running every enabled policy whose labels match, in order. Each policy may
reject the request, constrain fields with JSON Schema keywords, patch the spec, restrict the service
providers or select one. This project models the code that decides the outcome and proves what holds
over whole evaluations and over whole runs of management calls.

`dafny verify dfyconfig.toml` checks everything (Dafny 4.11).

## What is proved

- **Tightening.** The keyword-by-keyword merge of two constraints accepts exactly what both accept,
  apart from keywords it overrides or cannot read, which are named exactly. Where no policy wrote
  `allOf`, a merge that accepts anything never loosens if and only if it overrides nothing. For bounds,
  fixed values and multiples it refuses a merge exactly when the new argument would accept a value the
  old one rejects.
- **Order independence.** Go visits maps in arbitrary order. A merge fails for all orders or for none,
  and has one result for all orders if and only if no policy-written `allOf` meets a new pattern.
- **Patch checks.** A patch passes exactly when every value at a constrained key path is accepted and
  no two constrained paths share a schema resource; the per-call cache never changes the verdict.
- **Merge patch.** The code's merge equals section 2 of RFC 7396, and is idempotent, if and only if no
  null sits in a patch object that lands on a missing or non-object member.
- **Whole evaluations.** Whatever the policies contribute, what a policy writes respects every keyword
  that a policy up to it demanded with a readable argument, except a keyword without a case of its own
  whose last argument since is another one, and a later pattern that a written `allOf` has dropped.
  Apart from `allOf` itself, exactly these can be lost, for some map order. Every value of the final
  spec other than an object is the request's own or was last written by a policy with these guarantees.
  A fixed value without null members stays or is dropped, and stays at a top-level key unless it is
  null; exactly these values are locked. The selected provider meets the constraints of every policy up
  to its selection. An evaluation without clashes has one possible response, or fails at one policy for
  one reason. An idle policy makes no difference.
- **Answers.** A request ends at the first policy that rejects it, loosens a constraint, names no common
  provider, violates a constraint or selects a provider that is not allowed, and each error is answered
  exactly for its reason and blames the first policy that set the constraint. A response holds the final
  spec, the last selection, and whether the spec changed. When a create, an update or a delete succeeds,
  what it stores, and which error it answers otherwise are stated field by field.
- **Paging.** For every page size, following page tokens yields each selected row once, in order.
- **Store and engine.** After every run of non-overlapping calls each stored policy has a query built
  from its current code. Engine and table differ exactly while a delete whose recompilation failed is
  not repaired. Failed calls change nothing but, at most, an update time.
- **Interleavings.** With many threads, at most one compilation is in progress and lookups linearize.

## Files

| file | models |
|---|---|
| `Json.dfy`, `Schema.dfy`, `FieldPaths.dfy` | JSON values, the meaning of schema keywords, dotted paths |
| `Keywords.dfy`, `KeywordMeaning.dfy`, `KeywordDemands.dfy` | `mergeSchemaKeywords`: the loop, its order, its meaning, what lasts |
| `PatchValidation.dfy`, `Providers.dfy`, `Constraints.dfy` | `ConstraintContext` |
| `MergePatch.dfy` | `mergePatch` and RFC 7396 |
| `Decision.dfy` | `ParsePolicyDecision` |
| `Engine.dfy`, `EngineThreads.dfy` | the embedded engine, alone and under interleaving |
| `Tokens.dfy`, `Store.dfy`, `Paging.dfy` | page tokens, the policy table, listings |
| `Service.dfy`, `ServiceAnswers.dfy`, `ServiceRuns.dfy` | the policy service, its answers and its runs |
| `Evaluation.dfy` | `evaluatePolicy`, `EvaluateRequest` |
| `SchemaRuns.dfy`, `RunSafety.dfy`, `Outcomes.dfy`, `Determinism.dfy`, `EndToEnd.dfy` | whole runs |
| `OrderBy.dfy` | `parseOrderBy` |
| `Wrappers.dfy`, `Text.dfy`, `Traces.dfy` | result types, white space, sequences of states |

Code that updates state in place is a class or a loop here as well, and each such method is proved
against a function or relation on values; the properties are then proved about those. A loop over a
Go map picks the next key arbitrarily.

Libraries are parameters: OPA's parser, compiler and evaluator (`Engines.Opa`), regular expressions
and the schema keywords the merge does not know (`SchemaSemantics.Vocabulary`), the clock and
generated IDs (arguments). Nothing is assumed about them beyond being functions.

## Where the documentation promises more than the code does

- `README.md:589` says a lower-priority policy can never loosen a constraint. A keyword without a case
  of its own, such as `type`, is simply replaced (`KeywordMeaning.OverrideCanLoosen`).
  `KeywordMeaning.TightensExactly` gives the exact condition for merges without a policy-written `allOf`.
- `README.md:601` says that additional patterns are added to the earlier ones. A policy-written `allOf`
  can replace the chain of patterns, and even the pattern of its own policy, depending on map order
  (`KeywordMeaning.ClashCanLosePattern`). `KeywordDemands.PatternArrivesExactly` gives the exact condition
  for one merge, `SchemaRuns.LostExactly` for a whole run, and `RunSafety.WholeRunSafety` what holds anyway.
- `README.md:465` promises RFC 7396 semantics for patches. `MergePatches.EqualsRfcExactly` gives the
  exact condition under which that is so, `MergePatches.DiffersFromRfc` a patch for which it is not.
- Constraints on `a.b` and on `a_b` share one schema resource, so that a patch of both is refused even
  when both values are accepted (`PatchValidation.SharedResourceIsReported`). That adding a resource
  twice is an error is the behaviour of the JSON Schema library.

## Model

| member | source | states |
|---|---|---|
| Keywords.MergeSchemaKeywords | internal/service/constraints.go:228-389 | the keyword loop fails exactly on a conflicting shared keyword, blaming the field's owner; otherwise its result is that of some visiting order, and the order-free `Merged` unless `allOf` and a pattern clash |
| Keywords.MergeKeyword | internal/service/constraints.go:231-386 | one round of the loop is one step of the specified merge |
| Keywords.IntersectAnySlices | internal/service/constraints.go:498-509 | the elements of the first list that are in the second, in order, duplicates kept |
| Keywords.FailsExactly | internal/service/constraints.go:231-386 | for every visiting order, the merge fails exactly if some visited shared keyword conflicts with the original argument |
| Keywords.OrderIrrelevant | internal/service/constraints.go:231-386 | without a clash every visiting order gives the same failure or the same schema |
| KeywordMeaning.MergeMeaning | internal/service/constraints.go:228-389 | the merged schema accepts exactly the values accepted by both, minus the keywords named as overridden or ignored |
| KeywordMeaning.MergeIsIntersection | internal/service/constraints.go:228-389 | on well-typed schemas over the handled keywords the merge is intersection of the accepted values, and stays in that class |
| KeywordMeaning.AllOfMeaning | internal/service/constraints.go:343-359 | chaining a pattern through `allOf` demands the new pattern and everything demanded before |
| KeywordMeaning.MultipleMeaning | internal/service/constraints.go:361-379 | the kept `multipleOf` accepts exactly the multiples of both arguments |
| KeywordMeaning.TightensExactly | internal/service/constraints.go:50-52 | for schemas without a policy-written `allOf`, a merge that accepts anything never loosens, in any vocabulary, if and only if it overrides no keyword |
| KeywordMeaning.Binds | internal/service/constraints.go:227-228 | a value the merged schema accepts satisfies the added schema if and only if the merge ignored none of its keywords |
| KeywordMeaning.RefusesExactlyLoosening | internal/service/constraints.go:241-379 | a fixed value, bound or multiple is refused exactly if the new argument accepts some value the old one rejects |
| KeywordMeaning.RefusesExactlyDisjointEnums | internal/service/constraints.go:254-271 | two enumerations are refused exactly if no value satisfies both |
| KeywordMeaning.BoundsTable | internal/service/constraints.go:273-341 | a lower bound may only increase and an upper bound only decrease, as README.md:593-602 documents; if it does, the new one counts |
| KeywordMeaning.HandledExactly | internal/service/constraints.go:240-384 | besides the bounds, exactly `const`, `enum`, `pattern` and `multipleOf` have a case of their own |
| KeywordMeaning.EnumsInOrder | internal/service/constraints.go:254-271 | two enumerations merge to the values of the earlier one, in its order, that the later one has too |
| KeywordMeaning.OppositeBounds | internal/service/constraints.go:273-341 | what each bound means: a minimum is what the opposite bound rejects, for numbers and for sizes of strings, lists and objects |
| SchemaSemantics.AcceptsExactly | internal/service/constraints.go:241-379 | what the other keywords mean: the fixed value, one of the values, a match, an integer multiple; instances of another type pass |
| SchemaSemantics.OtherTypesPass | internal/service/constraints.go:273-341 | a bound accepts every instance of a type it does not measure |
| SchemaSemantics.ArgumentsCompile | internal/service/constraints.go:415-418 | which arguments compile: any fixed value, lists for enumerations, valid patterns, positive multiples, any number for a bound on numbers |
| SchemaSemantics.AllOfCompiles | internal/service/constraints.go:415-418 | `allOf` compiles exactly with a non-empty list of schemas that compile |
| SchemaSemantics.SizesCompile | internal/service/constraints.go:415-418 | a bound on a size compiles exactly with a natural number |
| KeywordMeaning.OrderMattersExactlyOnClash | internal/service/constraints.go:343-384 | a successful merge has two different results for two orders if and only if a policy-written `allOf` meets a new pattern |
| KeywordDemands.PatternArrivesExactly | internal/service/constraints.go:343-384 | an added pattern is in the merged schema for every order of the keywords if and only if no policy-written `allOf` meets a new pattern, or that `allOf` has the pattern itself |
| KeywordMeaning.ClashHasTwoResults | internal/service/constraints.go:343-384 | on a clash, one order leaves the old pattern and the written `allOf` only, another chains the new pattern behind the written `allOf` |
| KeywordMeaning.OverrideCanLoosen | internal/service/constraints.go:381-384 | a concrete merge accepts a value that the earlier constraint rejects |
| KeywordMeaning.ConstSurvives | internal/service/constraints.go:241-252 | in every order, a merge that succeeds keeps the fixed value |
| KeywordMeaning.ConstArrives | internal/service/constraints.go:241-252 | in every order, a merge that succeeds takes over an added fixed value |
| KeywordMeaning.MergesToUnique | internal/service/constraints.go:228-389 | without a clash, a schema is a possible result exactly if there is no conflict and it is `Merged` |
| FieldPaths.LookupsAreVisits | internal/service/constraints.go:97-125 | every value of the patch at a non-empty key path is met under its dotted path |
| FieldPaths.VisitsAreLookups | internal/service/constraints.go:97-125 | every path and value met comes from a key path of the patch |
| PatchValidation.Validation.GetOrCompileSchema | internal/service/constraints.go:393-421 | the cache, the resource check and the compilation, with the state after each outcome |
| PatchValidation.Validation.ValidatePatchRecursive | internal/service/constraints.go:90-126 | visits exactly the members at every depth, each leaving the specified state |
| PatchValidation.TraceVerdict | internal/service/constraints.go:81-126 | after any order of visits, cached or not, there is no violation exactly if all is well; each violation has a cause, and every bad value is blamed on its field's owner |
| PatchValidation.PatchOkExactly | internal/service/constraints.go:97-125 | a patch passes exactly if every constrained value at a key path is accepted by a schema that compiles, and no two constrained paths share a resource |
| PatchValidation.SameResourceExactly | internal/service/constraints.go:410-414 | two field paths share a schema resource exactly if they have one length and differ only between dots and underscores |
| PatchValidation.PatchPassesExactly | internal/service/constraints.go:81-126 | if no two constrained paths of a patch are alike up to dots and underscores, it passes exactly if each value at a constrained key path is accepted by a schema that compiles |
| PatchValidation.SharedResourceIsReported | internal/service/constraints.go:411-414 | a concrete patch is reported although all its values are accepted |
| Constraints.ConstraintContext.MergeConstraints | internal/service/constraints.go:53-76 | succeeds exactly if no field is refused, whatever the order; the new state field by field, the owners, and the state left by a failure |
| Constraints.ConstraintContext.MergeField | internal/service/constraints.go:60-73 | a first constraint is stored with its owner, a later one merged, a refused one leaves the state |
| Constraints.ConstraintContext.ValidatePatch | internal/service/constraints.go:81-87 | no violation exactly if the patch is fine; each violation names a constrained path of the patch, its owner and a cause, and no bad value is missed |
| Constraints.ConstraintContext.MergeSPConstraints | internal/service/constraints.go:131-166 | the accumulated provider constraints, or failure with nothing changed when both allow lists exist and are disjoint |
| Constraints.ConstraintContext.ValidateServiceProvider | internal/service/constraints.go:169-197 | passes exactly the empty provider and those in the allow list that match every pattern |
| Providers.IntersectStringSlices | internal/service/constraints.go:511-523 | the elements of the second list that are in the first, in order |
| Providers.AccumulateMeaning | internal/service/constraints.go:131-197 | one contribution adds exactly its own demands |
| Providers.ProviderAcceptance | internal/service/constraints.go:131-197 | after any successful contributions a provider passes exactly if it meets all of them, and the list is non-empty exactly if one was contributed |
| Providers.RefusedExactly | internal/service/constraints.go:149-158 | a contribution is refused exactly if both allow lists are non-empty and no provider is in both |
| Providers.RunRefusedExactly | internal/service/constraints.go:149-158 | a run of contributions is refused exactly if some allow list is non-empty and no provider is in every non-empty one |
| Providers.ListInOrder | internal/service/constraints.go:149-160 | the accumulated allow list is the last non-empty one contributed, in its order, without the providers that an earlier one leaves out |
| Providers.PatternsInOrder | internal/service/constraints.go:162-163 | the accumulated patterns are those of all contributions, in the order of the policies |
| Providers.OwnedByFirst | internal/service/constraints.go:137-147 | the accumulated constraints belong to the first policy that contributed a list or a pattern |
| MergePatches.MergePatch | internal/service/evaluation.go:226-256 | in every order of the patch's members, the result is the specified merged object |
| MergePatches.EqualsRfcExactly | internal/service/evaluation.go:223-256 | equals MergePatch of section 2 of RFC 7396 if and only if no null lands inside a new object |
| MergePatches.DiffersFromRfc | internal/service/evaluation.go:249-252 | a concrete patch whose null is stored, where RFC 7396 drops it |
| MergePatches.IdempotentExactly | internal/service/evaluation.go:226-256 | applying a patch twice equals applying it once under exactly the same condition |
| MergePatches.LookupPatched | internal/service/evaluation.go:232-253 | the value at a key path after a patch is the old one, the patch's, a merge of two objects, or gone |
| MergePatches.WriteArrives | internal/service/evaluation.go:232-253 | a value other than an object or null that a patch writes at a key path is there afterwards |
| MergePatches.LeftAlone | internal/service/evaluation.go:232-253 | what a patch does not reach stays as it is |
| Decisions.ParsePolicyDecision | internal/opa/evaluation.go:26-69 | each field is read if it has the right type; lists keep their strings in order |
| Decisions.DecisionOfSaid | internal/opa/evaluation.go:26-69 | a result object that says a decision, member by member, is read back as that decision, lists in order |
| Decisions.StringsExactly | internal/opa/evaluation.go:26-69 | a list is read as exactly its strings, and completely if it holds nothing else |
| Decisions.DecisionSees | internal/opa/evaluation.go:26-69 | each field is taken exactly if it has its type, and is absent otherwise |
| Decisions.ListsSeen | internal/opa/evaluation.go:45-62 | allow list and patterns are read independently of each other; each holds exactly the strings of its list, and nothing without one |
| Engines.EmbeddedEngine.Compile | internal/opa/engine.go:46-94 | all or nothing: the queries of exactly the given modules, or those from before |
| Engines.LastModuleCounts | internal/opa/engine.go:57-61 | of modules with one ID, the last is compiled |
| Engines.EmbeddedEngine.EvaluatePolicy | internal/opa/engine.go:97-129 | a missing query, no result and null are undefined; an evaluation error and a non-object are failures |
| EngineThreads.MutualExclusion | internal/opa/engine.go:33-37 | in every interleaving at most one thread is past the compile lock, and no lookup reads while another thread swaps |
| EngineThreads.LookupsLinearize | internal/opa/engine.go:46-104 | each lookup is answered from one map that was current during it and is empty or the complete result of one successful compilation |
| EngineThreads.HistoryGrows | internal/opa/engine.go:88-91 | published maps and given answers are never taken back |
| EngineThreads.CompileCanFinish | internal/opa/engine.go:46-94 | from every quiet state, a compilation of policies that compile can go through all its steps, and publishes the query of each |
| EngineThreads.CompileCanFail | internal/opa/engine.go:46-94 | from every quiet state, one that does not compile or prepare can end without a trace |
| EngineThreads.LookupCanFinish | internal/opa/engine.go:97-104 | from every quiet state, a lookup can go through all its steps, and answers from the current map |
| Tokens.AtoiOfItoa | internal/store/policy.go:77-122 | exactly the 64-bit integers are read back from their decimal text |
| Tokens.DecodeOfEncode | internal/store/policy.go:75-122 | base64 of every byte string is read back |
| Tokens.EncodedBits | internal/store/policy.go:122 | each group of four characters carries its three bytes, first bits first, and pads those that are missing |
| Tokens.Alphabet | internal/store/policy.go:122 | the alphabet is that of section 4 of RFC 4648 |
| Tokens.UnreadableStartsOver | internal/store/policy.go:72-80 | a token that is missing, empty, not in base64, or not a number in base64 means offset 0 |
| Tokens.SameNumber | internal/store/policy.go:77 | a plus sign and leading zeros do not change the number |
| Tokens.LineEndsSkipped | internal/store/policy.go:75 | line ends within a token are skipped |
| Tokens.TokenRoundTrip | internal/store/policy.go:72-122 | an emitted token is not empty and decodes to its offset |
| Store.ListingUnique | internal/store/policy.go:97-103 | under the default order a set of rows has one listing |
| Store.TextLessExactly | internal/store/policy.go:97-103 | text is ordered by its first difference, a proper prefix first |
| Store.ListingExactly | internal/store/policy.go:83-108 | a row is listed exactly if it is stored and has the type and the flag asked for |
| Store.PageOutside | internal/store/policy.go:105-123 | a negative offset reads from the start but counts from itself; one behind the listing reads an empty last page |
| Store.PolicyStore.Query | internal/store/policy.go:83-108 | the selected rows in ascending order of type, priority and ID |
| Store.PolicyStore.List | internal/store/policy.go:62-126 | the page at the decoded offset, and a token exactly if rows are left |
| Store.PolicyStore.MapUniqueConstraintError | internal/store/policy.go:130-167 | the first violated key in the order ID, display name, priority, if any |
| Store.PolicyStore.Create | internal/store/policy.go:169-174 | rejected exactly on a taken key; otherwise the stamped row is added; the unique keys are kept |
| Store.PolicyStore.Update | internal/store/policy.go:187-201 | not found, rejected exactly on a key of another row, or the mutable fields written; the error is looked up for the row as passed in; the unique keys are kept |
| Store.PolicyStore.Delete | internal/store/policy.go:176-185 | removes the row, or reports that there is none |
| Paging.PagesAreTheListing | internal/store/policy.go:66-125 | for every page size, following tokens from any emitted offset yields the rest of the listing |
| Paging.PagesAreFull | internal/store/policy.go:105-123 | every page but the last is full, and the last is empty only if nothing was left |
| Paging.EveryRowOnce | internal/store/policy.go:62-126 | from the first page on, each selected row is read exactly once, in strictly ascending order |
| Paging.TableBound | internal/store/model/policy.go:12-14 | with two policy types and priorities from 1 to 1000 there are at most 2000 rows |
| Service.APIToDBModel | internal/service/converter.go:16-47 | absent fields get their defaults, present ones their value |
| Service.DBToAPIModel | internal/service/converter.go:50-72 | an empty description or selector becomes an absent field |
| Service.ConvertersInverse | internal/service/converter.go:16-72 | a stored row survives the trip through the API, up to its times |
| Service.MergePolicyOntoPolicy | internal/service/policy.go:291-316 | each mutable field is the patch's if present, everything else the existing policy's |
| Service.PolicyService.RecompileEngine | internal/service/policy.go:117-132 | installs the queries of the whole table if it compiles, otherwise changes nothing |
| Service.PolicyService.CreatePolicy | internal/service/policy.go:136-182 | the state and the answer in each case, the rollback included |
| Service.PolicyService.UpdatePolicy | internal/service/policy.go:385-449 | the state and the answer in each case, the rollback included |
| Service.PolicyService.DeletePolicy | internal/service/policy.go:452-473 | the row goes even if the recompilation fails, and the engine then keeps its queries |
| Service.RollbackAccepted | internal/service/policy.go:429-441 | writing the previous row back is never refused by the unique keys, and restores all but the update time |
| ServiceAnswers.CreateStores | internal/service/policy.go:136-182 | a successful create stores the row the request asks for, with 500, true and empty values for what it leaves out, shows it, and compiles it |
| ServiceAnswers.CreateAnswers | internal/service/policy.go:136-182 | when a create succeeds, and which error it answers otherwise, in the order of the checks |
| ServiceRuns.CompileAllSyncs | internal/service/policy.go:112-114 | a successful CompileAll makes engine and table agree, whatever was before |
| ServiceRuns.Agreement | internal/service/policy.go:117-473 | after every run of calls each stored policy has a query built from its current code; compiled and stored IDs differ if and only if a delete's recompilation failed since the last success |
| ServiceRuns.FailedCallsAreInvisible | internal/service/policy.go:149-175 | a call that answers with an error leaves the queries, and the table up to an update time |
| ServiceAnswers.UpdateAnswers | internal/service/policy.go:385-449 | when an update succeeds, and which error it answers otherwise, in the order of the checks |
| ServiceAnswers.UpdateLeaves | internal/service/policy.go:425-449 | an update that fails leaves all as it was, up to the clock of a rollback; one that succeeds compiles if it has code |
| ServiceAnswers.DeleteAnswers | internal/service/policy.go:452-473 | a delete answers an error exactly if there is no such policy, removes the row, and compiles the rest if it compiles |
| ServiceRuns.UpdateFraming | internal/service/policy.go:401-423 | a successful update: mutable fields are the patch's or the stored ones; ID, type and creation time are kept |
| ServiceRuns.EmptyPatchKeeps | internal/service/policy.go:291-316 | an empty patch succeeds and keeps the row up to its update time |
| ServiceRuns.ReachableTables | internal/service/policy.go:101-109 | every table reachable with the two policy types has consistent keys, priorities in range and at most 2000 rows |
| Evaluations.EvaluatePolicy | internal/service/evaluation.go:133-221 | one policy is a step of the run, or fails for the first reason in the order of the checks |
| Evaluations.EvaluateRequest | internal/service/evaluation.go:56-131 | the paged loop answers like one pass over the applicable policies in order; it reads no more pages than the listing fills, and all of them if it answers a response |
| Outcomes.EvaluatorSees | internal/service/evaluation.go:142-167 | a policy is evaluated on the spec, the provider, and exactly the accumulated schemas and provider lists |
| Outcomes.SeesEarlierConstraints | internal/service/evaluation.go:146-148 | a policy is shown a constraint on a path exactly if an earlier policy contributed one |
| Outcomes.OwnerIsFirst | internal/service/constraints.go:60-73 | a path belongs to the first policy that constrained it, and to none if none did |
| Outcomes.RejectionEnds | internal/service/evaluation.go:173-176 | a rejecting policy ends the evaluation with its reason and nothing else, and only it does |
| Outcomes.EngineFailureEnds | internal/service/evaluation.go:153-160 | a failing evaluation ends it as an engine failure, and only that does |
| Outcomes.LooseningEnds | internal/service/evaluation.go:178-189 | loosening a constraint ends it with a loosened path and that path's owner, and only that does |
| Outcomes.ProviderConflictEnds | internal/service/evaluation.go:191-218 | disjoint allow lists, or selecting a provider that is not allowed, end it as a provider conflict, and only that does |
| Outcomes.ViolationEnds | internal/service/evaluation.go:196-201 | a patch that does not pass ends it with violations that have a cause and an owner, and only that does |
| Outcomes.BlamedIsFirst | internal/service/evaluation.go:178-201 | whoever an error blames for a path is the first policy of the run that constrained it |
| Outcomes.ResponseParts | internal/service/evaluation.go:113-131 | a response has the final spec, the last provider selected or none, which meets the constraints of all policies up to its selection, and is approved exactly if the spec is the request's |
| Outcomes.ResponseMeansNoRejection | internal/service/evaluation.go:89-131 | if a request is answered with a response, no policy of its run rejects, loosens or fails to evaluate |
| Outcomes.RejectionAnswers | internal/service/evaluation.go:173-176 | a request is answered with a rejection exactly if the policy at which its run ends rejects, with that policy's reason |
| EndToEnd.PoliciesInOrder | internal/service/evaluation.go:72-95 | a request runs through exactly the enabled matching policies, by type and strictly increasing priority |
| EndToEnd.RequestsUseStoredCode | internal/service/evaluation.go:153-167 | after every run of calls, no policy of a request is skipped for want of a query, and each query has the stored code |
| EndToEnd.TwoListCalls | internal/service/evaluation.go:73-111 | on every table reachable with the two policy types, so many List calls as EvaluateRequest makes are at most two |
| EndToEnd.PrecedenceIsRespected | internal/service/evaluation.go:178-209 | in an answered request, what a policy writes satisfies the schema of every policy of higher precedence, apart from `Lost` keywords |
| EndToEnd.UserRespectsGlobal | internal/service/evaluation.go:178-209 | the same for a USER policy and every GLOBAL one; the whole schema if it is well-typed and its pattern is not lost |
| EndToEnd.AnsweredSpec | internal/service/evaluation.go:178-209 | every value of an answered spec other than an object is the request's own, or was last written by a policy and satisfies the schema of every policy of higher precedence, apart from `Lost` keywords |
| RunSafety.StepWrites | internal/service/evaluation.go:178-209 | a written value satisfies the schema accumulated up to and with the same policy |
| RunSafety.WrittenStays | internal/service/evaluation.go:202-208 | a value other than an object or null that a policy writes is in the spec for as long as no later patch reaches it |
| RunSafety.ValueStays | internal/service/evaluation.go:202-208 | a value of the spec is still there if no policy in between reaches it |
| SchemaRuns.AccumulatedMeaning | internal/service/constraints.go:53-76 | along a run the accumulated schema of a field accepts exactly what every contribution accepts, unless something was overridden, ignored or clashed |
| SchemaRuns.WellTypedRunMeaning | internal/service/constraints.go:53-76 | along well-typed contributions the accumulated schema of a field accepts exactly what all of them accept |
| SchemaRuns.AccumulatedRespects | internal/service/constraints.go:228-389 | for every run and every map order, what the accumulated schema accepts satisfies each contribution so far, apart from `Lost` keywords: those without a case of their own that were last given another argument, later patterns dropped by a written `allOf` and not set again, unreadable arguments where an earlier one is readable |
| SchemaRuns.LostExactly | internal/service/constraints.go:343-384 | a readable pattern, or a keyword without a case of its own other than `allOf`, is `Lost` if and only if some order of the merges ends without it |
| SchemaRuns.PatternIsKept | internal/service/constraints.go:343-359 | a readable pattern is not lost if it is the first on its path, or if no policy since writes `allOf` |
| RunSafety.WholeRunSafety | internal/service/evaluation.go:178-209 | for policies i up to j of any run, a value j writes at a path i constrained satisfies i's own schema, apart from `Lost` keywords; no assumption about the policies |
| RunSafety.WellTypedRunSafety | internal/service/evaluation.go:178-209 | if i's schema uses handled keywords with arguments of the right type, what j writes satisfies i's whole schema, unless i's pattern is lost |
| RunSafety.FinalSpec | internal/service/evaluation.go:178-209 | a value of the final spec other than an object was there from the start, or some policy j wrote it, it was not changed since, and it satisfies the schemas of all policies up to j, apart from `Lost` keywords |
| RunSafety.Lock | internal/service/evaluation.go:179-204 | a value without null members that the spec holds where `const` fixes it stays, or is absent, to the end of every run; at a top-level key it stays unless it is null |
| RunSafety.SetAndLocked | internal/service/evaluation.go:178-209 | a policy that writes a scalar other than null to a top-level key and fixes it with `const` determines that key to the end of every run, as documented at README.md:479-495 |
| RunSafety.LockExactly | internal/service/evaluation.go:178-209 | at a top-level key, every step keeps or drops the fixed value if and only if it has no null member, and keeps it if and only if it is also not null |
| RunSafety.AccumulatedProviders | internal/service/evaluation.go:191-194 | along a run a provider is allowed exactly if it meets the provider constraints of every policy so far |
| RunSafety.SelectedProvider | internal/service/evaluation.go:211-220 | the provider is the last one selected, or empty, and meets the provider constraints of every policy up to its selection |
| Determinism.ContextUnique | internal/service/constraints.go:53-76 | without a clash, a policy's constraints lead to one context only, whatever the map order |
| Determinism.SameStates | internal/service/evaluation.go:89-105 | two runs from the same state over the same policies agree as far as both go, if the first has no clash |
| Determinism.AnswerUnique | internal/service/evaluation.go:56-131 | if one evaluation of a request has no clash, every evaluation of it gives the same response, or fails at the same policy with the same error, up to which of several conflicts or violations is reported |
| Determinism.InertPolicyCanGo | internal/service/evaluation.go:163-189 | a policy that is undefined or decides nothing can be left out of a run without changing its states |
| Determinism.InertPolicyAnswer | internal/service/evaluation.go:163-189 | leaving such a policy out keeps the response or the failure of an evaluation possible |
| Determinism.IdlePolicyAnswer | internal/service/evaluation.go:163-189 | so does putting in a policy that is undefined or decides nothing where the run reaches it |
| Determinism.IdlePolicyIsInvisible | internal/service/evaluation.go:163-189 | with and without a policy that is always undefined or decides nothing, a request has the same possible answers |
| OrderBy.ParseOrderBy | internal/service/orderby.go:33-93 | the canonical text of the parameter, or an error |
| OrderBy.RoundTrip | internal/service/orderby.go:38-93 | every non-empty list of supported fields with directions is read back from its canonical text |
| Text.WhiteSpace | internal/service/orderby.go:42-48 | white space is exactly what has the White_Space property of Unicode |
| OrderBy.ShownInOrder | internal/service/orderby.go:85-92 | the canonical text shows the terms in order, each as field, space and direction, with a comma and a space between them |
| OrderBy.SplitExactly | internal/service/orderby.go:38-39 | the pieces between commas, put back together, are the parameter, and have no comma |
| OrderBy.TermsInOrder | internal/service/orderby.go:42-86 | the terms of a list of pieces are those of its parts, in order; blank pieces have none |
| OrderBy.LoneField | internal/service/orderby.go:54-63 | a field without a direction is ascending |
| OrderBy.FieldAndDirection | internal/service/orderby.go:54-83 | a field with a direction, in capitals or not, is that field in that direction |
| OrderBy.TermsFailExactly | internal/service/orderby.go:39-86 | a parameter is refused exactly if one of its terms is |
| OrderBy.DefaultOrder | internal/service/orderby.go:88-90 | a parameter without terms means the default order |
| OrderBy.BlankExactly | internal/service/policy.go:53-73 | text is blank exactly if nothing is left when white space is trimmed |
| OrderBy.CanonicalIsFixed | internal/service/orderby.go:33-93 | what a parameter is brought into has only supported fields and directions, and is brought into itself |

## Left out

- Keyword meanings that look at other keywords (`additionalProperties`, `$ref`): an unknown keyword is a function of its own argument and the instance.
- The meta-schema beyond the type of each keyword's argument, and characters of field paths that mean something in a URL.
- Floating point and textual variants of numbers: numbers are exact and canonical.
- Aliasing and nil maps: maps, lists and rows are values, so that a copy never shares memory and an absent service instance is an empty one.
- Text of error messages and log output.
- OPA's own semantics, and policies that give different answers for the same input.
- Database errors other than unique keys and missing rows; in particular a rollback write that fails, which the service only logs, and a failing `ListAll`, which has the effect of a failing compilation.
- Collation: text is ordered by code point.
- Overlapping calls of create, update and delete: the table is read outside the compile lock.
- Listings with a custom `order_by`, where ties have no fixed order; the filter expression; page sizes above 1000 at the service level.
- Store.PolicyStore.ListAll: states the set of rows, not their order by ID, on which compilation does not depend.
- Waiting writers that hold back new readers of the read-write lock: the model allows more interleavings.
- Evaluations.EvaluateRequest: asks for a listing shorter than 2^63 rows, so that offsets stay within Go's `int`.
- HTTP servers, handlers, generated code, configuration and logging.
