# agen: verified models

agen compiles AsyncAPI 3 documents to Go code. This project models the parts of it whose correctness
is a property of unbounded inputs or runs, and proves those properties. `dafny verify dfyconfig.toml`
checks everything. Code that computes values is modelled by functions; code that updates fields,
arrays or local variables in loops is modelled by classes and methods, each proved equal to (or
against) a specification about which the main theorems are stated.

| files | part of agen |
|---|---|
| `Schema`, `AllOf`, `AllOfProofs`, `FlattenProofs`, `AllOfLimits`, `NestedLimits`, `MergeSuccess`, `FlattenSuccess`, `AllOfLoops` | merging of `allOf` into one schema |
| `OneOf` | telling the variants of a `oneOf` apart |
| `Expand`, `ExpandProofs`, `ExpandRefFree`, `ExpandLimits`, `Expander` | in-place expansion of internal `$ref`s |
| `RedisStreams`, `RedisProofs`, `RedisLoops` | the at-least-once Redis Streams consumer, reclaimer and dead letters |
| `Graphs`, `IrTypes`, `IrValidation`, `IrRecursion`, `IrBoxing`, `IrEngine` | walks over the cyclic type graph |
| `Utf8`, `RegexText`, `RegexParser`, `RegexProofs`, `RegexMeaning` | the copy-avoiding ECMA-262 pattern converter |
| `Duration`, `DurationBuffer` | the right-to-left duration printer |
| `Equality`, `UniqueItems` | emitted `Equal` and `Hash`, and the bucketed search for duplicates |
| `JsonEqual`, `JsonEqualProofs`, `JsonCompare` | streaming JSON equality |
| `Bits`, `RequiredFields` | the bit mask of required fields |
| `Naming`, `ValueNames`, `Strconv` | names from arbitrary text, and collision-free names of enum values |

What the main theorems are about:

- **allOf.** `Accepts` gives a schema its meaning, the JSON values it accepts (JSON Schema Validation
  draft-07, sections 6.1 to 6.7). A successful merge accepts the intersection, at every depth, for the
  schemas described by `Mergeable`. For each keyword that `Mergeable` shuts out because the code handles
  it lossily, `AllOfLimits` and `NestedLimits` say exactly when the result is still right, on a family of
  schemas made of that keyword. What stands beside or below a nested `allOf` may be anything; there the
  condition is that the rest implies what is dropped, and it is decided for types with nullable flags
  (beside and below) and for upper bounds (beside). (A schema with `patternProperties` is inside: it merges only with one
  that says nothing, and is refused otherwise.) When there is a result at all is decided on the inputs
  alone, in `MergeSuccess` for two schemas and in `FlattenSuccess` for lists.
- **$ref.** The meaning of a document is its unfolding, infinite for recursive schemas. `Sees` observes
  it at any finite position. Pointers are resolved in the tree that is being rewritten, so the proof
  carries a relation between the original and every intermediate tree.
- **Redis.** Any interleaving of any number of reader and reclaimer loops, with commands that fail or
  whose reply is lost and processes that crash between any two steps, is a list of steps; the theorems
  hold of every such list. The loops of reader and
  reclaimer are proved to make exactly those steps, with all other loops free to move before each of them.
- **Type graph.** Reachability and closure are stated on the graph of the objects themselves; the
  recursive methods, each with its own treatment of visited nodes, are proved against them.
- **Converter.** `RegexText` is the converter that appends everything it produces; the parser object,
  which copies nothing while the output equals a prefix of the input, is proved to do the same.
  `RegexMeaning` reads back, with a reader of its own, what replaced pieces stand for.

Where the code departs from what its comments or the standards say, the model follows the code:

- Merging drops `exclusiveMaximum` (it is stored in the first input), the merged elements of tuples,
  required names that no property has, the keywords beside a nested `allOf`, and the members of an
  `allOf` that is the only member of another; `exclusiveMinimum` and `nullable` are combined with "or";
  what a side says of additional properties is not applied to the properties of the other side, and an
  item schema for arrays is lost beside `additionalProperties`. A type beside
  a one-member `allOf` is dropped if the member has a type. If the left side lists a property twice,
  `mergeProperties` panics: the outcome `IndexPanic`.
- `Expand` copies a target that is a sequence or itself a reference as it stands. Where "$ref" holds a
  reference to a pointer, as in `{a: {$ref: {$ref: "#/b"}}, b: "#/c"}`, replacing it makes a new reference,
  and the unfolding changes.
- The converter writes an octal escape as `\x` and hexadecimal digits without braces, of which RE2 reads
  two: from `\400` on the escape means another character and literal digits. `[]` and `[^]` end at U+1FFFF
  where Unicode does not.
- `engine.go` marks a struct as checked before it checks it, so a struct whose check failed counts as
  checked afterwards.
- The JSON `Equal` counts members of the right side, so with a duplicate key there it is wrong for some
  left side, and depends on the order of its arguments.
- `valueMappingNameGen` panics if the first strategy names all values and one of them starts with U+FFFD,
  well-formed or decoded from a malformed byte, unless it comes to a value that starts with a named
  character first (it looks at them in any order). `Choose` returns `Panic`.

## Model

| member | source | states |
|---|---|---|
| AllOf.Merge | internal/lowering/schema_gen_sum.go:1426-1792 | mergeSchemes on all schema trees: a result is never larger than both inputs together, which makes the recursion through already merged schemas terminate; MergeSuccess says when there is one |
| AllOf.MergeAll | internal/lowering/schema_gen_sum.go:1407-1424 | mergeNSchemes terminates, and its result is never larger than its inputs together |
| AllOf.MergeProperties | internal/lowering/schema_gen_sum.go:1794-1851 | the merged property list is never larger than both lists together |
| AllOfProofs.MergeEnumsIsIntersection | internal/lowering/schema_gen_sum.go:1853-1885 | merging enums fails if and only if both are present and disjoint, and otherwise allows exactly the values both allow |
| AllOfProofs.NoValidatorsAcceptEverything | internal/lowering/schema_gen_sum.go:1542-1582 | a side that mergeSchemes drops for want of validators accepts every value |
| AllOfProofs.AbsorbIsConjunction | internal/lowering/schema_gen_sum.go:1820-1841 | taking one more property into a list, in place or at the end, asks of every object what the list and the property asked together |
| AllOfProofs.MergeIsConjunction | internal/lowering/schema_gen_sum.go:1426-1885 | whenever merging two schemas of the exact fragment succeeds, the result accepts a value if and only if both accept it, at every depth, and is again in the fragment |
| AllOfProofs.MergeAllIsConjunction | internal/lowering/schema_gen_sum.go:1407-1424 | the same for a list of any length |
| FlattenProofs.MergedTypes | internal/lowering/schema_gen_sum.go:1590-1603 | a merge names no type that no input or member of its allOf lists names |
| FlattenProofs.FlattenKeepsMeaning | internal/lowering/schema_gen_sum.go:1339-1405 | the flattened schema accepts exactly the values accepted by every allOf member and by the keywords beside allOf |
| FlattenProofs.OrderIsIrrelevant | internal/lowering/schema_gen_sum.go:1379-1424 | two orders of an allOf list that both flatten accept the same values |
| MergeSuccess.MergeSucceeds | internal/lowering/schema_gen_sum.go:1426-1885 | for all schemas without allOf and without repeated property names, merging succeeds if and only if nothing is at odds in the two: a side is silent, or types, formats, defaults, constants and patterns are equal or absent on one side, multipleOf is equal, enums meet, at most one side has a discriminator, a oneOf, an anyOf, tuples are of one length, additionalProperties are equal or absent on one side, there are no pattern properties, and the same holds of element schemas, tuple elements and properties of one name; the result is again of that kind |
| MergeSuccess.CompatibleBothWays | internal/lowering/schema_gen_sum.go:1426-1885 | whether a merge succeeds does not depend on the order |
| MergeSuccess.MergeAnnotations | internal/lowering/schema_gen_sum.go:1626-1671 | a merge of two schemas that say something keeps the default and the discriminator of either side and loses XML name and extensions |
| FlattenSuccess.Stands | internal/lowering/schema_gen_sum.go:1407-1424 | the merge of two schemas is at odds with exactly the lists of schemas that the two together are at odds with |
| FlattenSuccess.MergeAllSucceeds | internal/lowering/schema_gen_sum.go:1407-1424 | without tuples and additional properties a list of any length merges if and only if every two of its schemas agree, all enums have a value in common, and the same holds of all element schemas and of all properties of one name, taken together |
| FlattenSuccess.NestedSucceeds | internal/lowering/schema_gen_sum.go:1526-1537 | merging two schemas of which either may be an allOf list succeeds if and only if nothing is at odds in both lists together; what stands beside a list is at odds with nothing |
| FlattenSuccess.FlattenSucceeds | internal/lowering/schema_gen_sum.go:1339-1405 | such a schema flattens if and only if it has no allOf, or one member with nothing but a type and a nullable flag beside it, or nothing is at odds in its members and itself |
| FlattenSuccess.SimpleFlattens | internal/lowering/schema_gen_sum.go:1339-1405 | with tuples and additional properties flattening succeeds if and only if each step of the fold has nothing at odds; for two schemas, if and only if these two have not |
| FlattenSuccess.FlattenAnnotations | internal/lowering/schema_gen_sum.go:1313-1405 | XML name and extensions of the schema around fill in what the merge lacks, default and discriminator come from the merge |
| AllOfLimits.ExclusiveMaximumExact | internal/lowering/schema_gen_sum.go:1689-1690 | merging two upper bounds is the conjunction if and only if no exclusive bound is the one that decides |
| AllOfLimits.ExclusiveMinimumExact | internal/lowering/schema_gen_sum.go:1692-1693 | merging two lower bounds is the conjunction if and only if, given an exclusive flag and a bound, a bound that decides is exclusive |
| AllOfLimits.NullableExact | internal/lowering/schema_gen_sum.go:1584-1588 | merging two typed schemas is the conjunction if and only if whenever one is nullable the other allows null |
| AllOfLimits.TupleExact | internal/lowering/schema_gen_sum.go:1710-1721 | merging two tuples is the conjunction if and only if all their elements accept everything |
| AllOfLimits.RequiredExact | internal/lowering/schema_gen_sum.go:1806-1811 | merging required lists is the conjunction if and only if every required name is a property of one side |
| NestedLimits.AdditionalExact | internal/lowering/schema_gen_sum.go:1742-1759 | merging two schemas with properties, additional properties (true, false or a schema) and array items is the conjunction if and only if no side restricts additional properties while the other has further ones, and no lost item restricts arrays |
| AllOfLimits.ParentTypeExact | internal/lowering/schema_gen_sum.go:1362-1369 | flattening a type beside a one-member allOf keeps the meaning if and only if the member's type, if any, lies within it and null is not let in by the member alone |
| AllOfLimits.PanicExact | internal/lowering/schema_gen_sum.go:1814-1848 | property lists that merge are returned if and only if the left list names no property twice; otherwise the slice index panics |
| NestedLimits.SiblingsExact | internal/lowering/schema_gen_sum.go:1526-1537 | merging a schema with a nested allOf and any keywords beside it is the conjunction if and only if members and other side together imply those keywords, and a nullable flag among them lets in null only where the members do |
| NestedLimits.DoublyNestedExact | internal/lowering/schema_gen_sum.go:1407-1413 | merging an allOf whose only member has an allOf is the conjunction if and only if the other side says nothing, or the keywords around the inner allOf and the other side together imply its members |
| NestedLimits.SiblingTypeExact | internal/lowering/schema_gen_sum.go:1526-1537 | decided for types: merging a type and a nullable flag beside a nested allOf is the conjunction if and only if the merged type lies within the dropped one and null is treated alike |
| NestedLimits.SiblingMaximumExact | internal/lowering/schema_gen_sum.go:1526-1537 | decided for bounds: merging an upper bound beside a nested allOf is the conjunction if and only if one of the other bounds is at least as low |
| NestedLimits.DoublyNestedTypeExact | internal/lowering/schema_gen_sum.go:1407-1413 | decided for types: merging an allOf whose only member has an allOf is the conjunction if and only if the other side says nothing, or the merged type lies within the dropped one and null is treated alike |
| NestedLimits.WrongSibling | internal/lowering/schema_gen_sum.go:1526-1537 | "integer" beside an allOf of "number" merges to a schema that is not the conjunction |
| NestedLimits.WrongMember | internal/lowering/schema_gen_sum.go:1407-1413 | so does "integer" in an allOf that is the only member of one, beside "number" |
| NestedLimits.WrongAdditional | internal/lowering/schema_gen_sum.go:1742-1759 | and "string" for additional properties beside a schema with one property |
| AllOfLoops.MergeNSchemes | internal/lowering/schema_gen_sum.go:1407-1424 | the loop folds the list as MergeAll does |
| AllOfLoops.MergeEnumLists | internal/lowering/schema_gen_sum.go:1853-1885 | the loop over the shorter list computes MergeEnums |
| AllOfLoops.MergePropertyLists | internal/lowering/schema_gen_sum.go:1796-1851 | the maps of properties and positions, filled and emptied in any order, compute MergeProperties |
| AllOfLoops.FillSlice | internal/lowering/schema_gen_sum.go:1843-1850 | filling the result slice from the map in any order puts every property at its place with its flag, or panics if and only if a name came twice |
| AllOfLoops.NamesCount | internal/lowering/schema_gen_sum.go:1843-1848 | a list has as many names as entries if and only if no name comes twice, so only then do all positions fit |
| OneOf.Collect | internal/lowering/schema_gen_sum.go:717-742 | each variant name gets exactly the signatures of the last variant so named; fails if and only if some variant is no struct |
| OneOf.FiledIs | internal/lowering/schema_gen_sum.go:717-742 | the signatures filed under a name are those of the fields of the last variant with it |
| OneOf.CommonSignatures | internal/lowering/schema_gen_sum.go:744-764 | exactly the signatures held by two differently named variants |
| OneOf.WithoutUnique | internal/lowering/schema_gen_sum.go:773-784 | exactly the variants left without signatures, and as the default the first of them |
| OneOf.Infer | internal/lowering/schema_gen_sum.go:715-829 | on success every variant keeps exactly the signatures no other variant has, and at most one keeps none, the default; on failure two have none or one is no struct |
| OneOf.UniqueIdentifies | internal/lowering/schema_gen_sum.go:766-771 | a set of fields of one variant that holds a remaining signature of some variant holds one of that very variant |
| OneOf.TypeOfFieldIs | internal/lowering/schema_gen_sum.go:953-976 | the type looked up is that of the first field with the name in the first variant whose name with that of the sum is the variant type |
| OneOf.ListsIs | internal/lowering/schema_gen_sum.go:978-1014 | a value is listed exactly if that type is an enum of strings only, with the value among them |
| OneOf.ValueDiscriminator | internal/lowering/schema_gen_sum.go:939-1067 | on success every enum value is mapped to the only variant type that lists it, and nothing else is mapped; fails only with a value listed twice; declines only if the field is not a non-empty string enum in every variant, or variants are fewer than two or repeated |
| OneOf.CollectEnums | internal/lowering/schema_gen_sum.go:952-1020 | the enum values of every variant type that has the field, or nothing because some variant has no usable enum there |
| OneOf.CountTypes | internal/lowering/schema_gen_sum.go:1022-1026 | equal counts mean that no type is repeated and every type was found |
| OneOf.ListedBy | internal/lowering/schema_gen_sum.go:1028-1034 | the inverse relation: which variant types list a value |
| OneOf.Invert | internal/lowering/schema_gen_sum.go:1036-1061 | a value reported as overlapping is listed by two variant types; if none is, the map inverts the listing |
| Expand.ScanInternalRef | asyncapi/expand.go:89-112 | the scan finds r exactly if every key is "$ref", "summary" or "description" and the last "$ref" entry whose value is a scalar starting with # is r |
| Expand.ReferenceIs | asyncapi/expand.go:89-112 | the same of every node: a reference object is a mapping of that shape |
| Expand.ChildIs | asyncapi/expand.go:123 | one step of a pointer leads to the value of the first entry of that name, or to the item of that index |
| Expand.ExpandMapping | asyncapi/expand.go:49-84 | expansion terminates on every document, recursive ones included, and brings in no string that was not in it |
| ExpandProofs.ResolveCorresponds | asyncapi/expand.go:123-126 | a pointer that resolves in the original without crossing a reference resolves in every rewritten state, to a node that corresponds to the original target (unless a reference to a pointer stands under "$ref" beside nothing but companions) |
| ExpandProofs.ExpandKeepsUnfolding | asyncapi/expand.go:19-136 | if every internal pointer resolves without crossing a reference, and no reference to a pointer stands under "$ref" beside nothing but companions, expansion succeeds and the result has the unfolding of the original |
| ExpandLimits.HiddenPointerExact | asyncapi/expand.go:58-65 | a mapping with a reference to a scalar under "$ref", and companions beside it, becomes a reference itself if and only if that scalar is a pointer |
| ExpandLimits.HiddenPointerBreaks | asyncapi/expand.go:58-65 | a concrete document of that kind, all pointers of which resolve plainly, changes its unfolding |
| ExpandLimits.EndlessKeepsReference | asyncapi/expand.go:120-122 | a document whose unfolding has no end keeps a reference, however it is expanded |
| ExpandLimits.RecursiveIsEndless | asyncapi/expand.go:120-122 | every document in which a reference reachable from the root comes again below its own target, directly or through other references, has such an unfolding |
| ExpandLimits.CyclicIsEndless | asyncapi/expand.go:120-122 | a concrete sound document is one of these |
| ExpandLimits.ItemKeepsReference | asyncapi/expand.go:75-81 | wherever expansion comes to a sequence with a reference as an item, or with an item that is no mapping and has a reference inside, a reference is still at that place, the very same if it holds only scalars |
| ExpandLimits.DanglingFails | asyncapi/expand.go:58-65 | if the first reference expansion comes to points to nothing, expansion fails with that pointer |
| ExpandRefFree.ExpandLeavesNoReference | asyncapi/expand.go:49-136 | if moreover references are acyclic, none sits directly in a sequence, no sequence holds a sequence and no target is a reference (or a sequence holding references), no mapping anywhere in the result has the shape of an internal reference |
| ExpandRefFree.TargetCopiedVerbatim | asyncapi/expand.go:123-135 | a target that is a sequence, or a plain reference, is copied as it stands |
| ExpanderObject.Expander.Run | asyncapi/expand.go:19-29 | the object leaves in its root the document the specification computes, or reports its error |
| ExpanderObject.Expander.ExpandMappingAt | asyncapi/expand.go:49-84 | rewriting a mapping in place, wherever it hangs, yields the specified node, leaves the whole document with that node at its place, and restores `seen` |
| ExpanderObject.Expander.ExpandValueAt | asyncapi/expand.go:54-82 | the same for one value of a mapping |
| ExpanderObject.Expander.ExpandItemsAt | asyncapi/expand.go:75-81 | the same for the items of a sequence |
| ExpanderObject.Expander.ResolveRefAt | asyncapi/expand.go:116-136 | yields the specified copy, leaves the document unchanged, and unmarks the reference on every way out |
| RedisProofs.StepGrows | runtime/redis/redis.go:367-467 | no step changes an entry, makes a settled one unsettled, or forgets a handled entry, a claim or a dead letter |
| RedisProofs.StepKeepsInvariant | runtime/redis/redis.go:367-467 | every step keeps the invariant that ties server state, loops, counters and history |
| RedisProofs.NothingIsLost | runtime/redis/redis.go:367-454 | in every run each published entry is exactly one of undelivered, pending and settled; settled only after a handler returned nil for it, or after MaxDeliveries claims with, if DeadLetter is on, a copy of it in the dead-letter stream |
| RedisProofs.SettledForGood | runtime/redis/redis.go:367-454 | a settled entry stays settled and unchanged |
| RedisProofs.RedeliveriesAreBounded | runtime/redis/redis.go:427-449 | in one lifetime a reclaimer redelivers an entry at most (MaxDeliveries - 1) times (1 + its forced acknowledgements) |
| RedisProofs.RetriesEnd | runtime/redis/redis.go:427-449 | an entry claimed MaxDeliveries times by a reclaimer whose XADD and XACK did not fail for it is settled, unless just about to be |
| RedisLoops.StreamValues | runtime/redis/redis.go:163-175 | the loop writes the specified stream fields, headers in any order |
| RedisLoops.FieldsAre | runtime/redis/redis.go:163-175 | the fields of a message are payload, content_type, key if there is one, and one with the prefix "h." for each header, and nothing else |
| RedisLoops.PublishedIsConsumed | runtime/redis/redis.go:521-546 | the accessors read back exactly the body, content type, key, header names and headers that were published |
| RedisLoops.DeadLetterIsSameMessage | runtime/redis/redis.go:456-467 | the dead-letter copy reads as the very same message |
| RedisLoops.DeadFieldsAre | runtime/redis/redis.go:456-467 | the copy has the fields dlq_source_id and dlq_source_stream, and otherwise those of the entry |
| RedisLoops.Server.XAck | runtime/redis/redis.go:548-550 | an acknowledgement removes the entry from the pending ones unless it fails; the caller sees success only if the reply arrives |
| RedisLoops.Server.DeadLetterEntry | runtime/redis/redis.go:456-467 | appends one copy with its two extra fields unless XADD fails |
| RedisLoops.Server.DispatchEntry | internal/integration/orders/aas_subscriber_gen.go:46-79 | this loop records the entry as handled and then acknowledges it if and only if its message was decoded and the handler returned nil, and otherwise makes only a failed dispatch, whatever other loops do in between |
| RedisLoops.ReclaimerLoop.ProcessClaimed | runtime/redis/redis.go:427-449 | whatever other loops do before each of its steps, the loop over claimed entries makes the steps of the state machine: an entry that came back less than MaxDeliveries times is handled and acknowledged exactly if it was decoded and its handler returned nil, any other is dead-lettered and dropped as the replies allow, and nothing is done to entries outside the batch |
| RedisLoops.ReclaimerLoop.ProcessEntry | runtime/redis/redis.go:428-448 | the same for one round |
| RedisLoops.ReclaimerLoop.GiveUp | runtime/redis/redis.go:430-437 | the same for an entry claimed too often; it is not tried again if and only if dead-lettering is off or its XADD was seen to succeed, whatever becomes of the XACK |
| RedisLoops.ProcessRead | runtime/redis/redis.go:387-400 | whatever other loops do before each of its steps, the loop over newly read entries handles and acknowledges exactly those that were decoded and whose handler returned nil; for any other it makes only a failed dispatch, and goes on |
| RedisLoops.OthersLeaveLoop | runtime/redis/redis.go:348-454 | no run of other loops, those of the same process included, moves a loop, changes its counters or removes an entry, unless its process crashes |
| RedisLoops.GoneByDeed | runtime/redis/redis.go:367-467 | in every run an entry that leaves the pending list was acknowledged or dropped by a loop that was at that very entry |
| RedisLoops.HandledByDeed | runtime/redis/redis.go:367-454 | and one that comes to count as handled was dispatched with success by a loop that was at it |
| Graphs.ReachesUnfold | internal/ir/validation.go:230-234 | whatever a node reaches outside its path it is itself or a child reaches without coming back, so a search may answer "no" on its own path |
| Graphs.HitsUnfold | internal/ir/recursion.go:29-53 | hitting a goal or the path unfolds into the node and its children with the node on the path |
| Graphs.SpreadReachesAll | internal/ir/type_features.go:10-12 | where marks are closed under children, stopping at marked nodes still marks everything reachable and leaves the marks closed |
| IrTypes.Type.AddFeature | internal/ir/type_features.go:9-38 | terminates on every cyclic graph; appends the feature to exactly the types reachable without passing one that had it, and changes nothing else |
| IrTypes.AddFeatureReachesAll | internal/ir/type_features.go:9-38 | if every type that has the feature has it on its children, afterwards every reachable type has it and the closure holds again |
| IrTypes.AddFeatureReachesAllExactly | internal/ir/type_features.go:9-38 | on any graph all reachable types get it if and only if the marked types on the way have no child left out |
| IrTypes.Type.PointerTo | internal/ir/constructors.go:48-55 | a new pointer has the features of its target |
| IrTypes.Type.GenericOver | internal/ir/constructors.go:57-66 | a new generic has the features of what it wraps |
| IrTypes.WrappingKeepsDownward | internal/ir/type_features.go:40-45 | wrapping a type with a copy of its features keeps the closure |
| IrTypes.BoxingKeepsDownward | internal/lowering/generics.go:27-31 | giving an optional or a nullable field a pointer to its type, or to what its generic type wraps, keeps the closure |
| IrTypes.DoublyBoxingKeepsDownward | internal/lowering/generics.go:32-39 | giving a field that is both a pointer to a new generic type around them keeps it too |
| IrValidation.NeedValidation | internal/ir/validation.go:211-213 | true if and only if a type with a reason of its own is reachable along the traversed edges |
| IrValidation.NeedValidationOn | internal/ir/validation.go:225-302 | on a path: true if and only if such a type is reachable outside the path, and the path is as before afterwards |
| IrValidation.NeedValidationBelow | internal/ir/validation.go:236-301 | the switch over kinds: a reason of its own or a child that needs validation |
| IrValidation.ReasonIs | internal/ir/validation.go:236-301 | the reasons kind by kind: floats, numbers with validators, strings and byte slices with string validators, enums, invalid nil, arrays and maps with validators, and custom validators |
| IrValidation.PartsAre | internal/ir/validation.go:236-301 | the traversed edges kind by kind; the fields of a map are not among them |
| IrValidation.Walkpath.Add | internal/ir/recursion.go:65-70 | the node joins the path |
| IrValidation.Walkpath.Delete | internal/ir/recursion.go:72-74 | the node leaves the path |
| IrRecursion.RecursiveTo | internal/ir/recursion.go:9-11 | yes only if a by-value walk reaches the struct, a structurally equal type, or a node twice; no only if none does; a panic only if such a walk reaches a kind the switch does not know |
| IrRecursion.Recursive | internal/ir/recursion.go:13-54 | the same relative to the path, which is as before afterwards |
| IrRecursion.AnyRecursive | internal/ir/recursion.go:43-50 | stops at the first part that does not answer no |
| IrRecursion.FlatEdges | internal/ir/recursion.go:14-53 | what holds what by value, kind by kind: the target of an alias, what a generic wraps, the field types of a struct and the variants of a sum, unless of one of the six kinds that hold nothing; every other kind makes the walk panic |
| IrRecursion.HoldsIsWalk | internal/ir/recursion.go:37-50 | a chain of aliases, generics and sums is a by-value walk |
| IrBoxing.BoxType | internal/lowering/generics.go:57-119 | what a type becomes for each variant: itself, itself with a nil meaning, a pointer, a generic, or a generic over a pointer; fails only without a name |
| IrBoxing.PointerFor | internal/lowering/generics.go:27-43 | a pointer with the nil meaning of the variant; infinite recursion is reported if and only if the field is required and not nullable |
| IrBoxing.BoxIfRecursive | internal/lowering/generics.go:21-46 | a recursive field gets a new pointer to its type or to what its generic type wraps; any other keeps its type |
| IrBoxing.RecursiveIsNotNilable | internal/lowering/generics.go:22-35 | a recursive type holds others by value, so boxing it never falls into the cases that leave it unboxed or set its nil meaning |
| IrBoxing.BoxingShrinks | internal/lowering/generics.go:51 | replacing field types by pointers takes by-value edges away and adds none |
| IrBoxing.CheckStructRecursions | internal/lowering/generics.go:10-55 | after success no spec'd field leads back to the struct by value; fields change only into pointers to what they were; a required field keeps its type, and if from it a chain of aliases, generics and sums leads back to the struct, the check fails; infinite recursion is reported only for a required field that recurses |
| IrEngine.Engine.CheckCandidate | internal/lowering/engine.go:118-128 | one round marks the candidate, keeps the structs safe that were, and makes it safe unless it fails |
| IrEngine.Engine.CheckCandidates | internal/lowering/engine.go:112-129 | over any number of calls, failed ones included, every struct checked so far is safe at once but for those whose own check failed |
| IrEngine.FailedIsNotCheckedAgain | internal/lowering/engine.go:122-128 | in any graph, a struct that requires a field of its own type fails the first call and passes the second, still holding itself by value |
| IrEngine.SelfRequiring | internal/lowering/engine.go:122-128 | there is such a struct |
| IrEngine.NoCycleThroughSpecdField | internal/lowering/generics.go:10-55 | in a graph with safe structs no by-value cycle leaves a safe struct by a spec'd field |
| Utf8.EncodeDecode | runtime/ogenregex/convert.go:111-128 | encoding a decoded character gives back its bytes |
| RegexText.Scan | runtime/ogenregex/convert.go:157-178 | the eager converter ends at the end of the pattern, its offsets never leaving it |
| RegexText.GroupBody | runtime/ogenregex/convert.go:199-221 | every round of a group consumes input, through nested groups |
| RegexText.Bracket | runtime/ogenregex/convert.go:225-258 | a character class consumes input and stays in the pattern |
| RegexText.Escape | runtime/ogenregex/convert.go:261-457 | an escape never goes back and stays in the pattern, so every slice taken is in range |
| RegexParser.Parser.Error | runtime/ogenregex/convert.go:484-494 | the first error is kept and ends the scan |
| RegexParser.Parser.Read | runtime/ogenregex/convert.go:111-128 | the object moves on as the eager converter does |
| RegexParser.Parser.StopPassing | runtime/ogenregex/convert.go:130-134 | switching from a prefix of the pattern to the buffer leaves the result as it was |
| RegexParser.Parser.Write | runtime/ogenregex/convert.go:136-155 | appends to the result, whichever form it has |
| RegexParser.Parser.Pass | runtime/ogenregex/convert.go:459-471 | appends the current character, by moving the offset if the result is still a prefix of the pattern |
| RegexParser.Parser.PassString | runtime/ogenregex/convert.go:473-482 | appends a slice of the pattern, likewise |
| RegexParser.Parser.ScanOctal | runtime/ogenregex/convert.go:266-296 | octal escapes, backreferences and \0 as in the eager converter |
| RegexParser.Parser.ScanCodePoint | runtime/ogenregex/convert.go:416-457 | \x and \u as in the eager converter, valid or not |
| RegexParser.Parser.ScanProperty | runtime/ogenregex/convert.go:378-401 | \p and \P as in the eager converter |
| RegexParser.Parser.ScanControl | runtime/ogenregex/convert.go:340-361 | \c as in the eager converter |
| RegexParser.Parser.ScanEscape | runtime/ogenregex/convert.go:261-457 | any escape as in the eager converter |
| RegexParser.Parser.ScanBracket | runtime/ogenregex/convert.go:225-258 | a character class as in the eager converter |
| RegexParser.Parser.ScanGroup | runtime/ogenregex/convert.go:181-222 | a group as in the eager converter |
| RegexParser.Parser.Scan | runtime/ogenregex/convert.go:157-178 | a whole pattern as in the eager converter |
| RegexParser.Convert | runtime/ogenregex/convert.go:68-82 | succeeds exactly when the eager converter does, with the same text |
| RegexProofs.ConvertedIsWellFormed | runtime/ogenregex/convert.go:68-82 | only well-formed UTF-8 is converted, and the result is well-formed UTF-8 |
| RegexProofs.PlainIsUnchanged | runtime/ogenregex/convert.go:157-178 | a pattern without special characters is converted if and only if it is well-formed, and unchanged |
| RegexMeaning.EmptyClassMeans | runtime/ogenregex/convert.go:225-241 | `[]` is converted to a class without, `[^]` to one with every character up to U+1FFFF, and above that the other way round |
| RegexMeaning.DotMeans | runtime/ogenregex/convert.go:20 | a dot is converted to a class of all characters but the four line ends of ECMA-262 |
| RegexMeaning.SpacesMean | runtime/ogenregex/convert.go:362-377 | `\s` and `\S`, and `\s` in a class, are exactly the white space of ECMA-262, and the others; `\S` in a class is refused |
| RegexMeaning.ControlMeans | runtime/ogenregex/convert.go:340-361 | `\c` and a letter is the character of the letter modulo 32 |
| RegexMeaning.BackspaceMeans | runtime/ogenregex/convert.go:316-322 | `\b` in a class is the backspace |
| RegexMeaning.OctalMeans | runtime/ogenregex/convert.go:266-296 | two and more octal digits are the character of their number if and only if it is below 256 |
| RegexMeaning.DigitMeans | runtime/ogenregex/convert.go:266-301 | of escaped single digits only 0 is converted, as the character 0 |
| RegexMeaning.HexMeans | runtime/ogenregex/convert.go:303-457 | `\xHH`, `\uHHHH` and `\u` with digits in braces are the character of that number |
| RegexMeaning.LetterMeans | runtime/ogenregex/convert.go:316-414 | which escaped letters and signs keep their backslash and which lose it |
| RegexMeaning.GroupFails | runtime/ogenregex/convert.go:181-198 | lookahead, lookbehind and unmatched parentheses are refused, whatever follows |
| RegexMeaning.ClassIsKept | runtime/ogenregex/convert.go:243-258 | every other ASCII class without escapes stays as it is |
| RegexMeaning.PropertyIsKept | runtime/ogenregex/convert.go:378-401 | a named Unicode property stays as it is, one without a name is refused |
| Duration.TextIsRead | runtime/codec/std_duration.go:12-87 | the printed text, read as a sum of numbers with units, is the duration again, for every integer |
| Duration.TextIs | runtime/codec/std_duration.go:12-87 | which text it is: below a second the largest unit with a whole part, from a second on hours and minutes as far as needed and then seconds, each number without leading zeros, with the digits of the fraction |
| Duration.TextsDiffer | runtime/codec/std_duration.go:12-87 | different durations print differently |
| Duration.TextIsTrimmed | runtime/codec/std_duration.go:93-111 | no printed fraction is empty or ends in a zero |
| Duration.MagnitudeIsRead | runtime/codec/std_duration.go:22-79 | the same round trip without the sign |
| Duration.FracDigitsValue | runtime/codec/std_duration.go:93-111 | the digits kept of a fraction have its value, and do not end in a zero |
| Duration.IntTextValue | runtime/codec/std_duration.go:115-128 | the digits of a number have its value |
| DurationBuffer.FmtInt | runtime/codec/std_duration.go:115-128 | writes the digits in front of what is there, in place and in range |
| DurationBuffer.FmtFrac | runtime/codec/std_duration.go:93-111 | writes the trimmed fraction in front of what is there and returns the quotient |
| DurationBuffer.FormatSmall | runtime/codec/std_duration.go:22-53 | durations below a second fit and leave the specified text |
| DurationBuffer.FormatClock | runtime/codec/std_duration.go:54-79 | durations from a second on, up to the magnitude of the minimum, fit and leave the specified text |
| DurationBuffer.FormatDuration | runtime/codec/std_duration.go:12-87 | for every int64, the minimum included, all writes are inside the 32 bytes and leave exactly the specified text |
| Equality.EqualMeans | gen/gen_equality.go:68-236 | unless it gives up, Equal decides whether two objects are the same but for values that are not set |
| Equality.CanonIs | gen/gen_equality.go:68-236 | what being the same but for values not set means, kind by kind |
| Equality.LimitIs | gen/gen_equality.go:43-49 | beyond depth ten the comparison gives up, and never on types that do not nest as deep |
| Equality.ShallowFields | gen/gen_equality.go:43-49 | objects nested within the limit never reach it |
| Equality.CanonHashes | gen/gen_equality.go:283-360 | objects that are the same but for values that are not set hash alike |
| Equality.EqualHashes | gen/gen_equality.go:283-360 | Equal objects have equal hashes, whatever the hash function and however values print |
| UniqueItems.EqualItems | gen/gen_equality.go:165-210 | the loop over arrays decides equality |
| UniqueItems.EqualEntries | gen/gen_equality.go:212-223 | comparing sizes and the entries of one map decides equality of maps |
| UniqueItems.EqualField | gen/gen_equality.go:68-236 | the emitted comparison of a field computes the specified verdict |
| UniqueItems.Equal | gen/gen_equality.go:30-66 | the emitted Equal computes the specified verdict, its depth limit included |
| UniqueItems.OrderedIsSorted | gen/gen_equality.go:348 | keys can be put in order in one way only, so hashing does not depend on the order of the map |
| UniqueItems.SortedKeys | gen/gen_equality.go:344-348 | collecting keys in any order and sorting them yields that order |
| UniqueItems.WriteField | gen/gen_equality.go:283-360 | the emitted code writes the specified bytes of a field |
| UniqueItems.HashObject | gen/gen_equality.go:239-280 | the emitted Hash computes the specified hash |
| UniqueItems.Search | gen/gen_validators_unique.go:71-83 | the loop over one bucket finds the first earlier item that is alike, although it sees only that bucket |
| UniqueItems.ValidateUnique | gen/gen_validators_unique.go:43-88 | reports exactly what the quadratic search does: the first item with an item like it before it and the first such item, or nothing; gives up only on types nested too deep |
| JsonEqual.NaturalsDiffer | runtime/codec/equal.go:53-58 | naturals written without leading zeros differ if they are written differently |
| JsonEqual.IntegersCompare | runtime/codec/equal.go:39-79 | for integer literals, comparing zeros, then bytes, decides numeric equality |
| JsonEqual.DenoteIs | runtime/codec/equal.go:81-204 | what meaning the same is, kind by kind; of members with one key the last counts |
| JsonEqualProofs.EqualMeans | runtime/codec/equal.go:81-204 | if no key of the right side comes twice, Equal is true if and only if both values mean the same up to key order |
| JsonEqualProofs.TrueMeansNoDuplicates | runtime/codec/equal.go:119-174 | with a duplicate key on the right, "equal" is never a right answer |
| JsonEqualProofs.EqualIsRightExactly | runtime/codec/equal.go:119-174 | Equal is right for every left side if and only if the right side has no duplicate key |
| JsonEqualProofs.EqualIsSymmetric | runtime/codec/equal.go:119-174 | without duplicate keys Equal is symmetric |
| JsonEqualProofs.DuplicatesBreakSymmetry | runtime/codec/equal.go:119-174 | a concrete pair that is equal one way round only |
| JsonCompare.Iter.Next | runtime/codec/equal.go:92 | moves to the next element, if there is one |
| JsonCompare.Equal | runtime/codec/equal.go:176-222 | the dispatch over kinds computes the specified answer or failure |
| JsonCompare.EqualArray | runtime/codec/equal.go:81-117 | walking two iterators in step computes the specified answer or failure |
| JsonCompare.CollectObject | runtime/codec/equal.go:121-132 | the map of the left side, in which later members win, or a failure |
| JsonCompare.EqualObject | runtime/codec/equal.go:119-174 | looking up and counting the members of the right side computes the specified answer or failure |
| Bits.OrBitAtMembers | internal/bitset/bitset.go:33-37 | OR with a shifted bit adds that index |
| Bits.ResetBitAtMembers | internal/integration/orders/aas_json_gen.go:175 | resetting a bit removes that index |
| Bits.LacksMembers | internal/integration/orders/aas_json_gen.go:155 | and-then-xor leaves the indices asked for and not there, and is zero if and only if there are none |
| RequiredFields.Build | internal/bitset/bitset.go:23-41 | the mask has one bit for each field, set if and only if the field is required, whatever the number of fields |
| RequiredFields.ReadKeys | internal/integration/orders/aas_json_gen.go:117-149 | after the callbacks the bits are those of the required fields that came, once or often |
| RequiredFields.ReportByte | internal/integration/orders/aas_json_gen.go:160-176 | extracting set bits from below names them in ascending order, once each |
| RequiredFields.ReportMissing | internal/integration/orders/aas_json_gen.go:150-178 | the failures name exactly the required indices not decoded, once each and in order |
| RequiredFields.MissingNamesAre | internal/integration/orders/aas_json_gen.go:163-169 | the names found by index are the names of the missing fields in field order |
| RequiredFields.Decode | internal/integration/orders/aas_json_gen.go:113-184 | for any number of fields and any keys, the failures name exactly the required fields that did not come, once each and in field order |
| Strconv.ItoaDiffers | internal/lowering/names.go:326-327 | different numbers are printed differently |
| ValueNames.IndicesApart | internal/lowering/names.go:326-327 | numbered names are pairwise distinct and none is the type name |
| ValueNames.Generator.NameGen | internal/lowering/names.go:310-331 | an index is named by the value it was first seen with |
| ValueNames.Generator.TryStrategy | internal/lowering/names.go:372-387 | a strategy passes if and only if it names every value, pairwise distinctly and not as the type |
| ValueNames.Generator.IsException | internal/lowering/names.go:333-364 | passes only if every remembered value starts with an ordinary character, panics only if one starts with U+FFFD |
| ValueNames.Generator.FirstStrategy | internal/lowering/names.go:366-395 | the strategy found passes for all values, the cache filled; the first one is taken exactly if it passes and all values start with ordinary characters; panics only if it passes and a value starts with U+FFFD, and always then unless one starts with a named character |
| ValueNames.Generator.Choose | internal/lowering/names.go:294-396 | some strategy is always found, but for the panic, which happens only if the first strategy names all values apart and one starts with U+FFFD, and always then unless one starts with a named character |
| ValueNames.PanicsOnText | internal/lowering/names.go:351-354 | the well-formed value U+FFFD "a" of a type "Status" panics, the value of a single malformed byte does not |
| ValueNames.NoLettersNoPanic | internal/lowering/names.go:351-390 | a value without letters and digits never panics: the first strategy gives it the name of the type |
| Naming.NameGen.Next | internal/lowering/names.go:57-64 | moves to the next character, if there is one |
| Naming.NameGen.Generate | internal/lowering/names.go:76-133 | the loop over characters yields the specified words, joined, or fails if they are no identifier |
| Naming.NameGen.Clean | internal/lowering/names.go:135-164 | the same with the case kept |
| Naming.PascalSplit | internal/lowering/names.go:208-214 | the name made of two texts is the words of the first followed by the words of the second |
| Naming.NothingLeft | internal/lowering/names.go:123-131 | a text without letters and digits adds nothing to a name |
| Naming.OneWord | internal/lowering/names.go:101-121 | a word that starts in upper case stays as it is, but for an initialism |
| ValueNames.Generator.Name | internal/lowering/names.go:391-393 | the closure names each index apart from every other and from the type, even if the value is printed differently by then |

## Left out

- AllOf.Merge: schemas are finite trees, so schemas shared by pointer or cyclic, the write into the first input's `exclusiveMaximum` as a mutation others could see, and nil members of a list are not captured; bounds are exact numbers instead of Float64; descriptions, references and positions are not carried.
- MergeSuccess.MergeSucceeds: lists that name a property twice, which panic, are not covered, and of schemas with allOf only those whose members have none (NestedSucceeds).
- FlattenSuccess.MergeAllSucceeds: leaves aside tuples, additional properties and schemas that say only what a merge drops (required names without properties, an XML name, an exclusive upper bound): a merge can lose these, so a later schema is not held against them. SimpleFlattens covers them step by step, naming the merged schemas.
- FlattenProofs.FlattenKeepsMeaning: holds for parents and members in the fragment; outside it the exact conditions are proved keyword by keyword, not for every mix of keywords.
- `ensureNoInfiniteRecursion`, which rejects recursive allOf lists before flattening, is left out, as is the detail of x-ogen extensions.
- Expand.ExpandMapping: YAML anchors, aliases and comments are left out, external references are ordinary mappings, and how a pointer string splits into tokens and indices is a parameter.
- ExpandProofs.ExpandKeepsUnfolding: that it fails whenever a pointer stands under "$ref" is proved for the mapping that becomes a reference and for one document, not for every document.
- RedisProofs.NothingIsLost: one stream, never trimmed; identifiers are positions, and timing, idle times, cursors, the Redis client, several streams, middleware and pubsub mode are left out. Which pending entries a claim returns is arbitrary.
- IrRecursion.RecursiveTo: structural equality is a given set of types that contains the struct; by-value edges are followed through the fields the walk reads only.
- IrBoxing.BoxType: which types have a name for their wrapper is a given map, and chains of aliases are finite.
- IrTypes.Type.AddFeature: only fields the walks assign are variables of the objects; the structure of the graph is fixed during a call.
- RegexParser.Convert: what replaced pieces of a pattern mean is decided piece by piece, not that whole patterns match the same texts; error texts are left out, and so are the Unicode tables of identifier characters, which the converter only asks about ASCII.
- Equality.EqualMeans: arrays of structs or of nullable values, pointers, floats, byte slices inside wrappers and fields both optional and nullable are left out; how fmt prints a value and the FNV sum are parameters.
- JsonEqualProofs.EqualMeans: values are trees in which undecodable parts are marked; numbers that are no integers are compared by a parameter, and lexing is left out.
- RequiredFields.Decode: failures to decode a field's value are left out.
- OneOf.Infer: explicit discriminators, distinction by JSON type, and the reports of bad variants are left out.
- OneOf.ValueDiscriminator: the fall-back to JSON types and array elements after it is left out.
- ValueNames.Generator.Choose: text is a sequence of characters as Go converts it to runes, so values that differ only in malformed bytes are not told apart; how fmt prints a value, the Unicode tables, the rule set of initialisms and what Go takes for an identifier are parameters.
- Templates, the raw document structures, the command line and the committed generated packages would only add single-branch facts.
