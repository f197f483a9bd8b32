# Vdoc: a verified model

Vdoc stores API documents as versions, tells what changed between them, and coordinates the people
and the processes that edit them. This project models the parts of it whose correctness is hard to
see from any single function, and proves what they promise. `dafny verify dfyconfig.toml` checks it.

Code that changes state in the source is a class or a method with loops here, proved against a
function of the old state; that function is then what the theorems are about. JSON is a datatype,
Go's map iteration is a nondeterministic choice, and time is an integer.

**Schema compatibility** (`Schemas`, `TypeLattice`, `NumericBounds`, `EnumSets`, `CanonicalForms`,
`PropertyRules`, `PropertyBreaks`, `SchemaFields`, `Alternatives`, `SchemaDiff`, `SchemaPaths`,
`SchemaPositions`, `BranchRemainders`, `QuietFindings`, `SchemaSoundness`, `SchemaGaps`, `ReportedBreaks`, `FoundBreaks`,
`DecisiveFindings`, `DialectViews`). `Schemas.Accepts` gives a schema
its meaning without any notion of comparison: the set of JSON values it accepts. The comparator is
modelled as the findings it reports. The theorems say that no finding to act on means inclusion of the
accepted sets, under conditions a caller can check, and what goes wrong without them; and, position by
position, that a finding is called breaking exactly when values are lost, with the exceptions named below.

**Line diff** (`TextLines`, `LineAnchors`, `LineBlocks`, `LineDiff`). Lines are exactly what was written
down between newlines of either kind. Patience anchors and the bounded table are
each optimal for what they look at, and the items of a diff are a patch in both directions.

**References, pointers and numbers** (`JsonTrees`, `Decimals`, `JsonPointer`, `RefResolver`,
`RefExpansion`, `RefPositions`, `RefOutput`, `RefWitnesses`, `NumberGrammar`, `DecimalArithmetic`, `JsonNumbers`). The
resolver's budgets and cycle set are set against an expansion that has neither, and its answer against the shape of schema and operation
objects. Numbers are texts, and a rational is their meaning.

**AI generations** (`ChatHistory`, `AiChat`, `AiChatRuns`, `ChatProgress`, `AiSummary`, `AiSummaryRuns`,
`SummaryJobs`). The row
updates are methods; any number of processes interleave them as atomic steps.

**Drafts, administrators, audit log** (`TextSpace`, `DraftWorkflow`, `DraftDecisions`, `Administrators`,
`AuditPaging`).
State machines whose invariants hold after every sequence of operations.

## What the proofs found

Each of these is kept as the code has it, with a lemma at an input or for a family of inputs.

- Constraints are compared between nodes outside `allOf` and between whole branches, never across. A
  list described in a branch on one side and directly on the other can change the limits inside without
  any finding, for requests and for responses (`SchemaGaps.MissedBranch`). Schemas that are aligned, in
  particular those without `allOf`, have no such gap.
- A request schema that gains `items` without a type, whose objects describe an optional property, is
  reported as harmless whatever that property demands (`SchemaGaps.MissedItems`). Responses need no
  condition on `items`.
- A type constraint that appears where there was none is breaking even if it lists all six kinds of
  JSON value (`TypeLattice.TypeChangeBreakingExact`), and a property rule is called breaking when null
  and boolean types become an enum that lists all their values (`PropertyBreaks.SpuriousBreak`). There
  is no other spurious report of this kind (`PropertyBreaks.BreakingMeansExcluded`).
- In a response an enum value that is no longer listed is breaking, although nothing is lost by it
  (`FoundBreaks.EnumsFound`), and so is a property that is no longer described (`FoundBreaks.RemovedFound`).
- A size limit that is tighter only between two whole numbers, or a minimum that appears at zero or
  below, is breaking without a loss (`FoundBreaks.SizesFound`, `ReportedBreaks.NaturalSizes`).
- Canonical bounds are unique for every range except the empty one (`NumericBounds.EmptyRangesDiffer`).
- The number reader accepts a number followed by white space, keeps the white space, and so returns a
  text that is not a number (`JsonNumbers.TrailingSpaceAccepted`, `JsonNumbers.TrailingSpaceStays`).
- The cycle check of the resolver remembers a reference but not the kind of position it was met in, so
  some documents with a finite expansion are refused (`RefExpansion.RefusedKindsDiffer`,
  `RefWitnesses.FiniteYetRefused`).
- From OpenAPI 3.1 on, a summary or description beside a reference object adds output that was not
  visited, so the visits alone no longer bound the output (`RefWitnesses.OutputExceeds`,
  `RefOutput.OutputSize`, `RefOutput.OutputWithText`).
- A log id of 64 characters that JSON escapes makes a cursor longer than the limit under which cursors
  are read (`AuditPaging.EscapedIdRefused`); ids that need no escape are safe
  (`AuditPaging.PlainIdsAddressable`).
- A worker whose job was claimed again cannot save a result, but it can still fail the row, because
  that write asks for the job's token and not for the lease; the current holder's answer is then
  refused (`AiSummaryRuns.OldLeaseCanOnlyFail`, `AiSummaryRuns.OldLeaseFails`).

## Model

| member | source | states |
|---|---|---|
| SchemaSoundness.RequestSound | services/vdoc/semantic_diff.go:208-371 | If comparing two request schemas reports nothing breaking and nothing to review, every value the old schema accepts is accepted by the new one, for every value and every pair of schemas, `allOf`, `anyOf` and `oneOf` included, that is aligned: a position both describe stands outside `allOf` on both sides or on neither. The other condition is that items only the new schema describes are boolean, typed or enumerated before a property is described below them |
| SchemaSoundness.ResponseSound | services/vdoc/semantic_diff.go:208-371 | For responses a clean comparison of aligned schemas means every value the new schema accepts was accepted by the old one, with no condition on `items` |
| SchemaSoundness.CleanIncludes | services/vdoc/semantic_diff.go:208-371 | At every position both schemas describe, a value that satisfies all nodes of one side satisfies each node of the other, through nested properties, elements and branches of any depth |
| SchemaGaps.MissedItems | services/vdoc/semantic_diff.go:215-313 | Where the condition on new items fails: new untyped `items` describing one optional property are never reported whatever the property says, and the old values all stay accepted if and only if the property accepts everything |
| SchemaGaps.MissedBranch | services/vdoc/semantic_constraints.go:11-81 | Where alignment fails: a list described in an `allOf` branch on one side and directly on the other goes unreported in both directions whatever shortest length its texts get, and all values stay accepted if and only if that length is not above zero |
| SchemaGaps.AlignedWithoutAllOf | services/vdoc/semantic_constraints.go:11-81 | Schemas without `allOf` are always aligned |
| SchemaPositions.EntrySummarizes | services/vdoc/semantic_diff.go:597-686 | The entry of a path exists exactly if some node describes it or requires it, and says what all nodes of the path say together: types, enumeration, required, defined and item flags |
| BranchRemainders.SameRemainders | services/vdoc/semantic_constraints.go:241-291 | Equal remainders of two `allOf` lists: each node of one that keeps a bound, a size, `additionalProperties` or an uninterpreted keyword has a node with the same ones at the same position of the other |
| Alternatives.CompareAlternatives | services/vdoc/semantic_constraints.go:50-63 | Unchanged, left to review, or changed, breaking exactly if a request loses or a response gains a member; `oneOf` is left to review unless both sides have disjoint types |
| Alternatives.DisjointTypes | services/vdoc/semantic_constraints.go:217-239 | True exactly if every member is typed and no two members share a kind, integers counting as numbers |
| Alternatives.SetDifference | services/vdoc/semantic_constraints.go:203-215 | The members of one list that the other lacks, and none exactly if it lacks none |
| Alternatives.QuietAlternatives | services/vdoc/semantic_constraints.go:50-63 | An `anyOf` or `oneOf` change that is neither breaking nor left to review keeps every value that must stay accepted |
| SchemaDiff.SemanticDiffBuilder.CompareSchemaFields | services/vdoc/semantic_diff.go:208-213 | Appends exactly the findings specified for the pair: root type, root enum, children, constraints; earlier findings stay. Which of them are breaking is what the theorems of FoundBreaks and DecisiveFindings say of this list |
| DecisiveFindings.LostValueBreaks | services/vdoc/semantic_diff.go:208-371 | For every pair of schemas that leaves nothing to a person, a condition read off the keywords: if some value must stay accepted and is refused, the comparison has appended a finding that is breaking; for requests with the condition on new items |
| DecisiveFindings.NothingToReview | services/vdoc/semantic_diff.go:208-371 | Between such schemas every finding that must be handled is breaking |
| DecisiveFindings.LeavesReviewless | services/vdoc/semantic_diff.go:208-371 | Schemas without properties, items and `allOf` whose numbers can be compared are such pairs |
| FoundBreaks.BoundsFound | services/vdoc/semantic_bounds.go:11-32 | In the list of a whole comparison, at every position whose limits are compared: a convertible lower or upper bound is called breaking if and only if some number satisfies the bounds that must stay accepted and not the others |
| FoundBreaks.SizesFound | services/vdoc/semantic_constraints.go:24-49 | The same for each size limit: breaking if and only if the limit is tighter as a number, and a size is then really lost if and only if one lies between the limits |
| FoundBreaks.MembersFound | services/vdoc/semantic_constraints.go:50-63 | The same for `anyOf` and `oneOf`: breaking if and only if the members can be compared without a person and one that must stay has no like in canonical form |
| FoundBreaks.TypesFound | services/vdoc/semantic_diff.go:745-765 | At every nested position both schemas describe, a type finding is breaking if and only if a value of the types that must stay accepted is lost, or types appear where there were none |
| FoundBreaks.EnumsFound | services/vdoc/semantic_diff.go:331-371 | There an enumeration finding is breaking if and only if a value is lost, or, in a response with lists on both sides, an old value is no longer listed |
| FoundBreaks.RequiredFound | services/vdoc/semantic_diff.go:259-270 | There a finding on the required flag is breaking if and only if the side that must accept asks for the name and the other side does not |
| FoundBreaks.AddedFound | services/vdoc/semantic_diff.go:226-249 | A property only the new schema describes, on an object both describe, is breaking if and only if its name is newly required or the verdict on its rules is breaking |
| FoundBreaks.RemovedFound | services/vdoc/semantic_diff.go:290-312 | A property only the old schema describes is breaking in every response, and in a request if and only if its name is newly required or the verdict on its rules is breaking |
| FoundBreaks.RootTypeFound | services/vdoc/semantic_diff.go:315-322 | The type of the whole message: breaking if and only if a value is lost, or types appear where there were none |
| FoundBreaks.RootEnumFound | services/vdoc/semantic_diff.go:331-371 | The enumeration of the whole message, with the same exception for responses |
| ReportedBreaks.LosesSizeExactly | services/vdoc/semantic_constraints.go:24-49 | Some text, list or object satisfies one size limit and not the other if and only if a whole number that can be a size lies between them |
| ReportedBreaks.NaturalSizes | services/vdoc/semantic_constraints.go:24-49 | For limits that are natural numbers, only a minimum of zero that appears is breaking without a loss |
| ReportedBreaks.BoundsUnread | services/vdoc/semantic_bounds.go:11-32 | A changed bound that cannot be converted is a finding to review and never breaking |
| SchemaDiff.SemanticDiffBuilder.CompareRoots | services/vdoc/semantic_diff.go:315-322 | Appends the findings on the root types and enums, and no other; RootTypeFound and RootEnumFound say when they are breaking |
| SchemaDiff.SemanticDiffBuilder.CompareEnumValueLists | services/vdoc/semantic_diff.go:331-371 | Appends the findings on two enum sets: removed values, added values, an enum appearing or disappearing; EnumsFound says when they are breaking |
| SchemaDiff.SemanticDiffBuilder.CompareSchemaChildren | services/vdoc/semantic_diff.go:215-313 | The findings on every flattened path: added, removed and kept fields, with required flags, types, enums and declaration scopes |
| SchemaDiff.SemanticDiffBuilder.NewFieldAffectsExistingInput | services/vdoc/semantic_diff.go:900-913 | True exactly if every ancestor in the new table was in the old one, is required, or is an array item |
| SchemaDiff.SemanticDiffBuilder.CompareSchemaConstraints | services/vdoc/semantic_constraints.go:11-81 | Appends the findings of the recursive walk over bounds, sizes, `anyOf`, `oneOf`, unsupported keywords, properties and items of both schemas; BoundsFound, SizesFound and MembersFound say when they are breaking |
| SchemaDiff.SemanticDiffBuilder.CompareNumericBounds | services/vdoc/semantic_bounds.go:11-32 | Appends one finding for each side whose effective bound changed; a changed bound that cannot be converted is left to review. BoundsFound says which are breaking, in terms of numbers |
| SchemaFields.FieldCollector.Merge | services/vdoc/semantic_diff.go:655-686 | Merging changes one entry only, to the conjunction of what was known and what is new |
| SchemaFields.FieldCollector.Collect | services/vdoc/semantic_diff.go:597-628 | Whatever the order in which properties are walked, each path ends up with the conjunction of every declaration below the schema |
| SchemaFields.CollectSchemaFields | services/vdoc/semantic_diff.go:597-628 | The table of a whole schema: an entry for each nested path and none for the root |
| SchemaFields.NodeCollector.Collect | services/vdoc/semantic_property_rules.go:10-33 | Appends to each path the object nodes found there, in fragment order, leaving earlier nodes in front |
| SchemaFields.SchemaObjectNodes | services/vdoc/semantic_property_rules.go:10-33 | Each path maps to exactly the object schemas that speak about it; no entry is empty |
| SchemaPaths.PathTextInjective | services/vdoc/semantic_diff.go:644-653 | Two different sequences of property names and items steps never share a path string, whatever dots and backslashes the names hold |
| SchemaPaths.DotPrefixIsAncestor | services/vdoc/semantic_diff.go:900-913 | A path string cut at a dot, when it is itself the string of a path, belongs to a true ancestor |
| SchemaPaths.AncestorIsDotPrefix | services/vdoc/semantic_diff.go:900-913 | Every true ancestor is reached by cutting at some dot |
| SchemaPaths.NewFieldAffectsExistingInput | services/vdoc/semantic_diff.go:900-913 | The loop over the dots of the string decides whether every cut is harmless |
| SchemaPaths.TextWalkAgrees | services/vdoc/semantic_diff.go:900-913 | Walking the dots of the string decides the same as walking the ancestors of the path, in tables keyed either way |
| TypeLattice.IntersectSchemaTypes | services/vdoc/semantic_diff.go:915-936 | Returns the meet of two type sets, where integer lies inside number and an absent set is no constraint |
| TypeLattice.MeetDenotes | services/vdoc/semantic_diff.go:915-936 | A value has both of two types exactly if it has their meet |
| TypeLattice.IntersectDenotes | services/vdoc/semantic_diff.go:915-936 | The intersection holds exactly the values of both sets |
| TypeLattice.SchemaType | services/vdoc/semantic_diff.go:702-743 | The loop over all `allOf` fragments returns the folded type set |
| TypeLattice.FoldTypesDenotes | services/vdoc/semantic_diff.go:702-743 | The folded set accepts exactly what the `type` and `nullable` of every fragment accept |
| TypeLattice.EffectiveTypesSound | services/vdoc/semantic_diff.go:702-743 | Everything a schema accepts lies in its effective type set |
| TypeLattice.TypeChangeBreakingExact | services/vdoc/semantic_diff.go:745-765 | Breaking exactly if the included side is not a subset, or it was unconstrained and the other is not; the second case over-reports exactly if the other set holds all six kinds |
| NumericBounds.EffectiveNumericBound | services/vdoc/semantic_bounds.go:44-61 | Fails exactly if a bound of that side cannot be converted; otherwise the result accepts exactly the numbers both keywords accept together |
| NumericBounds.StricterDenotes | services/vdoc/semantic_bounds.go:44-61 | The stricter of the inclusive and the exclusive keyword accepts their intersection |
| NumericBounds.CompareBoundSign | services/vdoc/semantic_bounds.go:81-102 | The sign is non-negative exactly if the new range is included in the old, non-positive exactly if the old is included in the new, zero exactly if they are equal |
| NumericBounds.BoundView.CanonicalNumericBounds | services/vdoc/semantic_bounds.go:64-78 | The keyword map after the in-place rewriting |
| NumericBounds.CanonicalBoundsKeepRange | services/vdoc/semantic_bounds.go:64-78 | The rewritten keywords accept the same numbers |
| NumericBounds.CanonicalBoundsUnique | services/vdoc/semantic_bounds.go:64-78 | Two convertible keyword maps, one of them satisfiable, get the same canonical keywords if and only if they accept the same numbers |
| NumericBounds.EmptyRangesDiffer | services/vdoc/semantic_bounds.go:64-78 | Without a satisfying number the canonical form is not unique: two empty ranges with different forms |
| DialectViews.SchemaDialectView | services/vdoc/semantic_dialect.go:22-86 | The view of a whole operation: at every schema of a 3.0 operation boolean exclusives become limits, at every schema of a 3.1 operation `nullable` goes, whatever order the maps are walked in, and a value reported as unchanged is |
| DialectViews.ViewCommutes | services/vdoc/semantic_dialect.go:22-86 | The view has the same positions, literal text aside, and at each of them the view of what stood there |
| DialectViews.DialectViewKeepsRange | services/vdoc/semantic_dialect.go:22-86 | The bound keywords of one node, read by the 3.1 rules after rewriting, accept exactly what they accept by the 3.0 rules before (boolean exclusives, sections 5.3 and 5.5 of draft-wright-json-schema-validation-00) |
| DialectViews.SchemaRangesKept | services/vdoc/semantic_dialect.go:22-86 | Every schema of a 3.0 operation, however nested, has in the view the range it has in the document |
| DialectViews.NullableForgotten | services/vdoc/semantic_dialect.go:22-86 | Every schema of a 3.1 operation keeps its bounds and its other literal keywords, and loses `nullable` alone |
| EnumSets.EnumIdentities | services/vdoc/semantic_diff.go:803-851 | The loop over fragments returns the intersection of every `enum` and `const` |
| EnumSets.FoldEnumsDenotes | services/vdoc/semantic_diff.go:803-851 | That set accepts exactly what every fragment’s `enum` and `const` accept |
| EnumSets.EffectiveEnumSound | services/vdoc/semantic_diff.go:803-851 | Everything a schema accepts lies in its effective enum |
| CanonicalForms.CanonicalKeepsMeaning | services/vdoc/semantic_constraints.go:129-201 | Two schemas with the same canonical constraint accept exactly the same values, at any nesting, through `allOf`, `anyOf` and `oneOf` in any order |
| PropertyRules.RuleCollector.Collect | services/vdoc/semantic_property_rules.go:111-155 | Adds exactly the rules one node tree puts on the name, and raises the unknown flag exactly if some keyword is not understood |
| PropertyRules.ObjectPropertyRule | services/vdoc/semantic_property_rules.go:111-155 | The conjunction of the rules of all nodes, and whether any of them is unknown |
| PropertyRules.ObjectPropertyRuleExact | services/vdoc/semantic_property_rules.go:111-155 | When not unknown, an object with fields is accepted by all nodes if and only if its required names are present and each property is accepted by the rule for its name; covers `allOf`, `additionalProperties` and boolean schemas |
| PropertyRules.ValueRuleCollector.Collect | services/vdoc/semantic_property_rules.go:163-217 | Narrows types and enums by every node of the tree, and raises the unknown flag on a keyword it does not read |
| PropertyRules.SimplePropertyRule | services/vdoc/semantic_property_rules.go:163-217 | The collected types, enum and unknown flag of a rule |
| PropertyRules.SimpleRuleDenotes | services/vdoc/semantic_property_rules.go:163-217 | Always an upper bound of the accepted values; exactly the accepted values when not unknown |
| PropertyRules.ChangedPropertyCompatibility | services/vdoc/semantic_property_rules.go:35-72 | Silent for undeclared fields and array items, otherwise the verdict on the two rules |
| PropertyRules.CompareRules | services/vdoc/semantic_property_rules.go:35-72 | The verdict on two simple rules, from emptiness, universality, types and enum members |
| PropertyRules.SilentMeansIncluded | services/vdoc/semantic_property_rules.go:35-72 | Neither breaking nor manual, with both parents present, means the accepted property values are included in the direction of the message |
| PropertyBreaks.BreakingMeansExcluded | services/vdoc/semantic_property_rules.go:35-72 | For every reported break: nothing accepted before is refused now if and only if the report is spurious, which can be read off the two simple rules: null and boolean types meet an enum that lists all their values, or no type meets all six kinds |
| PropertyBreaks.SpuriousBreak | services/vdoc/semantic_property_rules.go:35-72 | An input: objects whose properties are nullable booleans, one of them newly declared with the enum null, true, false; reported as breaking although every old object stays accepted |
| LineAnchors.FillTable | services/vdoc/store.go:3671-3714 | After the loops each cell of the flat table holds the length of a longest common subsequence of the two remaining ranges |
| LineAnchors.LcsIsUpperBound | services/vdoc/store.go:3671-3714 | No common subsequence that starts at a cell is longer than the cell says |
| LineAnchors.Traceback | services/vdoc/store.go:3671-3714 | Returns a common subsequence whose length is the first cell |
| LineAnchors.LcsAnchors | services/vdoc/store.go:3671-3714 | The anchors increase on both sides and match equal lines; no common subsequence is longer when the table fits, and there are none when it does not |
| LineAnchors.TableFitsMeans | services/vdoc/store.go:3671-3714 | The division in the guard is exact: the table is built if and only if rows times columns stays within the limit |
| LineAnchors.Candidates | services/vdoc/store.go:3728-3775 | Exactly the pairs of lines that occur once on each side, by their place on the old side |
| LineAnchors.SearchTails | services/vdoc/store.go:3728-3775 | Binary search returns the first tail that is not below the target |
| LineAnchors.PlaceCandidate | services/vdoc/store.go:3728-3775 | One candidate placed: tails stay strictly increasing, each is the smallest end of an increasing choice of its length, and the back pointers lead through one |
| LineAnchors.RanksBoundChains | services/vdoc/store.go:3728-3775 | No increasing choice of candidates is longer than the tails array |
| LineAnchors.LongestIncreasing | services/vdoc/store.go:3728-3775 | Following the back pointers gives a strictly increasing choice, and none is longer |
| LineAnchors.PatienceAnchors | services/vdoc/store.go:3728-3775 | The anchors are unique matches increasing on both sides, as many as any such choice of unique matches |
| LineDiff.TextDiff | services/vdoc/store.go:3568-3594 | The items applied to the old lines give the new lines, and inverted give the old ones; added minus removed is the difference in length; there are no items if and only if the contents are equal, for Markdown if and only if one sequence of lines can be written as either text by a choice of newlines; the items quote blocks each of which the recursion leaves at its end |
| LineDiff.PatchBothWays | services/vdoc/store.go:3613-3665 | Any cover of the two texts by ordered, disjoint blocks with equal lines outside is a patch in both directions once expanded into items |
| LineDiff.LineDiffItems | services/vdoc/store.go:3613-3665 | The items of a full diff expand a cover of both texts, and each block is what trimming leaves of a range that the recursion reaches through best anchors level by level, where there is no anchor or the depth is 64; with fewer than 64 lines on one side every block that fits the table shares no line |
| LineBlocks.BlockCollector.Collect | services/vdoc/store.go:3635-3665 | The recursion appends blocks that cover its range, ordered and disjoint, equal outside; it ends because ranges shrink, not because depth is limited; equal ranges give no block, and every block is explained by a range reached at its depth |
| LineBlocks.ExplainedSharp | services/vdoc/store.go:3635-3714 | Such a block shares no line between its sides unless it is too large for the table or what trimming leaves of a range reached at depth 64 |
| LineBlocks.FewLinesSharp | services/vdoc/store.go:3635-3665 | Each level passes an anchor, so with fewer than 64 lines on one side only the table limit can leave a shared line |
| LineBlocks.BlockCollector.CollectBetween | services/vdoc/store.go:3635-3665 | The blocks between the anchors and after the last one cover the range |
| LineBlocks.BlockCollector.Append | services/vdoc/store.go:3716-3726 | Adds the block of the range and nothing else |
| LineBlocks.Trim | services/vdoc/store.go:3635-3665 | Removes the longest common prefix and then the longest common suffix, and everything if the ranges are equal |
| LineBlocks.FindAnchors | services/vdoc/store.go:3635-3665 | As many unique matches as increase together if there is one; else a longest common subsequence if the table fits; none only if neither finds a match |
| LineDiff.ExpandBlock | services/vdoc/store.go:3613-3633 | A block becomes paired modifications, then removals or additions, with running line numbers |
| LineDiff.BalanceAll | services/vdoc/store.go:3568-3633 | Additions minus removals is the change in the number of lines |
| LineDiff.Summarize | services/vdoc/store.go:3568-3594 | The counts of added, removed and modified items, which together are all items |
| TextLines.MarkdownLinesExact | services/vdoc/store.go:3777-3782 | For every sequence of lines without newlines and every choice of LF or CRLF between them, no LF behind a line that ends in CR, the Markdown lines of the text are exactly those lines |
| TextLines.MarkdownJoinSplit | services/vdoc/store.go:3777-3782 | Every text is written down by its own Markdown lines and some such choice, so no line holds a newline |
| TextLines.PlainLinesExact | services/vdoc/text_document.go:27-33 | For every sequence of lines without newlines, joined by LF, the plain lines of the text are exactly those lines |
| TextLines.JoinSplit | services/vdoc/store.go:3777-3782 | No line of a split holds a newline, and writing the lines with LF between them gives the text |
| TextLines.SplitMarkdownInjective | services/vdoc/store.go:3777-3782 | Two texts have the same Markdown lines if and only if one sequence of lines can be written as either by a choice of newlines |
| TextLines.SplitPlainInjective | services/vdoc/text_document.go:27-33 | Two texts have the same plain lines if and only if they are equal |
| JsonPointer.LookupJsonPointer | services/vdoc/openapi.go:643-694 | The loop over the pointer’s parts: fragment sign, percent decoding, escapes, array indexes, refusals |
| JsonPointer.CheckTildes | services/vdoc/openapi.go:643-694 | Accepts exactly the parts in which each tilde is followed by 0 or 1 |
| JsonPointer.PointerRoundTrip | services/vdoc/openapi.go:643-694 | For every node of every document, escaping, joining and percent-encoding its path and looking it up returns that node (sections 3, 4 and 6 of RFC 6901) |
| JsonPointer.PathUnescapeExact | services/vdoc/openapi.go:643-655 | A fragment is decoded to a text if and only if it spells that text, each character as itself or as two hexadecimal digits of either case, and every percent sign as digits |
| JsonPointer.EncodedRoundTrip | services/vdoc/openapi.go:643-694 | The path of every node finds it under every such percent encoding |
| JsonPointer.LookupReaches | services/vdoc/openapi.go:643-694 | Whatever a lookup returns is a node of the document, at some path |
| JsonPointer.MalformedRejected | services/vdoc/openapi.go:643-694 | A malformed escape in any part refuses the whole pointer |
| JsonPointer.ArrayTokens | services/vdoc/openapi.go:643-694 | An array is entered exactly by the decimal spelling of an index below its length, so leading zeros and signs are refused |
| RefResolver.Resolver.Value | services/vdoc/openapi.go:480-565 | Succeeds exactly if the unfolding exists and stays within the node, byte and depth limits, returns it, and has spent exactly its visits and bytes; terminates by references not yet seen, then value size. The theorems of RefPositions say what the unfolding holds |
| RefPositions.ReferenceWithSiblings | services/vdoc/openapi.go:511-520 | A resolved 3.1 schema reference with keywords beside it has exactly the resolved keywords, and an `allOf` list of the resolved target followed by their own resolved `allOf` |
| RefPositions.ReferenceAccepts | services/vdoc/openapi.go:511-520 | Whatever the other keywords mean, it accepts a value if and only if the resolved target and the resolved siblings both do |
| RefPositions.SchemaAnswered | services/vdoc/openapi.go:480-610 | For every schema written down from its shape: where a position has no reference the answer has the same keywords, schemas answered in turn and literals as they were up to the spelling of numbers; where it has one, what the reference alone resolves to, with the siblings where they are kept |
| RefPositions.SchemaClosed | services/vdoc/openapi.go:480-610 | Whatever value stands where a schema is expected, no `$ref` text is left at it or at any schema below its keywords, including what its references led to |
| RefPositions.ObjectIsAnswered | services/vdoc/openapi.go:480-610 | The same for operation objects: schemas, maps of objects, responses, lists and plain members are answered in turn, examples, defaults, enums, values and extensions stay as they were, and a reference becomes its target under the summary and description beside it |
| RefPositions.OperationClosed | services/vdoc/openapi.go:480-610 | Where references and the texts beside them are text, no `$ref` is left at any object or schema of a resolved operation |
| RefResolver.Resolver.Visit | services/vdoc/openapi.go:128-154 | Refuses exactly at the node, byte and depth limits and on NUL text; otherwise counts the node and its bytes |
| RefResolver.Resolver.Follow | services/vdoc/openapi.go:480-565 | A reference: the target with the reference marked seen, then the sibling keywords that a 3.1 schema keeps, together as ReferenceWithSiblings says |
| RefResolver.Resolver.Fields | services/vdoc/openapi.go:480-565 | An object: every field under the kind of its position, in whatever order the map is walked |
| RefResolver.Resolver.Elements | services/vdoc/openapi.go:480-565 | A list: every element in order |
| RefResolver.TargetSmaller | services/vdoc/openapi.go:480-565 | Following a reference strictly lowers the number of references not yet seen, so resolution ends without any budget |
| RefResolver.ReferenceParts | services/vdoc/openapi.go:480-565 | Result, visits, bytes and depth of a reference from those of its target and of its kept siblings |
| RefExpansion.UnfoldIsExpansion | services/vdoc/openapi.go:480-565 | What the resolver returns is the expansion a reader with no record of seen references would make |
| RefExpansion.UnfoldExact | services/vdoc/openapi.go:480-610 | Resolution succeeds if and only if the expansion is finite and no path follows one reference twice |
| RefExpansion.UnfoldNeverRepeats | services/vdoc/openapi.go:480-565 | When resolution succeeds no path below the value follows one reference twice |
| RefExpansion.CycleNeverEnds | services/vdoc/openapi.go:480-565 | A position that leads back to itself has no finite expansion |
| RefExpansion.SameKindNeverEnds | services/vdoc/openapi.go:480-565 | A reference met again under the same kind inside its own target has no finite expansion |
| RefExpansion.RefusedKindsDiffer | services/vdoc/openapi.go:480-565 | A document with a finite expansion is refused only where a reference is met again under another kind |
| RefWitnesses.FiniteYetRefused | services/vdoc/openapi.go:480-565 | A complete 3.0 document with a finite expansion is refused: a parameter is met again as a schema inside itself, and the cycle set holds references without their kind |
| RefExpansion.SeenOnlyRefuses | services/vdoc/openapi.go:480-565 | References seen on other paths change nothing: success with a larger seen set is the same success with a smaller one, so reuse in siblings is allowed |
| RefExpansion.NoReferenceLeft | services/vdoc/openapi.go:480-610 | Where every `$ref` key, and every summary and description beside a 3.1 reference object, holds a string, the result holds no reference at any position that is read as one |
| RefOutput.OutputSize | services/vdoc/openapi.go:480-565 | Before OpenAPI 3.1, or where no reference object has a summary or description beside it, the result holds no more nodes than were visited |
| RefOutput.OutputWithText | services/vdoc/openapi.go:480-565 | In every version the result holds no more nodes than the visits and the summaries and descriptions beside what was visited |
| RefWitnesses.OutputExceeds | services/vdoc/openapi.go:519-531 | A complete 3.1 document in which two visits put three nodes into the result |
| NumberGrammar.ScanText | utils/jsonvalue/value.go:29-81 | The grammar of section 6 of RFC 8259 recognises every literal |
| NumberGrammar.ScanSound | utils/jsonvalue/value.go:29-81 | What the grammar recognises is a literal with exactly that text |
| JsonNumbers.CanonicalNumber | utils/jsonvalue/value.go:27-81 | The step-by-step rewriting: cut the exponent, drop the point, trim zeros, choose a spelling; refuses too long a text or too large an exponent |
| JsonNumbers.SpellDigits | utils/jsonvalue/value.go:29-81 | The last part alone: the spelling of sign, digits and scale after reducing them |
| JsonNumbers.CanonicalKeepsValue | utils/jsonvalue/value.go:29-81 | For an accepted number the answer is a number of the same rational value |
| JsonNumbers.EqualIffSameValue | utils/jsonvalue/value.go:29-81 | Two accepted numbers get equal text if and only if they are equal as rationals, whatever length limits they were read with |
| JsonNumbers.LayoutExact | utils/jsonvalue/value.go:29-81 | Which spelling it is: all digits written out exactly for zero, whole numbers below 10^32 and fractions from 10^-7 on, and otherwise one digit before the point, none to spare behind it, and a plain exponent |
| JsonNumbers.ValueDeterminesDecimal | utils/jsonvalue/value.go:29-81 | A rational has one reduced decimal form |
| JsonNumbers.CanonicalIdempotent | utils/jsonvalue/value.go:27-106 | A canonical number is its own canonical form under the storage limit |
| JsonNumbers.ExpansionRecovered | utils/jsonvalue/value.go:83-106 | The full decimal expansion of an accepted number fits in 150000 characters and normalises back to the same text |
| JsonNumbers.TrailingSpaceStays | utils/jsonvalue/value.go:29-81 | For an accepted text the answer is a number if and only if the text was one: white space behind a number stays in the answer |
| JsonNumbers.TrailingSpaceAccepted | utils/jsonvalue/value.go:29-81 | Such a text is accepted: `1.5` followed by a blank comes back with its blank |
| JsonNumbers.DigitLimitsExact | services/vdoc/openapi.go:556-561 | The two digit counts of a number are within their limits exactly if its value is a multiple of the smallest storable fraction and below the largest storable power of ten |
| JsonNumbers.NormalizeDecides | utils/jsonvalue/value.go:83-106 | Normalised documents are equal if and only if the documents are equal up to the spelling of numbers |
| ChatHistory.LimitedAIChatHistory | services/vdoc/ai_chat_store.go:490-520 | The loop from the newest message backwards, with one budget for text and one for attachments, and the final reversal |
| ChatHistory.HistoryFits | services/vdoc/ai_chat_store.go:490-520 | Neither budget is ever exceeded |
| ChatHistory.LatestAreSent | services/vdoc/ai_chat_store.go:490-520 | Over budget the last of the entries are sent, in order and whole but for the first, of which a beginning is sent; anything is left out or cut only when every rune of the budget is used |
| ChatHistory.TakenIfItFits | services/vdoc/ai_chat_store.go:490-520 | An attachment is sent if and only if it fits beside those taken before it, and is named otherwise |
| ChatHistory.ShortHistoryWhole | services/vdoc/ai_chat_store.go:490-520 | A conversation inside both budgets is sent whole and in order |
| AiChat.ChatRepository.ReserveAIChatGeneration | db/pgdb/vdoc/ai_repo.go:162-173 | Puts the token on an existing session row and changes nothing else |
| AiChat.ChatRepository.CompleteAIChatGeneration | db/pgdb/vdoc/ai_repo.go:177-192 | Clears the token exactly if the row still carries the expected one |
| AiChat.ChatRepository.InsertAIChatMessageIfAbsent | db/pgdb/vdoc/ai_repo.go:94-100 | Adds the message exactly if no session holds its id |
| AiChat.ChatRepository.CompleteTransaction | services/vdoc/ai_postgres_repository.go:123-174 | Commits token and messages together, exactly if the guard holds, the token is current and the ids are unused; otherwise leaves every row as it was |
| AiChatRuns.StepOk | services/vdoc/ai_chat_store.go:178-448 | Every atomic step of every process keeps the invariant |
| AiChatRuns.RunOk | services/vdoc/ai_chat_store.go:178-448 | The invariant holds in every state of every interleaving |
| AiChatRuns.AnswersAreSerial | services/vdoc/ai_chat_store.go:178-319 | In every state of every run each conversation is one that a serial execution produces: each answer was computed from exactly the messages before it, and times increase |
| AiChatRuns.TokensCommitOnce | services/vdoc/ai_chat_store.go:416-448 | No token commits twice |
| AiChatRuns.OnlyTheLatestCommits | services/vdoc/ai_chat_store.go:276-319 | A request that commits is the last that reserved its session, and it appends one question and one answer to exactly what it read |
| AiChatRuns.OvertakenNeverCommits | services/vdoc/ai_chat_store.go:381-448 | A request overtaken by a later reservation stays overtaken and never commits again |
| AiChatRuns.MessagesOnlyGrow | services/vdoc/ai_chat_store.go:276-319 | Committed messages stay in place for the rest of the run |
| ChatProgress.LatestCanBuild | services/vdoc/ai_chat_store.go:178-275 | A request that nobody has overtaken can prepare its question, whatever other requests do |
| ChatProgress.LatestCommits | services/vdoc/ai_chat_store.go:276-319 | Once answered, its commit succeeds, and leaves the question, the answer and the time of the answer on the session, free for the next request |
| ChatProgress.FailureFrees | services/vdoc/ai_chat_store.go:406-414 | A failed request that was not overtaken frees its session; conversations and all other rows stay as they were |
| AiSummary.SummaryRepository.ReserveAISummaryGeneration | db/pgdb/vdoc/ai_repo.go:105-134 | Makes the row pending under the new token, whatever it was |
| AiSummary.SummaryRepository.CompleteAISummaryGeneration | db/pgdb/vdoc/ai_repo.go:138-158 | Replaces the row exactly if it still carries the expected token |
| AiSummary.SummaryRepository.UpsertAISummaryIfUnchanged | db/pgdb/vdoc/ai_repo.go:62-68 | Saves exactly if the row has the update time that was read, or is still missing |
| AiSummary.SummaryRepository.ClaimSummaryJob | db/pgdb/vdoc/summary_jobs.go:24-40 | Takes a job that became available first under a new lease, or none exactly if none is available |
| AiSummary.SummaryRepository.RenewSummaryJobLease | db/pgdb/vdoc/summary_jobs.go:63-67 | Succeeds exactly for the lease on the job that has not run out |
| AiSummary.SummaryRepository.FinishSummaryJob | db/pgdb/vdoc/summary_jobs.go:42-48 | For its lease only, deletes the job without retry and puts it back for later with retry; ClosedForGood and ClosedForRetry say so by the claims that follow |
| SummaryJobs.ClosedForGood | services/vdoc/summary_worker.go:170-205 | In every behaviour, once the last claimant of a job has closed it without retry, no later step claims it |
| SummaryJobs.ClosedForRetry | services/vdoc/summary_worker.go:170-205 | Once the last claimant has closed it with retry, the job stays queued until it is claimed, and can be claimed if and only if five seconds have passed |
| SummaryJobs.LeaseExcludes | db/pgdb/vdoc/summary_jobs.go:24-67 | A claim, and every renewal by its holder, keeps other claims of the job away for 180 seconds, unless the holder closes it |
| SummaryJobs.CrashedJobReturns | db/pgdb/vdoc/summary_jobs.go:24-40 | A job whose claimant is never heard of again can be claimed anew if and only if the 180 seconds have passed |
| SummaryJobs.AnswerIsStored | services/vdoc/ai_postgres_repository.go:66-94 | The answer of a run that holds its token and lease is what the row says afterwards |
| SummaryJobs.RecoveryExact | db/pgdb/vdoc/summary_jobs.go:9-16 | In every behaviour a row is failed by recovery if and only if it carries a token for which no job is left and its run began 300 seconds ago or earlier |
| AiSummary.SummaryRepository.RecoverOrphanAISummaries | db/pgdb/vdoc/summary_jobs.go:9-16 | Fails the pending rows that are old and have no job, and no others |
| AiSummary.SummaryRepository.CompleteTransaction | services/vdoc/ai_postgres_repository.go:66-94 | Checks and renews the lease, then the guard, then the token; all of it or nothing, with the reason of refusal |
| AiSummaryRuns.StepOk | services/vdoc/ai_summary_store.go:180-481 | Every atomic step of runs, workers and the clock keeps the invariant |
| AiSummaryRuns.BehaviourOk | services/vdoc/ai_summary_store.go:180-481 | The invariant holds in every state of every behaviour |
| AiSummaryRuns.TokenMeansPending | services/vdoc/ai_summary_store.go:386-426 | In every behaviour a row carries a token if and only if it is pending |
| AiSummaryRuns.TokensEndOnce | services/vdoc/ai_summary_store.go:240-280 | Each job and each manual run gets at most one terminal write, however often its lease expires and is claimed again |
| AiSummaryRuns.EndsAreLogged | services/vdoc/ai_summary_store.go:386-426 | The terminal writes are exactly the steps that take a token off its row without a later reservation, staging or skip taking the row over |
| AiSummaryRuns.SupersededLeavesSummaries | services/vdoc/ai_summary_store.go:457-481 | A superseded run leaves every summary as it is, whatever it still does |
| AiSummaryRuns.SuccessNeedsLease | services/vdoc/ai_completion_context.go:22-41 | A saved success came from the run whose token the row carried and, for a job, from its last claimant holding an unexpired lease |
| AiSummaryRuns.OldLeaseCanOnlyFail | services/vdoc/summary_worker.go:126-270 | Once a job is claimed again, the earlier claimant can neither renew, save a result, put back nor delete it; it changes the summary exactly if it fails the row while the row still carries the job’s token |
| AiSummaryRuns.OldLeaseFails | services/vdoc/ai_summary_store.go:457-481 | Such a failure is reachable: the earlier claimant fails the row and the answer of the current holder of the lease is refused |
| DraftWorkflow.RunKeeps | services/vdoc/store.go:2307-2529 | The workflow invariant holds in every state of every run |
| DraftWorkflow.RunEvolves | services/vdoc/store.go:3329-3441 | Along every run versions are never removed or changed, rejected and published drafts never move, and submission times only grow |
| DraftWorkflow.VersionsComeFromApprovals | services/vdoc/store.go:3329-3441 | Each version comes from one draft of its own, now published, approved with the review revision of its latest submission, and carries what that revision described |
| DraftWorkflow.BranchesAreTidy | domain/documentdraft/create.go:10-46 | On every branch version names are unique and neighbouring versions differ in effective hash |
| DraftWorkflow.SubmissionsIncrease | domain/documentdraft/flow.go:16-32 | The submission times of one draft strictly increase |
| DraftWorkflow.CreateKeeps | services/vdoc/store.go:3203-3327 | Creating a draft keeps the invariant and only adds that draft |
| DraftWorkflow.UpdateKeeps | services/vdoc/store.go:2307-2397 | Editing keeps the invariant and touches open drafts only |
| DraftWorkflow.SubmitKeeps | services/vdoc/store.go:2408-2462 | Submitting keeps the invariant and moves the submission time forward |
| DraftWorkflow.ReviewKeeps | services/vdoc/store.go:2464-2529 | Every outcome of a review, also a failed publication, keeps the invariant |
| DraftWorkflow.PublishKeeps | services/vdoc/store.go:3329-3517 | Publishing keeps the invariant and every older version |
| DraftWorkflow.WorkflowStore.LatestVersion | services/vdoc/store.go:3519-3527 | The newest version of a branch in any map order |
| DraftWorkflow.WorkflowStore.PreviousVersion | services/vdoc/store.go:3528-3536 | The neighbour right before a version on its branch, or none exactly if it is the first |
| DraftWorkflow.WorkflowStore.EnsureVersionNameAvailable | domain/documentversion/flow.go:21-28 | Available exactly if no version of the branch has the name |
| DraftWorkflow.WorkflowStore.EnsureChangedFromLatest | domain/documentdraft/create.go:10-46 | Changed exactly if the latest version of the branch has another effective hash |
| DraftWorkflow.WorkflowStore.CreateDraft | services/vdoc/store.go:3203-3327 | The new state and the error of a creation; nothing changes on an error |
| DraftWorkflow.WorkflowStore.UpdateDraft | services/vdoc/store.go:2307-2397 | The new state and the error of an edit; nothing changes on an error |
| DraftWorkflow.WorkflowStore.EnsureDraftPreviewFacts | services/vdoc/openapi_facts.go:11-67 | Changes only the cached preview of one draft, to its baseline: latest while open, the reviewed one once published |
| DraftWorkflow.WorkflowStore.SubmitDraft | services/vdoc/store.go:2408-2462 | The new state and the error of a submission; nothing changes on an error |
| DraftWorkflow.WorkflowStore.ReviewDraft | services/vdoc/store.go:2464-2529 | The new state and the error of a review under the expected review revision; what each decision leads to is said by the theorems of DraftDecisions |
| DraftDecisions.DecisionsDecide | domain/documentdraft/flow.go:34-53 | In every run a draft becomes rejected, returned for changes or published exactly in a step that accepts a review with that decision, and submitted exactly in a step that accepts its submission |
| DraftDecisions.DecidedForGood | domain/documentdraft/flow.go:34-53 | After an accepted rejection or approval no update, submission or review of that draft is ever accepted |
| DraftDecisions.ReturnedForChanges | domain/documentdraft/flow.go:16-53 | After an accepted request for changes, until the next submission, an update is accepted if and only if it names the current revision, has a free and non-blank name and content that parses and differs from the latest version, and the result can then be submitted |
| DraftDecisions.VersionsByApproval | services/vdoc/store.go:3329-3441 | Versions appear exactly in steps that accept an approval, one at a time |
| DraftDecisions.DraftHoldsLastWritten | services/vdoc/store.go:2307-2397 | Content, name, changelog and commit of a draft are what the last accepted creation or update that gave them said |
| DraftDecisions.VersionHoldsLastWritten | services/vdoc/store.go:3329-3441 | A version holds, part by part, what was last written to its draft before the approval, and its normalised content is what the parser makes of that |
| DraftWorkflow.WorkflowStore.PublishDraft | services/vdoc/store.go:3329-3517 | The new state and the error of a publication, with the checks it repeats |
| Administrators.AdministratorsRemain | services/vdoc/store.go:712-1465 | In every run, once a user exists an active SuperAdmin exists, every active project has an active admin member whose user is active, and its team exists |
| Administrators.ApplyKeeps | services/vdoc/store.go:942-1465 | Every successful administration operation keeps those rules |
| Administrators.PatchUserGuardExact | services/vdoc/store.go:942-1003 | A SuperAdmin’s change to a user is refused if and only if it would break the rules |
| Administrators.MemberGuardExact | services/vdoc/store.go:1389-1465 | A permitted change or removal of a member is refused if and only if it would break the rules |
| Administrators.RolesAreGranted | services/vdoc/store.go:1290-1465 | In every run an active member has the role given by the last accepted operation about the membership |
| Administrators.TraitsAreSet | services/vdoc/store.go:712-1003 | In every run the status of a user, and whether the user is a SuperAdmin, are what the last accepted operation about it said; the first to register is a SuperAdmin |
| Administrators.DirectoryStore.HasOtherActiveProjectAdmin | services/vdoc/store.go:3871-3881 | True exactly if another active member with the admin role and an active user remains, in any map order |
| Administrators.DirectoryStore.HasOtherActiveSuperAdmin | services/vdoc/store.go:942-1003 | True exactly if another active SuperAdmin remains |
| Administrators.DirectoryStore.IsLastAdminSomewhere | services/vdoc/store.go:942-1003 | True exactly if some active project would be left without an active admin |
| Administrators.DirectoryStore.RegisterUser | services/vdoc/store.go:712-748 | The first user becomes an active SuperAdmin; nothing changes on an error |
| Administrators.DirectoryStore.PatchUserStatus | services/vdoc/store.go:942-1003 | The new state or the error of a change to a user |
| Administrators.DirectoryStore.ArchiveUnusedTeam | services/vdoc/store.go:1108-1145 | A team is removed only if no active project belongs to it |
| Administrators.DirectoryStore.CreateProjectWithAdmin | services/vdoc/store.go:1147-1187 | A project starts with one active admin member whose user is active |
| Administrators.DirectoryStore.ArchiveActiveProject | services/vdoc/store.go:1263-1288 | The new state or the error of archiving |
| Administrators.DirectoryStore.AddProjectMember | services/vdoc/store.go:1290-1332 | Adds a member or brings one back, for an active user only |
| Administrators.DirectoryStore.PatchProjectMemberRole | services/vdoc/store.go:1389-1431 | Changes a role unless the last active admin would lose it |
| Administrators.DirectoryStore.RemoveProjectMember | services/vdoc/store.go:1433-1465 | Removes a member unless it is the last active admin |
| AuditPaging.PagingComplete | domain/vdoc/read_repository.go:47-65 | Following the cursors from any start returns every log that passes the filters and lies behind the start exactly once, in strictly descending time and id |
| AuditPaging.PagingEnds | services/vdoc/read_store.go:143-179 | Following the cursors always ends, within one page more than there are logs, and never meets a refused cursor, if every log makes a cursor within the limits of time, id and encoded length |
| AuditPaging.PlainIdsAddressable | domain/vdoc/read_repository.go:47-65 | Ids of at most 64 characters without JSON escapes always make such a cursor |
| AuditPaging.EscapedIdRefused | domain/vdoc/read_repository.go:47-65 | An id of 64 characters that are all escaped makes a cursor longer than 512 characters, which is refused |
| AuditPaging.ListsOne | services/vdoc/store.go:374-453 | A set of logs has one listing in descending time and id |
| AuditPaging.WordsNarrow | services/vdoc/store.go:374-453 | A query finds what each of its words alone finds, all together |
| AuditPaging.OneWord | services/vdoc/store.go:374-453 | One word alone finds the logs that have it: times from and before, equal project, action and resource, and for an actor the id or a part of the mail address in either case |
| AuditPaging.EverythingFound | services/vdoc/store.go:374-453 | A query without words finds every log |
| AuditPaging.NormalizeAuditQuery | services/vdoc/read_store.go:110-133 | Trimmed words, clamped limit, ordered times, or the error |
| AuditPaging.AuditStore.QueryAuditLogsMemory | services/vdoc/store.go:374-453 | For every query, also with a limit of 0 or above 201, and every access: the error, or the first `limit` logs of the descending listing of all that pass, in any map order |
| AuditPaging.AuditStore.QueryAuditLogPage | services/vdoc/read_store.go:143-179 | The error of the query or of the access, or one page of that listing, with a cursor exactly if more remains |

## Left out

Schema compatibility:

- SchemaSoundness.RequestSound: alignment and the condition on new `items` are sufficient, and SchemaGaps gives for each a family that is silent without it, with the exact condition for harm; a condition that is also necessary for every schema pair would have to decide whether the place is reachable by any value. Required names that `readOnly` and `writeOnly` waive in one direction are left out, because what they waive depends on every branch that describes the property.
- SchemaSoundness.ResponseSound: the same, without the condition on `items`.
- DecisiveFindings.LostValueBreaks: the condition leaves out `allOf`, whose branches are compared as a whole and then reviewed, and pairs whose findings a person must judge; within them QuietFindings and SchemaSoundness still give a finding to act on.
- PropertyRules.ObjectPropertyRuleExact: stated for objects with at least one field, because rules speak about property values, and the empty object has none through which it could be refused.
- CanonicalForms.CanonicalKeepsMeaning: schemas inside keywords that are not interpreted are compared as they stand and not brought to canonical form.
- Tuple-form `items`, patterns and every other keyword the comparator does not read: a difference in them is a finding to review, and their meaning is a parameter.
- SchemaFields.CollectSchemaFields: without `readOnly` and `writeOnly`, so the required sets that depend on the direction are not modelled; the same holds for SchemaFields.FieldCollector.Collect and Merge and for CompareSchemaChildren.
- The difference between a missing and an empty `required`, `properties`, `allOf`, `anyOf`, `oneOf` or `type`, malformed keyword values, nil schemas, and type names beyond the seven of JSON Schema.
- Canonical JSON texts of enum members and constraints are compared as values.
- Order, severity and wording of findings; comparison of parameters, request bodies, responses and endpoints around the schemas.

Line diff:

- Global minimality, which patience diff does not promise; optimality is proved for each range.
- Block and diff identifiers and times in the returned records.

References, pointers and numbers:

- RefResolver.Resolver.Value: the set of collected references, cancellation and the kinds of error; every error of the resolver and the pointer is one refusal.
- RefPositions.OperationClosed: `$ref` keys that are no text, and summaries or descriptions beside a reference object that are no text, are excluded, because what stands there is copied and may itself hold a reference.
- YAML and JSON decoding, path items, parameters and security schemes.
- Strings stand for byte strings.

AI generations:

- Permission, provider, prompt and context checks are outcomes that may go either way; snapshots are atomic reads.
- AiSummary.SummaryRepository.ClaimSummaryJob: the locking of the selected row is not modelled; a claim is one atomic step.
- The clock moves strictly between two readings, and a row is written at the time it is stamped with.
- AiSummary.SummaryRepository.ReserveAISummaryGeneration: refusals of empty arguments and the row's other columns, here and in the other row updates.
- Audit rows, token usage, streaming, saving an unchanged pending row again, and that a run ever ends.

Drafts and versions:

- One operation at a time: the checks and locks that several processes need when they publish state, and optimistic updates.
- Permissions, object storage, endpoints, the contents of diffs, and refreshing facts of an older parser: the parser version is fixed.
- A content hash stands for the content it was taken from, and ids are ordered as numbers; promoting a version is a creation with its content.

Administrators:

- Names, mail addresses and passwords: each operation is told the outcome of its argument checks.
- Creating users and teams by an administrator is a step of the run model and not a method of the store.

Audit log:

- AuditPaging.PagingComplete: a cursor is kept decoded, with the length of the text that encoding gives it; other spellings a client could make up, and ids with bytes that are not text, are not modelled. The log set is fixed while paging.
- Case folding beyond ASCII, the names added to each log for display, and the SQL read path; whether a member manages a project is a given set.
- White space is the listed characters of the first 256 code points.

HTTP, configuration, cryptography, migrations and SQL text are no part of this model.
