# Gateway algorithms, verified

A Dafny model of the hardest logic of a two-plane API gateway, and proofs about it. Algorithms that
work step by step are methods and classes proved against specification functions; the theorems are
lemmas about those functions, so they hold of the code-shaped methods too.

| component | files | main results |
|---|---|---|
| Compatibility | SchemaDiff, SchemaDiffSoundness, SchemaDiffExactness, SchemaDiffLimits, RequestDiff, ModelDiff, ModelDiffExactness | nothing breaking reported means old requests stay accepted; a report breaks exactly where some caller is lost; inputs that show why the hypotheses are needed |
| Schema evaluation | SchemaNodes, SchemaValidity, SchemaKeywords, SchemaValidator, SchemaDepth | every keyword's meaning on plain values; an error budget changes neither the verdict nor the issues it leaves room for; the nesting bound matters only where it is reached |
| Schema compilation | SchemaSource, SchemaImage, CompilerState, CompilerSafety, SchemaRefusals, SchemaCompiler, BundleMeaning, SteadyDocuments | dialects and references compiled away without changing what is accepted, and exactly where not |
| XSD content | XsdModel, XsdSoundness, XsdExactness, XsdWords, XsdFirst, XsdDeterminism, XsdValidator | accepted content is in the language of its model; greedy matching is exact on nested models under Unique Particle Attribution; what is reported at the end |
| JSON text | Json, JsonGrammar, JsonReading, JsonReader, Canonical | the reader accepts exactly the grammar; canonical text decides equality |
| Releases | ReleaseTables, ReleaseMachine, ReleaseSafety, ReleaseContent, ReleaseStore, ReleaseRunner, ReleaseOutcomes | exactly when a release is published; safety over every run of jobs, crashes, replays, withdrawals, leases and pruning |
| XML scan | XmlTokens, XmlScan, XmlScanner, XmlTree, XmlEnvelope, XmlPrinting, XmlMessages | the envelope scan answers as the tree of the same text says; a prefix that shows the body child decides; written documents are read back |
| Pattern linter | RegexSyntax, RegexLint | the character scan decides a property of the pattern's structure |
| Backends | Breaker, BreakerRuns, BackendSelection | run-level guarantees of the circuit breaker; a fair, complete order |
| Operations | OperationMatch | the index answers as a plain search |
| Telemetry | Percentiles, PercentileLaws | percentiles near the exact quantile, monotone, independent of splitting |

Conventions: JSON text is a sequence of UTF-16 code units and an object an ordered list of members;
number lexemes are kept as written, and where a number's value matters it is a real supplied by a
`Library`. The code holds one floating-point number instead: there `enum: [1]` takes `1.0` and
`[1, 1.0]` repeats an item, here they differ, and there `1e400` is read as infinity and printed as
`null`, so that `[1e400]` and `[null]` share a canonical text (shared/json-reader.ts:199,
shared/canonical.ts:20), here they do not. A thrown error is
`None`, `Refused` or an issue; a database transaction is one atomic function of the tables; the
clock, the network, plan computation, regular expression matching, formats and entity decoding are
parameters.

`dafny verify dfyconfig.toml` checks the whole project.

## Where the code does not meet a plain reading

- The compatibility report is silent on the inputs named by the lemmas of `SchemaDiffLimits` although
  values are lost; the main theorem states its hypotheses accordingly. One of them contradicts the
  comment at shared/diff.ts:603: a reference to a reference is not resolved by the next step.
- A body or a SOAP action declared where none was is not breaking in the report, and loses requests
  (`RequestDiff.UndeclaredBody` and `ModelDiff.SoapActionExact` are the exact conditions).
- `{ not: {} }`, the compiled form of `false`, accepts at the evaluator's last level
  (`BundleMeaning.FalseAtTheBound`, and `SteadyDocuments.WrappedFalse` for schemas that get there),
  and an untyped nullable schema takes null against its own `enum`
  (`BundleMeaning.NullableExact`), where the Schema Object of OpenAPI 3.0.3 would not. On documents
  without either the meaning is kept for every value (`SteadyDocuments.SteadyMeans`).
- After a hoist that threw, a component may be left referring to one taken out again
  (`BundleMeaning.ThrowLeavesDangling`); it cannot happen where every component is supported
  (`CompilerSafety.HoistKeeps`), and `BundleMeaning.ClosedExactly` says what depends on it.
- Pointers that are sanitised to one name overwrite each other (`BundleMeaning.CollisionChangesMeaning`).
- A required XSD group refuses content without children even if its language has the empty word
  (`XsdExactness.EmptyContentRefused`), and optional particles are reported at the end of the content
  unless they are quiet there (`XsdExactness.QuietExact`); `XsdExactness.EndExact` is the exact condition.
- A required XSD item that may match nothing ends the scan of first names, so that what may follow it
  is not looked for (`XsdFirst.EmptyItemHides`); `XsdFirst.ScanRight` is the exact condition.
- The envelope scan marks that a body has begun and never that it has ended: with an empty body, a
  child of the element after it is told as the body's (`XmlMessages.EmptyBodyOverlooked`). It tells the
  body's first child exactly where there is one (`XmlEnvelope.OneRootExact`).
- With several control planes on one database, a release requested between a pruner's query and its
  transaction loses its content (`ReleaseContent.LateCommitLosesContent`, with a keep count of one);
  `ReleaseContent.LiveHasContent` is the exact condition.

## Model

| member | source | states |
|---|---|---|
| `JsonReading.ReaderExact` | shared/json-reader.ts:73-294 | For every text, limits and value: reading yields the value if and only if the text is a rendering of it under sections 2-7 of RFC 8259 that stays within depth, array and object bounds and, where duplicates are refused, has keys distinct after escape decoding. |
| `JsonReading.ValueComplete` | shared/json-reader.ts:201-288 | Every well-formed syntax tree within the bounds, followed by any text that could not continue a number, is read back as its value, leaving that text. |
| `JsonReading.ValueSound` | shared/json-reader.ts:201-288 | Whatever the value reader accepts is the text of some well-formed tree within the bounds that denotes the value returned. |
| `JsonReading.NumberComplete` | shared/json-reader.ts:162-200 | Every number of the grammar is read whole, up to a character that cannot continue it. |
| `JsonReading.NumberSound` | shared/json-reader.ts:162-200 | Every accepted number is one of the grammar: no leading zeros, digits after the point and in the exponent. |
| `JsonReading.CharsComplete` | shared/json-reader.ts:98-161 | Every sequence of raw characters, short escapes and four-digit escapes, closed by a quote, decodes to its text. |
| `JsonReading.CharsSound` | shared/json-reader.ts:98-161 | Every accepted string body is such a sequence: no control character, no unknown or short escape. |
| `JsonReading.HexDigitsAre` | shared/json-reader.ts:98-161 | The hexadecimal digits are the sixteen of either case, each worth its place. |
| `JsonReading.HexRead` | shared/json-reader.ts:98-161 | A four-digit escape in any mixture of cases is read as the unit it spells. |
| `JsonReading.EscapesAre` | shared/json-reader.ts:98-161 | The eight short escapes and what each stands for, white space and digits, as characters. |
| `JsonReader.Reader.SkipSpace` | shared/json-reader.ts:82-89 | The cursor moves over exactly the white space of the grammar. |
| `JsonReader.Reader.ReadWord` | shared/json-reader.ts:90-97 | A literal is accepted only where its whole word stands. |
| `JsonReader.Reader.ReadString` | shared/json-reader.ts:98-161 | The loop over escapes and raw runs leaves the cursor and the decoded text where the definition of a string body says. |
| `JsonReader.Reader.ReadNumber` | shared/json-reader.ts:162-200 | The digit, fraction and exponent scans together read what the definition of a number says, and nothing on refusal. |
| `JsonReader.Reader.ReadNext` | shared/json-reader.ts:201-288 | One value from the cursor, at a nesting level, for every kind of value and every error case. |
| `JsonReader.Reader.ReadItems` | shared/json-reader.ts:213-239 | The element loop: the items read, the length bound and both ways to end, tied to the definition. |
| `JsonReader.Reader.ReadMembers` | shared/json-reader.ts:241-285 | The member loop: duplicate keys refused or overwritten in place, the key bound, both ways to end. |
| `JsonReader.ReadJsonBounded` | shared/json-reader.ts:73-294 | The whole reader with its one cursor returns a value if and only if the text renders it within the limits, trailing text refused. |
| `Canonical.CanonicalValue` | shared/canonical.ts:7-17 | The recursive rebuild of a value is its canonical form: keys sorted by code unit at every level, arrays in order. |
| `Canonical.CanonicalMembers` | shared/canonical.ts:10-16 | The loop over sorted keys fills the fresh object with every member, canonicalised. |
| `Canonical.PrintThenRead` | shared/canonical.ts:19-21 | Printing a value and reading the text back under limits the value fits gives the value, for every well-formed value. |
| `Canonical.StringifyInjective` | shared/canonical.ts:19-21 | Two well-formed values print alike only if they are the same value. |
| `Canonical.CanonicalExact` | shared/canonical.ts:7-17 | Two values have the same canonical form if and only if they are equal up to key order at every level. |
| `Canonical.CanonicalIdempotent` | shared/canonical.ts:7-17 | Canonicalising twice is canonicalising once. |
| `Canonical.KeysInOrder` | shared/canonical.ts:10-16 | The members of a canonical object are as many as before, in strictly rising order of code units. |
| `Canonical.PrintedIs` | shared/canonical.ts:19-21 | How each code unit is printed: the short escapes, lower-case hexadecimal for other controls and lone surrogates, and itself. |
| `Canonical.CanonicalRoundTrip` | shared/canonical.ts:7-21 | Reading back the canonical text yields the canonical form. |
| `Canonical.CanonicalTextExact` | shared/canonical.ts:19-21 | Two values have the same canonical text if and only if they are equal up to key order; digests rest on this. |
| `Canonical.SameValueExact` | shared/jsonschema.ts:455-461 | The short cuts of the equality test and its canonical comparison together decide equality up to key order. |
| `SchemaDiffSoundness.NothingBreakingIsSafe` | shared/diff.ts:482-597 | On the comparable fragment, if the request-side comparison reports nothing breaking and did not exhaust its budget, every value valid under the old, possibly recursive schema and within its declared properties is valid under the new one. |
| `SchemaDiffSoundness.CompareCovers` | shared/diff.ts:482-597 | A silent comparison leaves a memo in which the pair, and every pair first met on the way, passes all local rules and has its children covered: the coinductive relation the memo stands for. |
| `SchemaDiffSoundness.CoveredSound` | shared/diff.ts:482-597 | Any pair covered by such a relation preserves validity, by induction on the value. |
| `SchemaDiffSoundness.KeyDetermines` | shared/diff.ts:489-500 | Where both sides of a pair have references without a bar, the memo key determines both pointers. |
| `SchemaDiffExactness.BreaksExactly` | shared/diff.ts:482-597 | On either side, within the budget and where references come in pairs: something breaking is reported if and only if no relation between the two revisions has equal type words everywhere and, in requests, every old enumerated value kept, no name newly required and no new property that must be sent, in responses every old property still declared, with shared properties and items related again. |
| `SchemaDiffExactness.NoFalseAlarm` | shared/diff.ts:482-597 | If such a relation exists nothing breaking is reported, whatever the budget. |
| `SchemaDiffExactness.RetypingReported` | shared/diff.ts:508-523 | Different type words are reported as breaking at their path, and are the whole report below it. |
| `SchemaDiffExactness.EnumReported` | shared/diff.ts:525-535 | A request schema that loses an enumerated value is reported breaking at its path. |
| `SchemaDiffExactness.DropReported` | shared/diff.ts:573-585 | After equal types, a declared name the new revision lacks is reported at the path of that property: breaking in responses, not in requests. |
| `SchemaDiffExactness.AdditionReported` | shared/diff.ts:542-572 | A property newly required or declared anew is reported at its path: breaking in requests that must send it, and otherwise harmless. |
| `SchemaDiffExactness.EveryDetailExplained` | shared/diff.ts:482-597 | Conversely every detail of a report is a change of the kind it names, at the place it names. |
| `SchemaDiffExactness.TypesExact` | shared/diff.ts:508-523 | Equal type words are never reported; where no type name is empty or has a bar in it, types are reported exactly if their words differ. |
| `SchemaDiffExactness.EnumExact` | shared/diff.ts:620-628 | A value reported as lost is an old one that is not among the new ones; on well-formed values, with an enum on both sides, every such value is reported. |
| `SchemaDiffExactness.DerefExact` | shared/diff.ts:604-609 | A schema stands for the target of a local reference that resolves, one hop, and for itself otherwise. |
| `SchemaDiffLimits.BudgetIrrelevant` | shared/diff.ts:483-487 | A comparison that did not set exhausted gives the same report, and spends as much, under every larger budget. |
| `SchemaDiffLimits.UnchangedReportsNothing` | shared/diff.ts:482-597 | A revision compared with itself reports nothing, on either side and with any budget. |
| `SchemaDiffLimits.EnumOnlyOnNewSide` | shared/diff.ts:620-628 | An enum that only the new side has goes unreported although it rejects old values. |
| `SchemaDiffLimits.ItemsOnlyOnNewSide` | shared/diff.ts:587-595 | Items that only the new side constrains go unreported although old values fail. |
| `SchemaDiffLimits.RequiredButUndeclared` | shared/diff.ts:537-572 | A newly required name that is no declared property goes unreported. |
| `SchemaDiffLimits.NewPropertyUsed` | shared/diff.ts:542-554 | A value that already used a property the new side begins to constrain may fail unreported. |
| `SchemaDiffLimits.ReferenceChain` | shared/diff.ts:604-609 | References to references are followed one hop only, so a change behind the second goes unreported. |
| `SchemaDiffLimits.OneSidedSkipped` | shared/diff.ts:491-500 | For all schemas: after one comparison of a reference against an inline schema, comparing the same reference against any other inline schema reports nothing. |
| `SchemaDiffLimits.OneSidedReference` | shared/diff.ts:491-500 | A concrete pair of revisions where that hides a changed type from the report. |
| `SchemaDiffLimits.SharedKeyMisses` | shared/diff.ts:497-499 | For any two pairs of properties under one memo key, the first unchanged and the second retyped, the report is silent and a value is lost. |
| `SchemaDiffLimits.BarredReference` | shared/diff.ts:497-497 | References that contain the bar the key is joined with share a key, and a changed type goes unreported. |
| `SchemaDiffLimits.UnresolvedReference` | shared/diff.ts:604-609 | References that do not resolve stand for what is written beside them, and the shared key hides a change there. |
| `SchemaDiffLimits.BooleanSwapped` | shared/diff.ts:503-503 | A schema that goes from true to false goes unreported, for every value. |
| `SchemaDiffLimits.EmptyTypeName` | shared/diff.ts:508-510 | An empty type name, or an empty list of type names, counts as no type at all. |
| `SchemaDiffLimits.BarredTypeName` | shared/diff.ts:611-617 | A list of types becomes one type whose name is their joined names, unreported. |
| `RequestDiff.CompareSchemas` | shared/diff.ts:482-597 | The method with the shared mutable budget and seen set reports, spends and remembers exactly what the comparison function says, whose report is the subject of SchemaDiffExactness. |
| `RequestDiff.PropertyLoop` | shared/diff.ts:542-572 | The loop over the new properties, including newly required and newly added ones, in order. |
| `RequestDiff.GoneLoop` | shared/diff.ts:573-585 | The loop over properties the new side dropped: breaking only in responses. |
| `RequestDiff.DiffRequestBody` | shared/diff.ts:322-395 | The body comparison with all its cases: absent, added, made required, media types lost and gained, shared ones compared under one budget. |
| `RequestDiff.MediaLoop` | shared/diff.ts:378-393 | Each shared media type is compared with what the earlier ones left of the budget. |
| `RequestDiff.RequestStillAccepted` | shared/diff.ts:322-395 | Nothing breaking reported: every request the old revision accepts is accepted by the new one, shared media types being comparable and, where only the new revision declares a body, the request sending none. |
| `RequestDiff.UndeclaredBody` | shared/diff.ts:338-348 | Where the old revision declared no body: the report is silent exactly if the new one requires none, and all old requests are still accepted exactly if the new one declares none. |
| `RequestDiff.OptionalBodyAdded` | shared/diff.ts:338-348 | An optional body declared anew: silent, and a concrete body that was let through is refused. |
| `ModelDiff.ModelStillAccepted` | shared/diff.ts:104-158 | Nothing breaking and nothing too large in the whole report: every operation of the old revision is still there and accepts every request it accepted, on the comparable fragment. |
| `ModelDiff.OperationStillAccepted` | shared/diff.ts:173-244 | The same for one operation, from its head, parameters and body, whatever the response comparison adds. |
| `ModelDiff.ParametersStillAccepted` | shared/diff.ts:250-316 | Parameters reported without anything breaking accept the values they accepted, for any way of reading raw values by declared type. |
| `ModelDiff.SoapActionExact` | shared/diff.ts:215-227 | A head reported without anything breaking still addresses every request exactly if no SOAP action appears where none was declared. |
| `ModelDiff.DiffParameters` | shared/diff.ts:250-316 | The two loops over the maps by place and name report each old and each new parameter, in order, later duplicates winning. |
| `ModelDiff.DiffOperation` | shared/diff.ts:173-244 | The operation's report: head, parameters and body under a fresh budget, then the responses, breaking and tooLarge as defined; none if there is nothing to say. |
| `ModelDiff.DiffModels` | shared/diff.ts:104-158 | One report per old operation removed or changed, then the new ones, and the number of breaking ones. |
| `ModelDiffExactness.HeadBreaksExactly` | shared/diff.ts:183-227 | A head is breaking if and only if the method, path, selector or an element name changed, or a SOAP action that was declared did. |
| `ModelDiffExactness.ParametersBreakExactly` | shared/diff.ts:250-316 | The parameters are breaking if and only if a path parameter is gone, one is newly required or newly there and required, or one changed its type or lost an enumerated value; the last of two with one name counts. |
| `ModelDiffExactness.BodyBreaksExactly` | shared/diff.ts:322-395 | Within the budget a body is breaking if and only if it becomes required, loses a media type or a shared media type loses a caller. |
| `ModelDiffExactness.OperationBreaksExactly` | shared/diff.ts:173-244 | Within its two thousand nodes an operation is breaking if and only if its head, parameters or body are, or its responses say so. |
| `ModelDiffExactness.ReportsExactly` | shared/diff.ts:104-158 | An operation is listed as removed, changed or added if and only if it is only in the old revision, in both with something to say, or only in the new one; added ones are not breaking. |
| `ModelDiffExactness.ReportedOnce` | shared/diff.ts:104-158 | No operation is listed twice. |
| `ModelDiffExactness.CountExactly` | shared/diff.ts:104-158 | The count is the number of listed reports that are breaking. |
| `SchemaValidator.Validate` | shared/jsonschema.ts:388-404 | For every value, schema, definitions and budget: the issues are the first ones of the unbounded list, not truncated means complete, and with at least one error allowed ok is declarative validity, whatever the budget. |
| `SchemaValidity.NoIssueIffValid` | shared/jsonschema.ts:463-746 | The unbounded list of issues is empty if and only if the value is valid by the declarative reading of every keyword. |
| `SchemaValidity.EnumIsEquality` | shared/jsonschema.ts:495-500 | On well-formed values enum asks for a listed value that is equal up to key order. |
| `SchemaValidity.ConstIsEquality` | shared/jsonschema.ts:501-503 | On well-formed values const asks for equality up to key order. |
| `SchemaValidity.UniqueIsEquality` | shared/jsonschema.ts:573-583 | On well-formed values uniqueItems asks that no two items are equal up to key order. |
| `SchemaKeywords.TypeWordsMean` | shared/jsonschema.ts:433-452 | The seven words of type accept null, booleans, strings, objects, arrays, numbers and numbers whose value is a whole one, and nothing else; said by constructor and value. |
| `SchemaKeywords.TypeListMeans` | shared/jsonschema.ts:425-452 | A list of words accepts what one of them accepts. |
| `SchemaKeywords.DocumentWordsMean` | shared/jsonschema.ts:225-237 | In a source document, too, a list of words accepts what one of them accepts; with no JSON type named, anything. |
| `SchemaKeywords.EnumMeans` | shared/jsonschema.ts:495-500 | enum alone accepts a listed value, up to key order. |
| `SchemaKeywords.ConstMeans` | shared/jsonschema.ts:501-503 | const alone accepts that value, up to key order. |
| `SchemaKeywords.TextLengths` | shared/jsonschema.ts:513-533 | Code points are units less the pairs; bytes are one a unit, one more from U+0080 and from U+0800 on, four for a pair. |
| `SchemaKeywords.StringKeywordsMean` | shared/jsonschema.ts:513-533 | The string keywords concern strings only: lengths in code points, a pattern on subjects of bounded size, format. |
| `SchemaKeywords.NumberKeywordsMean` | shared/jsonschema.ts:535-558 | The number keywords concern numbers only, the exclusive bounds strictly, multipleOf if it is positive. |
| `SchemaKeywords.LengthMeans` | shared/jsonschema.ts:566-583 | Bounds on the number of items, inclusive, and pairwise inequality up to key order for uniqueItems. |
| `SchemaKeywords.ItemsMean` | shared/jsonschema.ts:585-598 | Leading schemas by position, and items for those after them. |
| `SchemaKeywords.ContainsMeans` | shared/jsonschema.ts:600-612 | At least one valid item, or as many as minContains and maxContains say. |
| `SchemaKeywords.SizeMeans` | shared/jsonschema.ts:615-640 | Inclusive bounds on the number of members, and every required name among their keys. |
| `SchemaKeywords.MembersMean` | shared/jsonschema.ts:641-663 | Each member against its property, every matching pattern, and additionalProperties where nothing claims it; its key against propertyNames. |
| `SchemaKeywords.LogicMeans` | shared/jsonschema.ts:666-737 | All of, one or more of, exactly one of, and none of. |
| `SchemaKeywords.ConditionalMeans` | shared/jsonschema.ts:739-745 | then where the test holds and else where it does not, either absent. |
| `SchemaKeywords.ReferenceMeans` | shared/jsonschema.ts:463-485 | A reference is its definition one level further down, with the keywords beside it. |
| `SchemaDepth.BoundIrrelevant` | shared/jsonschema.ts:463-468 | An evaluation that stays within the nesting bound, probes included, reports the same issues under every larger bound. |
| `SchemaDepth.VerdictIrrelevant` | shared/jsonschema.ts:463-468 | So does its verdict: validity is the same under every larger bound. |
| `SchemaValidator.Ctx.Add` | shared/jsonschema.ts:406-412 | An issue is appended while there is room; otherwise only the truncation is recorded. |
| `SchemaValidator.Ctx.Full` | shared/jsonschema.ts:419-423 | Reports a spent budget and marks the result truncated when it does. |
| `SchemaValidator.Check` | shared/jsonschema.ts:463-511 | Adds exactly the first issues of the unbounded evaluation that the budget leaves room for, following references. |
| `SchemaValidator.CheckString` | shared/jsonschema.ts:513-533 | Length in code points, pattern with its size guard, format: the issues in order. |
| `SchemaValidator.CheckNumber` | shared/jsonschema.ts:535-558 | The four bounds, multipleOf and format: the issues in order. |
| `SchemaValidator.CheckArray` | shared/jsonschema.ts:560-613 | Bounds, uniqueness, leading items, the rest and contains, with early exits that lose nothing but what the budget loses. |
| `SchemaValidator.RepeatScan` | shared/jsonschema.ts:573-583 | The set of canonical texts finds the first item whose text repeats; on well-formed values that is the first item equal to an earlier one up to key order. |
| `SchemaValidator.CheckContains` | shared/jsonschema.ts:600-612 | Probes with a budget of one count the matching items as unbounded evaluation would. |
| `SchemaValidator.CheckObject` | shared/jsonschema.ts:615-664 | Bounds, required names and members in order, with early exits. |
| `SchemaValidator.CheckMember` | shared/jsonschema.ts:641-663 | One member against propertyNames, properties, patterns and, if none of them claims it, additionalProperties. |
| `SchemaValidator.CheckApplicators` | shared/jsonschema.ts:666-746 | allOf, anyOf, oneOf, not and if in order. |
| `SchemaValidator.ProbeAny` | shared/jsonschema.ts:681-705 | Probes with a budget of three decide anyOf as unbounded evaluation would, and quote the same failures. |
| `SchemaValidator.ProbeOne` | shared/jsonschema.ts:707-730 | Probes with a budget of three count the matching alternatives of oneOf exactly. |
| `SchemaValidator.CheckNegated` | shared/jsonschema.ts:732-737 | A probe with a budget of one decides not. |
| `SchemaValidator.CheckConditional` | shared/jsonschema.ts:739-745 | A probe with a budget of one chooses the branch; the branch reports into the real budget. |
| `SchemaImage.MeaningPreserved` | shared/jsonschema.ts:191-328 | In a bundle that holds the compiled form of every component reached, a value passes a compiled schema if and only if it satisfies the source schema in its dialect, provided evaluating the value reaches no false at the last level and no null at an untyped nullable schema. |
| `SchemaImage.TypesMean` | shared/jsonschema.ts:225-237 | The compiled types, with null added for a nullable typed schema and file dropped, accept exactly the values the source types accept. |
| `SchemaImage.NumberMeans` | shared/jsonschema.ts:313-324 | Moving a bound flagged exclusive over to the exclusive keyword keeps the numbers accepted. |
| `SchemaImage.ItemsMean` | shared/jsonschema.ts:261-277 | Both spellings of leading items, and items after them, accept the same arrays once compiled. |
| `SchemaCompiler.SchemaCompiler.Hoist` | shared/jsonschema.ts:152-157 | For every document: a new definition under a new name holds the compiled schema, or it threw; the bundle is the one the visit defines either way; with distinct names it stays honest. |
| `CompilerSafety.HoistKeeps` | shared/jsonschema.ts:152-189 | With distinct names a hoist keeps every definition the compiled form of a schema; it keeps the bundle closed if it succeeds, and even if it throws where every component is supported; it succeeds only on supported schemas, and on all of them where the components are supported too. |
| `CompilerSafety.VisitKeeps` | shared/jsonschema.ts:159-328 | The same for every schema visited on the way, with any components under way. |
| `SchemaRefusals.FaultFails` | shared/jsonschema.ts:191-328 | A schema with a refused pattern, an unknown type word or an unsupported keyword never compiles, whatever else it says. |
| `SchemaRefusals.FaultyExact` | shared/jsonschema.ts:191-237 | Those are the faults, each said of the document alone. |
| `SchemaRefusals.LeafExactly` | shared/jsonschema.ts:191-328 | A schema of keywords without subschemas compiles if and only if it has none of those faults. |
| `SchemaRefusals.StrayFails` | shared/jsonschema.ts:159-200 | A reference out of the document, a schema nested deeper than the bound and what is no schema never compile. |
| `SchemaRefusals.RefusedNameFails` | shared/jsonschema.ts:238-251 | Nor does a schema with a refused pattern among its pattern names. |
| `SchemaRefusals.NameExactly` | shared/jsonschema.ts:163-163 | A component name keeps letters and digits and has one underscore for each run of anything else. |
| `CompilerState.InlineNameIs` | shared/jsonschema.ts:152-157 | The name of a hoisted schema is s and the decimal number of hoists so far, this one included. |
| `SchemaCompiler.SchemaCompiler.ComponentDef` | shared/jsonschema.ts:159-189 | A component is registered before it is compiled and taken out again if that throws; a remembered one is answered by name. |
| `SchemaCompiler.SchemaCompiler.Compile` | shared/jsonschema.ts:191-328 | The compiled form, or none if anything on the way is unsupported, unresolved or nested too deep; the bundle is left exactly as defined in both cases. |
| `SchemaCompiler.SchemaCompiler.CompileChildren` | shared/jsonschema.ts:238-251 | Each named subschema compiled in order, with pattern names linted. |
| `SchemaCompiler.SchemaCompiler.CompileAll` | shared/jsonschema.ts:278-285 | Each listed subschema compiled in order, or none at all. |
| `BundleMeaning.DefinitionMeans` | shared/jsonschema.ts:141-157 | After any hoists, throwing ones included: a definition all of whose references are remembered accepts exactly what the hoisted schema does, on the values whose evaluation is calm. |
| `BundleMeaning.ClosedRests` | shared/jsonschema.ts:152-189 | While the bundle is closed, every hoisted schema has all its references remembered. |
| `BundleMeaning.ClosedExactly` | shared/jsonschema.ts:159-189 | Whatever hoist succeeds next has all its references remembered if and only if the bundle is closed now. |
| `BundleMeaning.ThrowLeavesDangling` | shared/jsonschema.ts:179-187 | A concrete document: hoisting one component throws and leaves another remembered with a reference to it, which is then hoisted without complaint. |
| `BundleMeaning.ThrowDangles` | shared/jsonschema.ts:179-187 | That happens to any component that refers back to one which throws after compiling it. |
| `BundleMeaning.DanglingAcceptsNothing` | shared/jsonschema.ts:463-485 | A node whose reference is missing from the bundle accepts no value at any level. |
| `BundleMeaning.BundleClosed` | shared/jsonschema.ts:141-189 | While nothing threw, every reference at every depth of every definition names a definition of the bundle. |
| `BundleMeaning.EveryDefinitionCompiled` | shared/jsonschema.ts:172-188 | Even after hoists that threw, every definition is the compiled form of a component or of a hoisted schema: no accept-anything placeholder survives. |
| `BundleMeaning.NamesCanCollide` | shared/jsonschema.ts:163-163 | Two pointers can be sanitised to one name. |
| `BundleMeaning.CollisionChangesMeaning` | shared/jsonschema.ts:159-189 | Then the second component takes the place of the first, and a schema that accepts everything is compiled to one that accepts nothing. |
| `BundleMeaning.FalseAtTheBound` | shared/jsonschema.ts:197-197 | Nothing satisfies false; its compiled form rejects at every level but the last one allowed, where it accepts. |
| `BundleMeaning.UntypedNullableTakesNull` | shared/jsonschema.ts:308-312 | A nullable schema without a type accepts null at every level allowed, whatever its other keywords say. |
| `BundleMeaning.NullableExact` | shared/jsonschema.ts:308-312 | At a schema whose subschemas agree, the compiled form differs on a value exactly if the schema is nullable without a type, the value is null and only the keywords beside a reference rule it out. |
| `BundleMeaning.NullableAgrees` | shared/jsonschema.ts:308-312 | So an untyped nullable schema agrees on every value if and only if null satisfies it. |
| `BundleMeaning.NullPastEnum` | shared/jsonschema.ts:308-312 | A concrete one that does not: an enum without null. |
| `SteadyDocuments.SteadyMeans` | shared/jsonschema.ts:191-328 | A condition on the document alone: if nothing a schema leads to, level by level and through references, is an untyped nullable schema or a false at the last level, its compiled form accepts every value that satisfies it and no other. |
| `SteadyDocuments.SteadyDefinitionMeans` | shared/jsonschema.ts:141-157 | After any hoists, throwing ones included, the definition of a hoisted schema under that condition accepts exactly what the schema does, for every value, if all its references are remembered. |
| `SteadyDocuments.WrappedFalse` | shared/jsonschema.ts:197-197 | False inside n layers of allOf: nothing satisfies it, and from level 0 its compiled form accepts everything if n is the nesting bound and nothing otherwise; with that n it still compiles. The condition of SteadyMeans fails for that n and no other. |
| `XsdSoundness.AcceptedConforms` | shared/xsd.ts:681-704 | A document accepted with at least one error allowed conforms at every element checked: the children of a complex type with a particle are in the language of that particle (sections 3.8.4 and 3.9.4 of XML Schema Part 1). |
| `XsdSoundness.ParticleSound` | shared/xsd.ts:879-910 | A particle matched without a new issue from one position to another means that the children between are in its language, occurrence range included. |
| `XsdSoundness.LoopSound` | shared/xsd.ts:887-909 | The repetition loop stays within minOccurs and maxOccurs, an unbounded maximum included. |
| `XsdSoundness.EverySound` | shared/xsd.ts:950-972 | A matched all group is some order of its items. |
| `XsdExactness.FlatExact` | shared/xsd.ts:879-936 | On a flat once-only sequence under Unique Particle Attribution (section 3.8.6) greedy matching consumes all children if and only if there are some and they split into runs within each range. |
| `XsdExactness.EmptyContentRefused` | shared/xsd.ts:898-908 | With no children every required particle is refused, although the empty content is in its language whenever its structure says so: no item required anywhere in a sequence or an all group, one of the alternatives in a choice. |
| `XsdExactness.EmptyWordExact` | shared/xsd.ts:879-976 | The language of any particle (sections 3.8.4 and 3.9.4 of XML Schema Part 1) has the empty word if and only if that structural condition holds. |
| `XsdExactness.EndExact` | shared/xsd.ts:887-976 | At the end of the content the matcher agrees with the language of a particle if and only if the particle is quiet there or has no empty word. |
| `XsdExactness.EmptyElementExact` | shared/xsd.ts:735-910 | An element without children, and nothing else wrong with it, is accepted if and only if its particle is quiet, and conforms if and only if its particle has the empty word. |
| `XsdExactness.QuietExact` | shared/xsd.ts:887-976 | At the end of the content the matcher reports nothing on a particle if and only if it is optional and whatever of it is tried there is so too: every item of a sequence, the first optional one of a choice. |
| `XsdExactness.OptionalGroupReported` | shared/xsd.ts:1008-1013 | So an optional sequence that begins with a required element is reported there although its absence is in the language. |
| `XsdExactness.FlatAcceptsConforms` | shared/xsd.ts:735-936 | On a complex type with such a sequence, and children without issues of their own, a document with content is accepted if and only if it conforms. |
| `XsdExactness.NilExact` | shared/xsd.ts:735-762 | A nil element is accepted if and only if its declaration allows it and it has neither children nor text. |
| `XsdExactness.FixedHeld` | shared/xsd.ts:735-762 | An accepted element has the fixed value of its declaration. |
| `XsdExactness.TextHeld` | shared/xsd.ts:764-850 | An accepted element of simple content has no children and a value without issues, and one of element content no stray text. |
| `XsdWords.WordExact` | shared/xsd.ts:879-976 | A list of names is a word of a particle if and only if some children with those names match it, in some world. |
| `XsdFirst.BeginsExactly` | shared/xsd.ts:983-1006 | For every particle the structural first names are exactly the names its words begin with. |
| `XsdFirst.FirstNamesExact` | shared/xsd.ts:983-1006 | On particles no deeper than 32 in which everything may occur and no required item may match nothing, the scan names exactly what a word can begin with, a choice giving all its alternatives. |
| `XsdFirst.ScanRight` | shared/xsd.ts:983-1006 | In general the scan is right if and only if it gives the structural first names. |
| `XsdFirst.EmptyItemHides` | shared/xsd.ts:983-1006 | A concrete sequence whose first item is required and may match nothing: a word begins with the second item, and the scan does not name it. |
| `XsdDeterminism.ParticleComplete` | shared/xsd.ts:879-976 | Under Unique Particle Attribution, for nested groups of all three kinds and any occurrence bounds: a child list in the language of a good particle is matched to its end without an issue. |
| `XsdDeterminism.ContentExact` | shared/xsd.ts:793-910 | So the children are matched whole and silently if and only if they are in the language. |
| `XsdDeterminism.ChoiceExact` | shared/xsd.ts:938-949 | A choice of elements with distinct names, however often repeated, is matched whole and silently if and only if the children are in its language. |
| `XsdDeterminism.ElementExact` | shared/xsd.ts:735-910 | An element of a regular content model with good children is accepted if and only if it conforms. |
| `XsdDeterminism.DocumentExact` | shared/xsd.ts:681-910 | In a schema of regular content models, where no value is fixed and attributes and values are fine, a document without text and within the nesting bound is accepted if and only if it conforms, at every level. |
| `XsdValidator.CheckElementRun` | shared/xsd.ts:735-762 | Reports on an element exactly what the checking function says, depth and budget included. |
| `XsdValidator.CheckComplexRun` | shared/xsd.ts:793-877 | The content check of a complex type: issue count and matched end as defined. |
| `XsdValidator.MatchParticleRun` | shared/xsd.ts:879-910 | The repetition loop over a particle, its end position and issues as defined. |
| `XsdValidator.SequenceRun` | shared/xsd.ts:929-937 | The items of a sequence in order. |
| `XsdValidator.ChoiceRun` | shared/xsd.ts:938-949 | The alternatives of a choice, first that can start. |
| `XsdValidator.EveryRun` | shared/xsd.ts:950-972 | The rounds of an all group until no remaining item matches. |
| `XsdValidator.ValidateXmlElement` | shared/xsd.ts:681-704 | Accepted exactly if a global element declares the root and the check reports nothing; with at least one error allowed, what is accepted conforms. |
| `ReleaseSafety.OneNewestLive` | control-plane/src/jobs.ts:162-377 | In every run from the start, with crashes, replays and requeues at any point, a converged release is the newest of its API and environment that ever reached the fleet, so there is one at most. |
| `ReleaseSafety.ReachedForever` | control-plane/src/jobs.ts:201-373 | Having reached the fleet is never lost, except with the API itself. |
| `ReleaseSafety.ReplayIsNoOp` | control-plane/src/jobs.ts:201-223 | Once a release is no longer pending, its apply transaction, replayed after any further run, changes nothing and settles. |
| `ReleaseSafety.CommittedIsSettled` | control-plane/src/jobs.ts:201-373 | A committed apply leaves its release no longer pending, so the replay result covers it. |
| `ReleaseSafety.WithdrawalWins` | control-plane/src/jobs.ts:164-198 | No release that existed when a withdrawal committed converges at any later time. |
| `ReleaseSafety.ConvergedIsServed` | control-plane/src/jobs.ts:305-366 | A release that converges is served at its revision, and bound, on every gateway it lands on; no other row of the fleet changes. |
| `ReleaseOutcomes.ApplyPublishes` | control-plane/src/jobs.ts:201-373 | A pending release whose plan and route are fine ends stale if some later row of its API and environment is converged, superseded or withdrawn, and otherwise converged, with the earlier live one superseded, bound and served on every gateway it lands on and no other row changed. |
| `ReleaseOutcomes.OvertakenExact` | control-plane/src/jobs.ts:239-248 | Being overtaken is that later row, by literal states and row numbers. |
| `ReleaseOutcomes.LandingExact` | control-plane/src/jobs.ts:305-325 | A release lands on the gateways it is bound to, or on all of the environment if there is none. |
| `ReleaseOutcomes.ApplyRefuses` | control-plane/src/jobs.ts:201-300 | In every other case nothing is published: a pending release that is overtaken ends stale and any other waits on with a retry; a missing or settled one changes nothing. |
| `ReleaseOutcomes.WithdrawExactly` | control-plane/src/jobs.ts:164-198 | A withdrawal turns converged rows into withdrawn and pending ones into stale, for that API and environment, and removes its bindings and what its gateways serve of it; nothing else. |
| `ReleaseOutcomes.SpineExactly` | control-plane/src/operations.ts:1317-1322 | A direct publication supersedes what was converged there and appends a converged row. |
| `ReleaseOutcomes.LeaseExactly` | control-plane/src/jobs.ts:74-104 | A lease is taken if and only if it is free, the runner's own or over, and runs for thirty seconds. |
| `ReleaseOutcomes.PrunableExactly` | control-plane/src/retention.ts:36-91 | A revision is prunable if and only if it is not yet pruned, as many newer unpruned ones of its API as are kept exist or it is older than the cutoff, and no release, plan or operation needs it. |
| `ReleaseOutcomes.TombstoneExactly` | control-plane/src/retention.ts:102-120 | Afterwards exactly the doomed revisions are newly tombstoned, and an artifact is kept if and only if an unpruned revision refers to it. |
| `ReleaseOutcomes.FinishExactly` | control-plane/src/jobs.ts:395-447 | A settled job is done, one to be retried is queued again and a hopeless one fails, each stamped with the time. |
| `ReleaseOutcomes.HopelessFails` | control-plane/src/jobs.ts:432-441 | A hopeless apply fails its release if and only if that is still pending. |
| `ReleaseOutcomes.JobExactly` | control-plane/src/jobs.ts:107-447 | The run of a job that gets its lease ends with the transaction applied and its row done or queued again. |
| `ReleaseOutcomes.JobPublishes` | control-plane/src/jobs.ts:107-447 | A pending release with everything in order and none served after it is converged and served once its job has run. |
| `ReleaseOutcomes.TurnedAway` | control-plane/src/jobs.ts:72-96 | A job whose lease is taken, or whose gateway is missing, is queued again and changes no row of the tables. |
| `ReleaseOutcomes.RequeueExactly` | control-plane/src/jobs.ts:387-387 | A pass queues again exactly the jobs left running for more than a minute. |
| `ReleaseSafety.WithdrawnIsGone` | control-plane/src/jobs.ts:164-198 | After a withdrawal no gateway of the environment serves the API, no release of it is converged or pending there, and every other row is as it was. |
| `ReleaseSafety.RunKeepsInv` | control-plane/src/jobs.ts:380-450 | Every run keeps the joint invariant of job table, releases, applied rows, content and leases, and moves each release only along its lifecycle. |
| `ReleaseSafety.StepKeepsInv` | control-plane/src/jobs.ts:380-450 | Every single step of the machine keeps it. |
| `ReleaseContent.LiveHasContent` | control-plane/src/retention.ts:93-120 | In every run, selections and their commits apart, every pending and converged release has its content at all times if and only if no commit finds, on a revision it selected, a release created since and still pending or converged. |
| `ReleaseContent.CarefulKeepsContent` | control-plane/src/retention.ts:93-120 | So content is kept in every run that creates no release on a revision selected and not yet tombstoned. |
| `ReleaseContent.LateCommitLosesContent` | control-plane/src/retention.ts:93-109 | A run from the start that fails with a keep count of one, the least the configuration allows: the older of two revisions is selected, released, tombstoned. |
| `ReleaseContent.LateCommitLoses` | control-plane/src/retention.ts:93-109 | It can happen in every state, to every revision the policy lets go of: selecting it, releasing it and committing the prune is a run, and content is lost in it. |
| `ReleaseContent.LateRequestTombstoned` | control-plane/src/retention.ts:99-109 | For all tables: a request on any selected revision before the commit loses its content to it. |
| `ReleaseContent.StepContent` | control-plane/src/retention.ts:93-120 | Every step keeps content, except a commit, which does exactly if it is not too late. |
| `ReleaseContent.PruneExact` | control-plane/src/retention.ts:93-120 | Tombstoning a set of revisions keeps content if and only if no pending or converged release uses one of them. |
| `ReleaseSafety.PruneOk` | control-plane/src/retention.ts:107-120 | Tombstoning any set of revisions keeps the artifacts of the others and everything else the tables promise. |
| `ReleaseSafety.LeaseExclusion` | control-plane/src/jobs.ts:72-105 | In every run two runners are inside one target's section only if one's thirty seconds were over when the other took the lease. |
| `ReleaseSafety.LeaveKeepsOthers` | control-plane/src/jobs.ts:98-104 | Leaving a section clears no lease but the runner's own. |
| `ReleaseStore.Store.UpdateReleases` | control-plane/src/jobs.ts:165-168 | The update by key and state moves exactly the matching rows. |
| `ReleaseStore.Store.IsOvertaken` | control-plane/src/jobs.ts:239-248 | Finds a later release of the same key that reached the fleet, if there is one. |
| `ReleaseStore.Store.PublishOn` | control-plane/src/jobs.ts:325-366 | Binds where nothing is bound and records the revision on every gateway concerned. |
| `ReleaseStore.Store.ApplyRelease` | control-plane/src/jobs.ts:201-373 | Row by row, with everything put back on a throw, the apply transaction of the machine. |
| `ReleaseStore.Store.Withdraw` | control-plane/src/jobs.ts:164-198 | Row by row, the withdrawal transaction of the machine. |
| `ReleaseStore.Store.Acquire` | control-plane/src/jobs.ts:74-96 | Takes the lease if and only if it is free, the holder's own or expired. |
| `ReleaseStore.Store.GiveBack` | control-plane/src/jobs.ts:98-104 | Clears the lease only where the holder still has it. |
| `ReleaseStore.Store.SelectDoomed` | control-plane/src/retention.ts:36-91 | The query selects exactly the prunable revisions and changes nothing. |
| `ReleaseStore.Store.Tombstone` | control-plane/src/retention.ts:102-120 | The transaction, on whatever was selected: tombstones exactly those and drops exactly the artifacts no remaining revision references. |
| `ReleaseStore.Store.PruneRevisions` | control-plane/src/retention.ts:93-120 | Query and transaction one after the other, as a single process does. |
| `ReleaseRunner.Runner.Reconcile` | control-plane/src/jobs.ts:107-377 | A job's work is the machine's steps for its outcome: nothing left, turned away, or enter, commit and leave. |
| `ReleaseRunner.Runner.WithTargetLease` | control-plane/src/jobs.ts:72-105 | Acquire, work and give back, or a retry if the lease is taken. |
| `ReleaseRunner.Runner.RunJob` | control-plane/src/jobs.ts:395-447 | Takes the job, reconciles, and writes done, queued or failed to its row, failing a release only if it is still pending. |
| `ReleaseRunner.Runner.RunDueJobs` | control-plane/src/jobs.ts:380-450 | One pass requeues the stuck jobs, takes the due ones in order up to a batch of twenty, and is a run of the machine, so it keeps the invariant. |
| `ReleaseRunner.JobReaches` | control-plane/src/jobs.ts:395-447 | Whatever the outcome, a processed job is a run of the machine. |
| `RegexLint.HasNestedQuantifier` | shared/policy.ts:658-689 | On the printed form of any pattern of literals, escapes, classes, groups, alternation and quantifiers the stack scan answers true if and only if some group under *, + or { holds, at any depth, such a quantifier or an alternation. |
| `RegexLint.HasQuantifierOrAlternation` | shared/policy.ts:637-656 | The index loop with its class flag is the scan it is defined by. |
| `RegexLint.LintExact` | shared/policy.ts:658-689 | The same equivalence on the scan as a function of the text. |
| `RegexLint.RestlessPattern` | shared/policy.ts:637-656 | The inner scan answers true on a printed pattern, followed by anything, if and only if the pattern repeats or alternates somewhere or the scan does on what follows. |
| `RegexLint.PassedHeight` | shared/policy.ts:658-705 | A pattern that passes nests repetitions at most one deep. |
| `RegexLint.GroupFlagged` | shared/policy.ts:637-689 | On the text itself: a group of plain characters and one of * + { | is flagged if and only if * + or { follows it or the rest of the pattern is flagged. |
| `RegexLint.QuietGroup` | shared/policy.ts:637-689 | A group of plain characters alone is never flagged for what follows it. |
| `RegexLint.EscapedPasses` | shared/policy.ts:637-689 | A character after a backslash counts for nothing in either scan. |
| `XmlScan.PrefixDecides` | shared/xml.ts:453-494 | If scanning a prefix finds a body child, scanning any extension within maxBytes gives the same SOAP version and the same child. |
| `XmlScan.AdvanceStable` | shared/xml.ts:165-339 | A turn of the scan that was completed inside a prefix is the same turn in every extension. |
| `XmlTokens.MarkStable` | shared/xml.ts:180-304 | A declaration, comment, CDATA section, end tag or start tag read whole is read the same however the text goes on. |
| `XmlEnvelope.EnvelopeExact` | shared/xml.ts:453-494 | For every text whose tree can be built, cut short or not: the scan refuses if and only if a root element before its answer is no SOAP envelope, and otherwise tells the version of the root around its answer and the name of the first grandchild of a root that starts after a child named Body in its root's namespace; none if there is no such element. |
| `XmlEnvelope.OneRootExact` | shared/xml.ts:453-494 | For a document with one root: refused if and only if that is no Envelope in one of the two SOAP namespaces; the version is by that namespace; without a body there is no child, a first body with a child is answered by its first child, and an empty one by the first grandchild of the root after it, if any. |
| `XmlEnvelope.ScanIsWalk` | shared/xml.ts:138-494 | The scan of the text is a walk over the elements of its tree in document order. |
| `XmlMessages.EmptyBodyOverlooked` | shared/xml.ts:478-492 | A concrete message with an empty body, and the child of another element told as the body's. |
| `XmlPrinting.PrintThenParse` | shared/xml.ts:138-426 | Any document of elements, prefixed names, namespace declarations, attributes in either quotes and text, written out, is parsed into its elements in document order, each under its parent with its name in its namespace. |
| `XmlPrinting.MarkupRead` | shared/xml.ts:195-210 | Comments end at the first close, character data sections likewise. |
| `XmlPrinting.InstructionRead` | shared/xml.ts:181-218 | An instruction runs to its first end and is a declaration if its target begins with xml; any other declaration mark is an error. |
| `XmlPrinting.InstructionTurn` | shared/xml.ts:181-194 | The XML declaration may stand once, before the root; every other instruction is refused. |
| `XmlPrinting.DoctypeRefused` | shared/xml.ts:211-218 | A document type is refused wherever it stands. |
| `XmlPrinting.FindExact` | shared/xml.ts:166-208 | The place searched for is the first, and none is found only where there is none. |
| `XmlScanner.ScanEnvelope` | shared/xml.ts:453-494 | The scan with its two marks gives the answer that XmlEnvelope reads off the tree, and an answer with a child is stable. |
| `XmlScanner.Scanner.Turn` | shared/xml.ts:165-339 | One turn of the loop: cursor, namespace stack, open tags and counters move as defined. |
| `XmlScanner.Scanner.OpenElement` | shared/xml.ts:306-336 | Declarations pushed before names resolve, popped again for an element that closes itself; depth and unknown prefixes refused. |
| `XmlScanner.Scanner.Resolve` | shared/xml.ts:152-159 | The innermost declaration of a prefix, none for an undeclared default, an error otherwise. |
| `XmlScanner.AttributesAt` | shared/xml.ts:258-304 | The attribute loop: namespace declarations, other attributes, both ways to close, every refusal. |
| `XmlTree.DocumentNamesRight` | shared/xml.ts:366-426 | In every tree returned, walking up from any element resolves its raw name to the qualified name the scanner gave it. |
| `XmlTree.ParseDocument` | shared/xml.ts:378-426 | The handlers' stack and the scanner's turns build exactly the tree the scan defines, or refuse, text that does not decode included; its names are right. |
| `XmlTree.WalkIsLookup` | shared/xml.ts:366-376 | For every prefix the stack knows, the walk up the parent links finds what the stack finds, the xml prefix and undeclared defaults included. |
| `XmlTree.ResolveQName` | shared/xml.ts:366-376 | The loop over parents gives the name by the nearest declaration. |
| `BreakerRuns.OpensExactly` | shared/backend.ts:157-176 | In every run with a monotone clock, outside half-open, the breaker opens exactly at the failure that brings the reports since the last reset, strictly inside the window, to the configured number. |
| `BreakerRuns.OpenGrantsNothing` | shared/backend.ts:125-147 | From a failure that opened it, for openSec and until a success is reported, no request is let through, whatever else happens. |
| `BreakerRuns.EpisodeGrants` | shared/backend.ts:137-147 | From opening to the report that ends the half-open episode, at most halfOpenProbes requests are let through. |
| `BreakerRuns.SweepInvisible` | shared/backend.ts:193-198 | No answer of state, tryAcquire or reopensInMs depends on the sweeps made before. |
| `BreakerRuns.RunAgrees` | shared/backend.ts:110-199 | After every run the entry agrees with a breaker that never trims its reports and never forgets a backend. |
| `Breaker.CircuitBreaker.Status` | shared/backend.ts:125-134 | The lazy change to half-open, with its counter reset. |
| `Breaker.CircuitBreaker.TryAcquire` | shared/backend.ts:137-147 | Refuses while open and beyond the probes; reserves a slot when half-open. |
| `Breaker.CircuitBreaker.OnSuccess` | shared/backend.ts:149-155 | Closes and forgets the failures. |
| `Breaker.CircuitBreaker.OnFailure` | shared/backend.ts:157-176 | Reopens from half-open; otherwise trims, counts and opens. |
| `Breaker.CircuitBreaker.ReopensInMs` | shared/backend.ts:179-184 | The time left while open, never negative. |
| `Breaker.CircuitBreaker.SweepIdle` | shared/backend.ts:193-198 | Drops exactly the closed entries without failures, and only from a table of ten thousand. |
| `BackendSelection.SelectionOrder` | shared/backend.ts:57-86 | Every address of the pool once, healthy before unhealthy, each part in the order of the rotation. |
| `BackendSelection.WeightedShare` | shared/backend.ts:63-86 | Over a full turn of the cursor, from anywhere, with the pool's backends healthy, an address is first in the order returned as often as it weighs, weights clamped to 1..10. |
| `BackendSelection.OrderFollowsList` | shared/backend.ts:57-86 | Of two backends with the same health the one whose address comes first in the rotated list is tried first. |
| `BackendSelection.FailoverKeepsPool` | shared/backend.ts:63-76 | Failing over tries the pool in its own order, whatever the cursor and the weights. |
| `BackendSelection.WeightsAre` | shared/backend.ts:63-66 | No weight counts as one, and a weight is kept between one and ten. |
| `OperationMatch.MatchOperation` | shared/opmatch.ts:98-152 | The answer of a plain search: none if no operation serves the request, otherwise the one with most literal segments, its own method before a GET for a HEAD, first declared on ties, with its variables. |
| `OperationMatch.MatchCompiled` | shared/opmatch.ts:98-140 | The same from the index, in the index's arity bucket only. |
| `OperationMatch.CompileOperations` | shared/opmatch.ts:67-88 | The index holds, for each number of segments, the compiled operations with that many, in declaration order. |
| `OperationMatch.FindBest` | shared/opmatch.ts:109-131 | The pruned loop keeps the candidate that beats every serving candidate so far. |
| `OperationMatch.ReadParams` | shared/opmatch.ts:133-139 | Each variable is bound to the decoded part at its last place. |
| `OperationMatch.OneWinner` | shared/opmatch.ts:90-140 | There is never a second winner. |
| `OperationMatch.SegmentsExact` | shared/opmatch.ts:27-29 | A path written with any number of slashes between, before and after its pieces has exactly those pieces. |
| `OperationMatch.ParamsAre` | shared/opmatch.ts:31-33 | A segment is a parameter if and only if it is a name of one character or more in curly brackets. |
| `OperationMatch.UpperIs` | shared/opmatch.ts:67-88 | The twenty-six letters become capitals and nothing else changes. |
| `PercentileLaws.PercentileNearQuantile` | shared/telemetry.ts:160-213 | For any samples and any q, the percentile of their histogram lies within the bounds of the bucket that holds the exact nearest-rank quantile (nominal bounds for the last). |
| `PercentileLaws.QuantileExists` | shared/telemetry.ts:193-213 | Every non-empty sample and every q in (0, 1] has such a quantile. |
| `PercentileLaws.PercentileRises` | shared/telemetry.ts:193-213 | The percentile never falls as q grows. |
| `PercentileLaws.PercentileInterpolates` | shared/telemetry.ts:193-213 | The value is the thousandth nearest to the point that divides its bucket as the samples still wanted there divide the samples in it, buckets written out and samples counted directly. |
| `PercentileLaws.SplitIrrelevant` | shared/telemetry.ts:171-175 | However the same samples are split into reports, ordered and merged, the histogram and every percentile are the same. |
| `PercentileLaws.HistogramAppend` | shared/telemetry.ts:171-175 | Adding the histograms of two reports is the histogram of both. |
| `PercentileLaws.LegacyKept` | shared/telemetry.ts:150-175 | What a row of fifteen counted up to each of its bounds is, once added, still counted up to the same bound. |
| `PercentileLaws.RowsAdded` | shared/telemetry.ts:171-175 | Rows of any other length are added as they are. |
| `Percentiles.BucketUnique` | shared/telemetry.ts:160-165 | A duration falls in one bucket only. |
| `Percentiles.BucketIndex` | shared/telemetry.ts:160-165 | The index of the bucket whose bounds hold the duration. |
| `Percentiles.Row.AddBuckets` | shared/telemetry.ts:171-175 | Adds position by position in place, with a fifteen-bucket row widened first, a shorter accumulator filled up and the rest of a longer one kept. |
| `Percentiles.Percentile` | shared/telemetry.ts:193-213 | The two loops compute the interpolated value at the first bucket reaching the target, none without samples. |

## Left out

- Response, skill and metadata comparison (shared/diff.ts): response details are an arbitrary outcome; the order of the report is that of the operations.
- ModelDiff.ParametersStillAccepted: parameter schemas are compared by type and enum only, so references, items and properties in them are outside the fragment.
- Rendering of error messages, JSON pointers and report paths beyond their structure.
- Integer-like key order and prototype keys of JavaScript objects.
- Floating point: numbers are lexemes or exact reals, so rounding of multipleOf and of percentiles follows the real-number formula.
- Regular expression engines, format checks, XSD simple types, facets, attributes and the XSD compiler: abstract or absent.
- Literal braces outside quantifiers in regular expressions, which the linter reads as quantifiers; the remaining checks of lintPattern.
- Document order of keywords inside one schema object: keywords are a record, with the order of the two tuple spellings kept. Keywords without subschemas are judged before any subschema here, so that where one of them is refused the order decides which error is thrown first, and which components a throw leaves remembered: the code has compiled, and keeps, those referred to by earlier keywords.
- resolvePointer (shared/jsonschema.ts): a document is a map from pointers to schemas.
- Seeded policy units, plan contents, route building and audit rows of a reconcile: arbitrary success or failure.
- ReleaseRunner.Runner.Reconcile: which gateway is leased and whether one is paused or missing is an arbitrary outcome, because the gateway table has no paused column here.
- ReleaseRunner.Runner.RunDueJobs: one pass without other runners in between (interleavings are the subject of the machine); which jobs are due is arbitrary, and the other job kinds are absent.
- enqueueJob's idempotency key and the backoff schedule.
- Recency of releases in the pruning query is by insertion order rather than by the released_at column.
- Text content of XML elements (whether it decodes is modelled), the entity decoder itself and tag balance.
- OperationMatch.MatchOperation: methods are upper-cased over ASCII only, and path decoding is a parameter.
- Bundled configuration parsing (readBackendPool), snapshots, quotas, dashboards, logs and the user interface: shallow.
