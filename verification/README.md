# Verified model of kubectl-status

kubectl-status renders the state of Kubernetes objects through templates. Around that it holds several
algorithms of its own. This project models them in Dafny and proves what they promise.

- **Calico selectors** (`Calico*.dfy`). The tokenizer is proved to accept exactly the layouts of its token
  sequences, and the parser exactly the sentences of an unambiguous grammar. The flattened tree means what
  the binary grammar means, and printing then parsing gives the tree back.
- **Crossplane drift** (`Drift*.dfy`). The comparison of values, with its three rules for lists and maps, is
  equality of a normal form. Leaves and dotted paths determine a document, `setPath` (on heap maps) rebuilds
  it in any order, and `Diff` is a plain recursive descent.
- **Fixture splicing** (`Fixture*.dfy`). Patterns and segment lists correspond one to one, and a wildcard ends
  with the bracket a grammar of groups and classes says. The backtracking search, which fills an array in
  place, finds exactly the first split of the output among the segments with at most one guess.
- **Template coverage** (`TemplateTrees.dfy`, `Instrument.dfy`). Splicing markers into all template files
  leaves rendering as it was, under dash trimming, all control flow, `{{template}}` calls and includes, and
  counts how often each statement is reached.
- **Two template trees** (`Overlay.dfy`). An interpreter with `{{template}}`, `Include`, nested renders and
  summaries, in which an overlay of helpers cannot change any rendering, overridden Kinds and summaries run
  the user's templates everywhere, and exactly a bare Kind name keeps an object's template from running twice.
- **Hostnames and certificates** (`Hostnames.dfy`). Symbolic intersections denote exactly the intersections
  of the hosts that patterns accept, and the certificate check decides whether a host is served by all sides.
- **Object cache and sanitizing** (`Sanitize.dfy`, `ObjectCache.dfy`). Escape sequences go as a whole, other
  control characters one by one, and all else stays. Shared objects are sanitized in place, and still every
  `KubeGet` returns the sanitized first reply and the backend is asked once per query.
- **Node pools** (`NodeSelectors.dfy`, `Karpenter.dfy`), **quota headroom** (`Quota.dfy`) and the
  **StatefulSet rollback trap** (`Rollback.dfy`): decision procedures proved against the semantics they
  approximate or compute.

`Wrappers`, `Sequences`, `Strings` and `Ordering` hold what the modules share, `Float64s` the numbers of JSON.

Loops and in-place updates of the source are methods, each proved against a function; the theorems are
lemmas about those functions. `dafny verify dfyconfig.toml` checks the whole project.

## How the source is modelled

- Strings are sequences of bytes (of code points in `Sanitize`). Case folding, wherever it occurs, is ASCII.
- The errors of the selector language are datatypes with one value for each message.
- The regex engine is an oracle from a pattern and a text to the length of the match at the start of the
  text; the only assumption is that a match lies within the text. `regexp.Compile` is a predicate.
- Template sources are trees of texts, tags, blocks and definitions as the parser reports them. The
  pipelines of statements, blocks and calls are arbitrary programs over an arbitrary world: they can include
  templates and fail, and decide what is printed, how often a loop runs and which branch is taken.
- Float64 numbers are an odd mantissa of at most 53 bits times a power of two; integers round to nearest,
  ties to even.
- Template bodies in `Overlay` are arbitrary programs that see their data and every answer, but not the tree
  an object was dispatched to, which Go does not export to templates.
- The backend behind the object cache may answer the same query differently each time.

## Where code and expectations differ

Each of these is a lemma or a contract, with the exact condition where there is one.

- `Diff(x, x)` can report drift. It does exactly when two leaves share a path and differ (`SelfComparison`).
  That takes an empty key or a key with a dot in it (`SelfDriftNeedsBadKey`), and either can be enough
  (`EmptyKeyDrifts`, `DottedKeyDrifts`).
- Integers beyond 53 bits can compare equal, because `valuesEqual` converts to float64; up to a bound they are
  told apart exactly when it has at most 53 bits (`LargeIntegersMerge`, `ExactUpTo`).
- A spliced fixture parses to the segments it was written from exactly when no literal became empty
  (`SpliceReparses`); `a.` spliced to `5` leaves one empty (`EmptyLiteral`). In terms of the output: exactly
  when the first split leaves each literal some text (`FirstSplitReparses`).
- The comment in `template_coverage.go` promises a marker for every `{{template}}` call. The parser places
  such a call at its name, so the scan for its delimiter finds nothing and the call is never instrumented
  (`CallNotLocated`).
- A pool that does not declare a key is refused for it even where a node without the label would do
  (`RefusalExact`, `UndeclaredRefused`).
- `MatchesHostname` is true when listener and routes have nothing in common, since no hostname is then
  expected (`MatchesExact`).
- Cache keys collide for arguments that hold the separator, and for no argument and one empty argument
  (`SeparatorCollides`, `KeyInjective`).
- Two-word operators need no blank between the words ("notin"), and must not be followed by an identifier
  byte even after blanks; `LexIffLayout` includes both.
- What the rollback search returns can depend on the order of the list: two Pods can have one ordinal
  ("web-1", "web-01", `OrderMatters`), and a candidate of negative ordinal is never reported and hides those
  before it (`NegativeForgets`, `NegativeOrderMatters`). The exact condition is `OrderIrrelevantIff`: without
  negative ordinals, the candidates of least ordinal are one Pod, or none of them passes the tests; with some,
  no candidate of an ordinal from zero on passes them.
- The check that an object "is already printed" keeps back repeated renders only where the object is
  dispatched to its bare Kind: not for a "Kind.group" template or `DefaultResource`, nor for `{{template}}`
  calls (`NeverRepeatedIff`, `CallsRepeat`). It goes by the uid alone, so it is wrong of an object exactly when
  only another one with its uid has been let through (`AlreadyPrintedIff`, `SharedUIDMistaken`).
- `FirstObject` returns the cached object as it is: raw until a KubeGet has returned that entry, and sanitized
  from then on.

## Model

| member | source | states |
|---|---|---|
| CalicoLexer.Tokenize | pkg/plugin/calicoselector/calicoselector.go:255-378 | the tokenizer's loop ends on every input with the tokens `Lex` gives; its "infinite loop" error is unreachable |
| CalicoLexer.Lex | pkg/plugin/calicoselector/calicoselector.go:255-378 | a successful tokenization has exactly one EOF, at the end |
| CalicoLexer.ScanToken | pkg/plugin/calicoselector/calicoselector.go:269-373 | one pass of the switch: the token at the front of the input and what follows it |
| CalicoLexer.ScanOperator | pkg/plugin/calicoselector/calicoselector.go:329-342 | operator words, sought only after a label and in this order |
| CalicoLexer.ScanOperand | pkg/plugin/calicoselector/calicoselector.go:343-372 | has(l), all(), global() or a label, with blanks allowed inside the parentheses, and each error |
| CalicoLexer.CutIdentifier | pkg/plugin/calicoselector/calicoselector.go:421-437 | the longest run of identifier bytes, between 1 and 512 of them |
| CalicoLexer.CutMultiWordPrefixCheckBreak | pkg/plugin/calicoselector/calicoselector.go:399-412 | both words with any blanks after each, and then no identifier byte |
| CalicoLexer.TrimWhitespace | pkg/plugin/calicoselector/calicoselector.go:380-389 | drops the leading blanks and nothing more |
| CalicoLayout.LexIffLayout | pkg/plugin/calicoselector/calicoselector.go:255-378 | a text tokenizes to given tokens exactly when it is a layout of them: spellings with blanks between, where word boundaries demand them |
| CalicoParser.ParseOrExpression | pkg/plugin/calicoselector/calicoselector.go:460-482 | the loop returns the flattened tree and remaining tokens of the `&#124;&#124;` level, or the source's error |
| CalicoParser.ParseAndExpression | pkg/plugin/calicoselector/calicoselector.go:485-507 | the same for the `&&` level |
| CalicoParser.ParseOperation | pkg/plugin/calicoselector/calicoselector.go:511-612 | negations by parity, parentheses, calls and label operations, with each error; what is left is a non-empty proper suffix |
| CalicoParser.ParseLabelOperation | pkg/plugin/calicoselector/calicoselector.go:530-595 | label comparisons and memberships with each of their errors |
| CalicoParser.ParseSetElements | pkg/plugin/calicoselector/calicoselector.go:560-573 | set elements with an optional trailing comma; duplicates merge |
| CalicoParser.Parse | pkg/plugin/calicoselector/calicoselector.go:52-74 | the whole of Parse on text: the tokens, the empty selector, leftover tokens, errors |
| CalicoParser.ParseIffDerives | pkg/plugin/calicoselector/calicoselector.go:460-612 | parsing tokens gives a tree exactly when they are empty or derive from the grammar with that tree |
| CalicoParser.DerivationUnique | pkg/plugin/calicoselector/calicoselector.go:456-513 | a token sequence has at most one derivation, so one meaning |
| CalicoGrammar.EvaluateIsHolds | pkg/plugin/calicoselector/calicoselector.go:99-213 | evaluating the flattened n-ary tree equals the binary reference semantics on every label map; negation is parity, absent labels satisfy != and not in |
| CalicoRoundTrip.TreeWellFormed | pkg/plugin/calicoselector/calicoselector.go:95-213 | the tree of a derivation is well formed exactly when every label and value in it can be spelled |
| CalicoRoundTrip.PrintThenParse | pkg/plugin/calicoselector/calicoselector.go:52-74 | any spelling of a well-formed tree with blanks between its tokens parses to that tree |
| CalicoRoundTrip.ParseTextIff | pkg/plugin/calicoselector/calicoselector.go:52-74 | a text parses to a tree exactly when it is empty (all()) or a layout of a derivation of that tree |
| CalicoRoundTrip.ParsedIffWellFormed | pkg/plugin/calicoselector/calicoselector.go:52-74 | the trees some text parses to are exactly the well-formed ones |
| DriftJson.ValuesEqual | pkg/plugin/crossplanedrift/crossplanedrift.go:261-293 | true exactly when the normal forms are equal: so reflexive, symmetric and transitive on all JSON values |
| DriftJson.MapsEqual | pkg/plugin/crossplanedrift/crossplanedrift.go:268-281 | the comparison of two maps of one size, key by key in any order |
| DriftJson.ListsEqual | pkg/plugin/crossplanedrift/crossplanedrift.go:295-308 | two lists of distinct scalars by membership, all other pairs by position, which together is equality of normal forms |
| DriftJson.IsScalarListNoDuplicates | pkg/plugin/crossplanedrift/crossplanedrift.go:310-324 | true exactly for lists of pairwise different scalars |
| DriftJson.ScalarSetsEqual | pkg/plugin/crossplanedrift/crossplanedrift.go:336-350 | one-way membership at equal length is equality of the sets |
| DriftJson.KeysTellScalarsApart | pkg/plugin/crossplanedrift/crossplanedrift.go:329-334 | the string key of a scalar is shared only by equal scalars |
| DriftJson.Pigeonhole | pkg/plugin/crossplanedrift/crossplanedrift.go:336-350 | equally long lists of distinct scalars agree as sets as soon as one lies within the other |
| DriftJson.PositionalOnly | pkg/plugin/crossplanedrift/crossplanedrift.go:295-308 | unless both lists have distinct scalars, their normal forms agree exactly when their elements do, position by position |
| Float64s.SmallIntegersExact | pkg/plugin/crossplanedrift/crossplanedrift.go:376-391 | integers of up to 53 bits compare as integers |
| Float64s.LargeIntegersMerge | pkg/plugin/crossplanedrift/crossplanedrift.go:376-391 | beyond that distinct integers can compare equal, because both become float64 |
| Float64s.ExactUpTo | pkg/plugin/crossplanedrift/crossplanedrift.go:376-391 | the integers up to a bound are told apart exactly when the bound has at most 53 bits |
| Float64s.RoundedFits | pkg/plugin/crossplanedrift/crossplanedrift.go:376-391 | a converted integer is a float64: an odd mantissa of at most 53 bits |
| Float64s.RoundedNearest | pkg/plugin/crossplanedrift/crossplanedrift.go:376-391 | no float64 is nearer to an integer than what it converts to, and a tie goes to the even mantissa |
| Float64s.InjectiveFormat | pkg/plugin/crossplanedrift/crossplanedrift.go:329-331 | there are formats of float64 numbers that tell them all apart, as `%v` does |
| DriftPaths.WalkIsDescent | pkg/plugin/crossplanedrift/crossplanedrift.go:234-253 | with non-empty dot-free keys the leaves listed are exactly those that descent reaches, each path once |
| DriftPaths.LeavesAntichain | pkg/plugin/crossplanedrift/crossplanedrift.go:234-253 | no leaf lies on the way to another |
| DriftPaths.LeavesDetermine | pkg/plugin/crossplanedrift/crossplanedrift.go:234-253 | two trees with the same leaves are equal |
| DriftPaths.SetAdds | pkg/plugin/crossplanedrift/crossplanedrift.go:188-200 | setting a vacant path adds one leaf and keeps all others |
| DriftPaths.FoldExact | pkg/plugin/crossplanedrift/crossplanedrift.go:188-200 | the document built from an antichain of leaves holds exactly these leaves |
| DriftPaths.RebuildInAnyOrder | pkg/plugin/crossplanedrift/crossplanedrift.go:188-200 | writing a document's leaves in any order rebuilds it, and no write overwrites an earlier one |
| DriftReport.Diff | pkg/plugin/crossplanedrift/crossplanedrift.go:75-126 | the report of the loops: counts, classes, redaction, order, the cut at twenty |
| DriftReport.IndexByPath | pkg/plugin/crossplanedrift/crossplanedrift.go:82-85 | the map holds for each path the last observed leaf with that path |
| DriftReport.ClassifyAll | pkg/plugin/crossplanedrift/crossplanedrift.go:93-109 | the loop counts each class and collects the drifted entries in order |
| DriftReport.CountOutside | pkg/plugin/crossplanedrift/crossplanedrift.go:119-123 | the observed paths that are not configured |
| DriftReport.LeavesAccountedFor | pkg/plugin/crossplanedrift/crossplanedrift.go:91-117 | TotalConfigured is InSync, NotObserved, shown drift and MoreCount together, on all inputs |
| DriftReport.ObservedAccountedFor | pkg/plugin/crossplanedrift/crossplanedrift.go:119-123 | every observed leaf is in sync, drifted, or counted as observed only |
| DriftReport.EntriesExact | pkg/plugin/crossplanedrift/crossplanedrift.go:91-117 | the entries are those of drifted leaves, in order of path, holding both values or, exactly for sensitive paths, neither; a drifted leaf without an entry comes after twenty shown ones |
| DriftReport.SensitiveIgnoresCase | pkg/plugin/crossplanedrift/crossplanedrift.go:212-222 | whether a path is sensitive does not depend on the case of its letters |
| DriftReport.ClassifyIsDescent | pkg/plugin/crossplanedrift/crossplanedrift.go:94-109 | with good keys a leaf is classified as following its route through the observed document would |
| DriftReport.ReportIsDescent | pkg/plugin/crossplanedrift/crossplanedrift.go:75-126 | with good keys all counts are those of a plain recursive descent |
| DriftReport.SelfComparison | pkg/plugin/crossplanedrift/crossplanedrift.go:75-126 | a document compared with itself shows drift exactly when two of its leaves share a path and differ |
| DriftReport.SelfComparisonOfGoodTree | pkg/plugin/crossplanedrift/crossplanedrift.go:75-126 | with good keys Diff(x, x) reports every leaf in sync |
| DriftReport.SelfDriftNeedsBadKey | pkg/plugin/crossplanedrift/crossplanedrift.go:75-126 | drift against itself takes an empty key or a key with a dot somewhere in the document |
| DriftReport.DottedKeyDrifts | pkg/plugin/crossplanedrift/crossplanedrift.go:234-253 | a document without empty keys that shows drift against itself, having a key with a dot |
| DriftReport.EmptyKeyDrifts | pkg/plugin/crossplanedrift/crossplanedrift.go:234-253 | a document without dots in its keys that shows drift against itself, having an empty key |
| DriftDocuments.Document.Store | pkg/plugin/crossplanedrift/crossplanedrift.go:188-200 | setPath in place on heap maps: the new contents are `SetRoute` of the old ones, only the document's own maps change |
| DriftDocuments.Document.StoreBelow | pkg/plugin/crossplanedrift/crossplanedrift.go:188-200 | the step into an existing map, which is updated in place |
| DriftDocuments.BuildDocuments | pkg/plugin/crossplanedrift/crossplanedrift.go:138-147 | the two documents hold the shown entries' values, folded in order |
| DriftDocuments.DocumentsShowDrift | pkg/plugin/crossplanedrift/crossplanedrift.go:138-147 | a path holds two values in the two documents only if it drifted between them and is not sensitive, and always then unless the report is cut |
| FixtureSegments.ParseFixtureSegments | cmd/e2e_helpers_test.go:236-315 | the scanner with its bracket stack and two buffers returns the grouped literal and wildcard units, which `FixtureBrackets.SegmentsByGrammar` finds without a scanner |
| FixtureSegments.ScanUnit | cmd/e2e_helpers_test.go:252-311 | the scanner's branches: the unit at an index, where it ends, the brackets open after it; `FixtureBrackets.BodyInside` says that these are the brackets of the grammar |
| FixtureSegments.PrintOfParse | cmd/e2e_helpers_test.go:236-315 | re-quoting the literals of a parsed pattern gives the pattern back, for every pattern |
| FixtureSegments.ParsedWellFormed | cmd/e2e_helpers_test.go:236-315 | parsed segments are non-empty, alternate, and leave no bracket open before a literal |
| FixtureSegments.WellFormedAlternate | cmd/e2e_helpers_test.go:236-315 | segments alternate strictly, so the search never reads a missing wildcard |
| FixtureSegments.ParseOfPrint | cmd/e2e_helpers_test.go:236-315 | printed well-formed segments parse to themselves |
| FixtureSegments.SegmentsArePatterns | cmd/e2e_helpers_test.go:236-315 | patterns and well-formed segment lists correspond one to one |
| FixtureBrackets.SegmentsByGrammar | cmd/e2e_helpers_test.go:236-315 | a pattern's segments are the runs of its items in a grammar of escapes, classes and nested groups, of which every pattern has a derivation |
| FixtureBrackets.ParsedByGrammar | cmd/e2e_helpers_test.go:252-311 | so for every derivation, one that ends inside a bracket or after a backslash included |
| FixtureBrackets.BodyInside | cmd/e2e_helpers_test.go:254-280 | what a group or class encloses is scanned as syntax and leaves the open brackets as they were |
| FixtureBrackets.BracketSegment | cmd/e2e_helpers_test.go:254-310 | a group or class between two literals is one wildcard, up to its own closing bracket |
| FixtureSplice.LiteralEndCandidates | cmd/e2e_helpers_test.go:484-528 | exactly the places where the literal may end, each once: old-text ends first, nearest first, then the guesses, those first that keep more of the old text's tail, then nearest |
| FixtureSplice.CandidatesExact | cmd/e2e_helpers_test.go:484-528 | the candidates are exactly the places where the old text precedes a wildcard match, and the nearby wildcard matches |
| FixtureSplice.OldTextEnds | cmd/e2e_helpers_test.go:493-503 | the strings.Index loop finds every occurrence of the old text that a wildcard match follows |
| FixtureSplice.SuffixOverlapLen | cmd/e2e_helpers_test.go:531-537 | the length of the longest common suffix |
| FixtureSplice.RankedExact | cmd/e2e_helpers_test.go:518-523 | the sort ranks the fallback ends and keeps all of them |
| FixtureSplice.OverlapIsTail | cmd/e2e_helpers_test.go:518-537 | the overlap that ranks the guesses is the longest tail of the old text standing before the end |
| FixtureSplice.ResolveFixtureSegments | cmd/e2e_helpers_test.go:401-443 | the backtracking search in place: earlier entries of newText are untouched, success is that of `Search`, and then the entries hold its pieces whatever failed branches wrote |
| FixtureSplice.ResolveWild | cmd/e2e_helpers_test.go:406-412 | the branch for a wildcard |
| FixtureSplice.ResolveLast | cmd/e2e_helpers_test.go:413-428 | the branch for a last literal and its share of the budget |
| FixtureSplice.TryCandidates | cmd/e2e_helpers_test.go:429-442 | the loop over candidates, skipping guesses beyond the budget |
| FixtureSplice.SearchSound | cmd/e2e_helpers_test.go:401-443 | what the search returns splits the output among the segments with at most one guess |
| FixtureSplice.SearchComplete | cmd/e2e_helpers_test.go:401-443 | the search finds a split whenever there is one |
| FixtureSplice.SpliceRegexFixture | cmd/e2e_helpers_test.go:345-380 | the whole splice: no literals, wildcards that do not compile, the search, the new source |
| FixtureSplice.SpliceSound | cmd/e2e_helpers_test.go:345-380 | wildcards are unchanged, new literals and wildcard matches partition stdout in order, and at most one literal lost its old ending |
| FixtureSplice.SpliceComplete | cmd/e2e_helpers_test.go:345-380 | a fixture is given up exactly when it has no literal, a wildcard does not compile, or no split exists |
| FixtureSplice.SpliceUnchanged | cmd/e2e_helpers_test.go:345-380 | a fixture whose segments already consume stdout is returned unchanged |
| FixtureSplice.SpliceReparses | cmd/e2e_helpers_test.go:345-380 | the new fixture parses to the new segments exactly when no literal became empty |
| FixtureOrder.SearchFirst | cmd/e2e_helpers_test.go:401-443 | of all splits from a position on the search returns the first: at the first end in which another differs, its own is tried before the other's |
| FixtureOrder.SearchFindsFirst | cmd/e2e_helpers_test.go:401-443 | there is exactly one first split whenever there is any, and the search finds it |
| FixtureOrder.SpliceFirst | cmd/e2e_helpers_test.go:345-380 | a splice writes exactly the pieces of the first split into the literals |
| FixtureOrder.FirstSplitReparses | cmd/e2e_helpers_test.go:345-380 | in terms of the output: the new fixture parses to the new segments exactly when the first split leaves each literal some text |
| FixtureSplice.EmptyLiteral | cmd/e2e_helpers_test.go:345-380 | a fixture and an output for which the new fixture does not parse to the new segments: `a.` and `5` give `.` |
| FixtureSplice.SpliceStable | cmd/e2e_helpers_test.go:345-380 | splicing the result again changes nothing, unless a literal became empty |
| Instrument.FindOpenDelim | pkg/plugin/template_coverage.go:282-297 | the backward scan over white space finds the delimiter `OpenDelim` defines |
| Instrument.StatementLocated | pkg/plugin/template_coverage.go:275-297 | from where the parser places a statement the scan finds that statement's own delimiter and its dash |
| Instrument.CallNotLocated | pkg/plugin/template_coverage.go:275-297 | from the name of a {{template}} call, where the parser places it, the scan finds nothing |
| Instrument.MarkerIsTag | pkg/plugin/template_coverage.go:226-234 | the bytes of a marker are those of a tag that calls the marker function on the quoted key, with dashes exactly where the marker of the tree trims |
| Instrument.TemplateCoverageRecorder.InstrumentTemplateSource | pkg/plugin/template_coverage.go:196-239 | points collected in any order are sorted; the cursor loop returns the source with markers at the delimiters found, and registers their keys and line lengths |
| Instrument.TemplateCoverageRecorder.Register | pkg/plugin/template_coverage.go:74-81 | adds a key with count zero, keeps existing counts, and sets the line's length |
| Instrument.TemplateCoverageRecorder.Hit | pkg/plugin/template_coverage.go:84-91 | adds one to the key's count and prints nothing |
| Instrument.RegisteredKeeps | pkg/plugin/template_coverage.go:74-81 | registering adds exactly the given keys and changes no count |
| Instrument.RecordedCounts | pkg/plugin/template_coverage.go:84-91 | after a run each counter has grown by the number of its hits |
| Instrument.SortedPoints | pkg/plugin/template_coverage.go:202-209 | however the points were collected, sorting gives their one ascending order |
| Instrument.SpliceAtPieces | pkg/plugin/template_coverage.go:214-238 | the loop's output is the source with one marker before every located statement |
| Instrument.ListBytes | pkg/plugin/template_coverage.go:196-239 | the instrumented bytes are those of the tree with markers inserted |
| Instrument.FileSpliced | pkg/plugin/template_coverage.go:196-273 | one file: spliced bytes are those of the marked tree, markers stand at exactly the located statements, and erasing them gives the file back |
| TemplateTrees.ErasedList | pkg/plugin/template_coverage.go:196-239 | erasing the markers gives the original tree back |
| TemplateTrees.InstrumentedList | pkg/plugin/template_coverage.go:25-35 | nodes with markers render the same text under dash trimming, for every branch, iteration, break, continue and failure, includes by any pipeline, and hit each marker as often as its statement is reached |
| TemplateTrees.InstrumentedTemplate | pkg/plugin/template_coverage.go:148-179 | with every template of the table instrumented, any of them renders the same through all {{template}} calls and includes, with hits equal to the statements reached in all of them |
| TemplateTrees.TableOfInstrumented | pkg/plugin/template_coverage.go:159-177 | instrumenting every file instruments every template the files define |
| Instrument.InstrumentationIsTransparent | pkg/plugin/template_coverage.go:148-239 | for all files together: same text, world and end, and each counter grows by the times a located statement of its line is reached, in callees too |
| Overlay.CollectKindTemplateNames | pkg/plugin/render_engine.go:312-330 | the loop over template files collects the file names that are template names, and DefaultResource |
| Overlay.UidSet.CheckAdd | pkg/plugin/renderable.go:218-224 | tells whether the uid was there, and adds it in place |
| Overlay.SameNames | pkg/plugin/render_engine.go:334-415 | with an overlay of helpers only, every lookup resolves to the embedded tree as without it |
| Overlay.SameRun | pkg/plugin/render_engine.go:407-415 | no difference through any nesting of {{template}}, Include, nested renders and summaries |
| Overlay.SameTemplate | pkg/plugin/renderable.go:204-214 | the same for executeTemplate with its already-printed check |
| Overlay.SameSummary | pkg/plugin/renderable.go:184-190 | the same for HealthSummary |
| Overlay.SameRender | pkg/plugin/renderable.go:158-168 | non-interference: an overlay without Kind-dispatch names, summaries and templates for the objects rendered leaves every rendering unchanged |
| Overlay.OverrideRenders | pkg/plugin/render_engine.go:334-361 | an overlay's template for the name an object is dispatched to is what renders it, in the user tree |
| Overlay.OverrideDiffers | pkg/plugin/render_engine.go:334-361 | the hypothesis on kinds is needed: for every object there is an overlay defining only the template it is dispatched to with which it renders differently |
| Overlay.IncludeOverridden | pkg/plugin/render_engine.go:407-409 | an Include by a Kind or summary name the overlay defines runs the user's template, from whichever tree it is asked |
| Overlay.IncludeNotOverridden | pkg/plugin/render_engine.go:407-409 | one by such a name the overlay does not define runs the embedded template, from whichever tree it is asked |
| Overlay.IncludeHelper | pkg/plugin/render_engine.go:411-414 | by any other name a render outside the user tree gets the embedded template or an error, whatever the overlay defines, and a render in the user tree the user's, where there is one |
| Overlay.SummaryOfGroup | pkg/plugin/render_engine.go:373-378 | HealthSummary runs the summary of the Kind in its group if that is defined, the user's version first |
| Overlay.SummaryOfKind | pkg/plugin/render_engine.go:379-381 | else the summary of the Kind |
| Overlay.SummaryGeneric | pkg/plugin/renderable.go:184-190 | else the generic summary, from the tree it is asked in |
| Overlay.KindTemplateOncePerObject | pkg/plugin/renderable.go:204-224 | outside watch mode, {{template}} calls aside, no object's Kind template runs twice on it while one object is rendered |
| Overlay.NeverRepeatedIff | pkg/plugin/renderable.go:158-168 | the template an object is dispatched to is kept from running on it again, whatever templates do, exactly when its name is the bare Kind |
| Overlay.RendersTwice | pkg/plugin/renderable.go:158-168 | otherwise the template of another object can render it twice, and end |
| Overlay.CallsRepeat | pkg/plugin/renderable.go:204-214 | {{template}} calls are not kept back: one can run an object's template on it again, and end |
| Overlay.AlreadyPrintedIff | pkg/plugin/renderable.go:204-224 | an object dispatched to its Kind is reported as already printed exactly when an object with its uid has been let through, and by mistake exactly when that is not itself |
| Overlay.MistakenSharesUID | pkg/plugin/renderable.go:204-224 | in every run, an object reported by mistake shares its uid with another one that was let through |
| Overlay.SharedUIDMistaken | pkg/plugin/renderable.go:204-224 | for any two objects with one uid there are templates with which one is reported as already printed although its template never ran |
| Hostnames.ExpectedHostnames | pkg/plugin/hostname.go:12-29 | the non-empty names of an absent, single or list argument |
| Hostnames.HostnameIntersections | pkg/plugin/hostname.go:60-75 | the routes alone without a listener hostname, else each route narrowed by it |
| Hostnames.NarrowerExact | pkg/plugin/hostname.go:79-111 | the narrower pattern accepts exactly the hosts both patterns accept |
| Hostnames.IntersectionsExact | pkg/plugin/hostname.go:60-106 | a host matches some returned pattern exactly when the listener and some route accept it |
| Hostnames.EmptyIffDisjoint | pkg/plugin/hostname.go:60-106 | an empty result means exactly that listener and routes share no host |
| Hostnames.AcceptsInLabels | pkg/plugin/hostname.go:79-111 | a gateway wildcard stands for one or more labels |
| Hostnames.CheckCertServesHostname | pkg/plugin/certificate.go:147-178 | the loops over certificate names, with the library's own check for concrete names under a SAN |
| Hostnames.CheckMatchesHostname | pkg/plugin/certificate.go:121-131 | no expectation is a match; otherwise some expectation must be served |
| Hostnames.IntersectsExact | pkg/plugin/certificate.go:194-209 | a certificate name meets a wildcard expectation exactly when some concrete host is in both |
| Hostnames.CoversInLabels | pkg/plugin/certificate.go:214-221 | a certificate wildcard stands for exactly one non-empty label (section 6.4.3 of RFC 6125) |
| Hostnames.CoveredExact | pkg/plugin/certificate.go:149-158 | a host is covered by some DNS name, or by the common name if there is neither a DNS name nor an IP address |
| Hostnames.ServesExact | pkg/plugin/certificate.go:147-178 | a certificate serves an expectation exactly when some host is accepted by it and covered by the certificate |
| Hostnames.MatchesExact | pkg/plugin/certificate.go:121-131 | checked against listener and route, it decides whether any host is served by all three; only disjoint listener and routes pass without one. Of the x509 check only the names asked about matter |
| Sanitize.SanitizedExactly | pkg/plugin/sanitize.go:7-27 | no control character but tab and newline is left, and a string without any is unchanged |
| Sanitize.EscapeExact | pkg/plugin/sanitize.go:7-13 | the scan finds an escape sequence, of the three forms spelled out as strings, exactly where one begins, and its end |
| Sanitize.EscapesRemoved | pkg/plugin/sanitize.go:24 | an escape sequence after clean text is removed as a whole, and the text around it stays |
| Sanitize.CharacterByItself | pkg/plugin/sanitize.go:24-26 | where no escape sequence begins, a control character is dropped alone and any other character is kept |
| Sanitize.CleanPrefixKept | pkg/plugin/sanitize.go:23-27 | text without control characters stays in front of whatever becomes of the rest |
| Sanitize.SanitizedValueExactly | pkg/plugin/sanitize.go:32-49 | the same throughout nested maps and lists; keys and other values stay |
| Sanitize.SanitizedTwice | pkg/plugin/sanitize.go:32-49 | sanitizing again changes nothing |
| Sanitize.Resource.SanitizeObject | pkg/plugin/sanitize.go:57-63 | the entries of the object are rewritten in place, in any order, to their sanitized values |
| ObjectCache.KeyInjective | pkg/input/input.go:233 | separator-free queries share a cache key only when they are one query, up to [] and [""] |
| ObjectCache.SeparatorCollides | pkg/input/input.go:233 | an argument holding the separator shares its key with two arguments |
| ObjectCache.RunAsksOnce | pkg/input/input.go:232-243 | over any run the backend is asked at most once per query, and its first answer stays the answer |
| ObjectCache.OwnReply | pkg/input/input.go:232-243 | for separator-free queries that answer is the one to the query itself |
| ObjectCache.ResourceRepo.Objects | pkg/input/input.go:232-243 | one cached lookup: the request log grows only by a query not asked before, and the entry is the first reply, errors included |
| ObjectCache.ResourceRepo.ObjectsUncached | pkg/input/input.go:245-258 | one request: fresh objects with what the backend sent |
| ObjectCache.ResourceRepo.KubeGet | pkg/plugin/template_functions_dynamic.go:35-45 | every object returned is the first reply's, sanitized, whatever was done to the shared maps before |
| ObjectCache.ObjectsToRenderableObjects | pkg/plugin/template_functions_dynamic.go:47-53 | each object is sanitized in place and handed on in order |
| ObjectCache.ResourceRepo.Remember | pkg/input/input.go:237-242 | a query not asked before is sent, and its reply cached under its key |
| ObjectCache.ResourceRepo.FirstObject | pkg/input/input.go:410-419 | nothing on an error or an empty listing, else the first object: raw exactly as long as no KubeGet has returned its entry, sanitized from then on |
| NodeSelectors.RequirementMatches | pkg/plugin/node_selector.go:229-250 | each operator against present and absent labels, Gt and Lt on 64-bit integers |
| NodeSelectors.OperatorsExact | pkg/plugin/node_selector.go:234-249 | absent labels satisfy NotIn and DoesNotExist only; In and NotIn are complements; Gt and Lt compare the label with the one value as 64-bit integers, and are false otherwise |
| NodeSelectors.NodeSelectorTermsMatch | pkg/plugin/node_selector.go:274-288 | some well-shaped term matches, or there are no terms |
| NodeSelectors.PodHardConstraintRequirements | pkg/plugin/node_selector.go:300-323 | the sorted nodeSelector entries, then the expressions of an only term |
| NodeSelectors.HardConstraintsNecessary | pkg/plugin/node_selector.go:300-323 | every node a Pod fits on meets the flattened list; with one plain term the two are equivalent |
| NodeSelectors.StringSlicesIntersect | pkg/plugin/collections.go:55-62 | true exactly when the lists share an element |
| NodeSelectors.StringSliceSubset | pkg/plugin/collections.go:65-72 | true exactly when all elements are in the other list |
| Karpenter.NodePoolCanPossiblySatisfy | pkg/plugin/karpenter.go:15-47 | the search for the first requirement on the key and the operator cases |
| Karpenter.SatisfiesExact | pkg/plugin/karpenter.go:15-47 | yes exactly if the first of the pool's requirements on the key is compatible; so an undeclared key is refused |
| Karpenter.CompatibleExact | pkg/plugin/karpenter.go:35-46 | on In and NotIn pairs the answer is exactly satisfiability by some labels |
| Karpenter.RefusalExact | pkg/plugin/karpenter.go:15-47 | a no is right (no labels satisfy both) exactly when the pool declares the key or one side can never be met |
| Karpenter.UndeclaredRefused | pkg/plugin/karpenter.go:29-31 | a requirement answered no although labels satisfy it, as the pool lacks the key |
| Karpenter.UnsatisfiableKeys | pkg/plugin/karpenter.go:55-73 | the reported keys, sorted, as often as the Pod has requirements no pool qualifies for |
| Karpenter.RefusedExact | pkg/plugin/karpenter.go:55-73 | a key is reported exactly when some requirement on it qualifies for no pool |
| Karpenter.UnsatisfiableKeySound | pkg/plugin/karpenter.go:49-54 | if all pools declare a reported key, no node of any pool meets the Pod's nodeSelector and required affinity |
| Karpenter.DisqualifyingKey | pkg/plugin/karpenter.go:79-87 | the first of the Pod's keys the pool fails on, or "" when there is none |
| Quota.QuotaRolloutHeadroom | pkg/plugin/quota.go:153-208 | the report: pending Pods, and the unscoped quotas with their shortfalls in order |
| Quota.MultiplyQuantity | pkg/plugin/quota.go:284-290 | the loop of additions is multiplication for counts of at least one |
| Quota.PendingExact | pkg/plugin/quota.go:217-258 | the pending Pods by kind: desired and surge less the running ones, the surge a count or a percentage, 25 by default, rounded up, and none unless rolling |
| Quota.QuotaNames | pkg/plugin/quota.go:265-282 | `requests.` and plain names count requests, `limits.` names limits, and `pods` one for each Pod; missing and zero amounts none |
| Quota.QuotaReportTells | pkg/plugin/quota.go:178-206 | a quota's report names exactly the resources whose need exceeds what is free, with need, free, used and hard, in order of name |
| Quota.RoomExact | pkg/plugin/quota.go:190-197 | need <= max(0, hard - used) agrees with admitting the Pods one at a time, also when used > hard |
| Quota.QuotaReportExact | pkg/plugin/quota.go:178-206 | no shortfall is reported for a quota exactly when it admits the pending Pods one at a time |
| Quota.ReportsExact | pkg/plugin/quota.go:163-207 | nothing is reported exactly when every unscoped quota admits them |
| Rollback.StatefulSetRollbackTrapBlocker | pkg/plugin/template_functions_dynamic.go:891-929 | the unordered pass and the tests on the Pod it keeps |
| Rollback.PassIsLeast | pkg/plugin/template_functions_dynamic.go:891-912 | with ordinals from zero on, the pass keeps the last candidate of least ordinal |
| Rollback.LeastReported | pkg/plugin/template_functions_dynamic.go:891-929 | the candidate of least ordinal is reported exactly when that is not negative and it passes every test; for ranges from zero on nothing else is reported |
| Rollback.OnePassCountsUp | pkg/plugin/template_functions_dynamic.go:880-884 | the least candidate is the Pod an ascending count of ordinals stops at, and there is none when the count stops nowhere |
| Rollback.OrderIrrelevantIff | pkg/plugin/template_functions_dynamic.go:891-929 | the same is returned for every order of the list exactly when: without candidates of negative ordinal, those of least ordinal are one Pod or none of them passes the tests; with some, no other candidate passes the tests |
| Rollback.OrderIrrelevant | pkg/plugin/template_functions_dynamic.go:891-929 | so it is with distinct ordinals from zero on |
| Rollback.LeadingZero | pkg/plugin/template_functions_dynamic.go:932-941 | `web-01` and `web-1` have one ordinal |
| Rollback.OrderMatters | pkg/plugin/template_functions_dynamic.go:891-929 | two Pods of these names, of which the later one in the list is returned |
| Rollback.NegativeOrderMatters | pkg/plugin/template_functions_dynamic.go:891-929 | `web--1` and `web-0` with a start of -1: the one order returns a Pod, the other none |
| Rollback.NegativeForgets | pkg/plugin/template_functions_dynamic.go:893-915 | a candidate of negative ordinal makes the pass forget what came before it, as a negative ordinal stands for none |
| Rollback.NegativeNotReported | pkg/plugin/template_functions_dynamic.go:893-915 | in no list is such a candidate reported, nor any Pod before it |

## Left out

- CalicoParser.Parse: the `String` form, which trims the expression, and a nil `Selector` are not modelled.
- DriftJson.ValuesEqual: -0 and NaN are not modelled, and exponents are not bounded; `%v` of a float64 is any injective function.
- DriftReport.Diff: `sort.Slice` may leave entries with equal paths in any order; the model inserts them in one.
- DriftDocuments.Document.Store: the walk down the parts is a recursion over the parts; a stored empty map is a new one, not the caller's.
- DriftDocuments.BuildDocuments: YAML encoding and the text of the unified diff are not part of this model.
- FixtureSplice.SpliceRegexFixture: the regex engine itself is an oracle.
- Instrument.InstrumentationIsTransparent: that Go's parser reads the instrumented bytes as the instrumented tree is not proved, as the parser is not part of this model; escaping in `strconv.Quote` and the profile file are left out. A bound on nesting and includes cuts runs off, equally on both sides. Where several files define one name, the later definition stands for Go's choice.
- Instrument.TemplateCoverageRecorder.InstrumentTemplateSource: the points that `collectCoverPoints` takes from the parser's trees are a parameter, in any order; the mutex is left out.
- Overlay.SameRender: runs are cut off by a fuel bound, equal on both sides; the theorem holds for every bound. Runs pass the shared uid set along as a value; `UidSet` models its update in place.
- Overlay.SameNames: reading and parsing overlay files, and the second bare parse that finds their names, are the parameter `overlay`.
- Hostnames.ServesExact: for the one concrete name asked about under a SAN it assumes that the x509 library's check agrees with one-label wildcards; IP addresses as hosts are left out.
- Hostnames.MatchesExact: the same for the concrete names in the intersection.
- Sanitize.Resource.SanitizeObject: entries of the top map are rewritten in place; nested maps and lists are values inside it, so aliasing between nested values is not captured.
- ObjectCache.ResourceRepo.Objects: the stable sort by creation time is part of the backend's reply; the other caches of the repository work alike and are left out.
- ObjectCache.ResourceRepo.KubeGet: label selectors other than "" are allowed although KubeGet passes none.
- NodeSelectors.RequirementMatches: decoding of unstructured values (`toInterfaceMapSlice`, `toStringSlice`) is left out: requirements and terms arrive decoded.
- Karpenter.UnsatisfiableKeys: `sort.Strings` is an insertion sort with the same result.
- Quota.QuotaRolloutHeadroom: quantities are integers and their canonical text is left out; conversion from unstructured objects and per-Pod requests are inputs.
- Rollback.StatefulSetRollbackTrapBlocker: times are integers; `startOrdinal + replicas` is taken not to overflow.
- Eviction headroom, certificate field extraction, colours, durations and units: formatting or one-branch facts.
- Kubernetes clients, flags, the watch loop, owners, events and query construction: input and output.
