# Inline template extraction, modelled in Dafny

This project models the core of `ember-extract-inline-templates`. The tool finds the Handlebars templates embedded in a JavaScript or TypeScript file and rebuilds one `.hbs` document from them. In that document a template sits on the line where it appeared in the script, provided every earlier template's text holds as many newlines as the lines it spans and none starts above the previous one's end line (`Reconstructor.LinePreserved`). A string literal with an escaped newline breaks this: its decoded value holds more newlines than the lines it spans, so every later template moves down (`Reconstructor.ShiftedByEscapedNewline`).

The pipeline has four steps:

- **Tag resolution** (`tag_sources.dfy`, module `TagSources`). The top-level import declarations are read against a map from module source to export name(s). The caller's map is spread over the built-in one. The result is the list of local identifiers that act as template tags, or the source's `false` (here `None`) when there are none.
- **Collection** (`collector.dfy`, module `Collector`). The traversal visits tagged templates and calls. Each tagged template whose tag is a tag name gives one template node. Each string or template literal argument of a call to a tag name gives one node. A node is the template text, its start and end line and column, and its offset `start`.
- **Sorting** (`sorter.dfy`, module `Sorter`). A stable sort of the nodes by `start`.
- **Reconstruction** (`reconstructor.dfy`, module `Reconstructor`). The sorted nodes are folded into one string with a `lastParsedLine` cursor. Each node adds a run of newlines, an indentation, and its text with a final newline-plus-spaces trimmed.

`extract.dfy` (module `Extract`) holds the two public operations, `getTemplateNodes` and `searchAndExtractHbs`. `syntax.dfy` (module `Syntax`) holds the node shapes they read.

The parser and the tree walk belong to other libraries. A parsed file is a value `File(body, visits)`: `body` is the top-level statement list, and `visits` is the sequence of tagged-template and call expressions in the order the traversal visits them. The parse function is a parameter of type `Option<string -> Result<File>>`.

The two imperative parts of the source are methods with loop invariants. The visitor callbacks rebind the node list (`Collector.GetTemplateNodes`, `Collector.VisitCall`). The `reduce` updates the `lastParsedLine` closure variable (`Reconstructor.ReduceToHbs`). Each method is proved equal to a specification function, and the lemmas are stated about those functions: `Collector.GetTemplateNodes` to `Collector.TemplateNodes`, `Collector.VisitTaggedTemplate` and `Collector.VisitCall` to `Collector.VisitNodes` of their node, `Reconstructor.ReduceToHbs` to `Reconstructor.RenderFrom` from line 1, and `Reconstructor.ToHbsSource` to `Reconstructor.HbsSource`.

The model follows the code in three details that are easy to misread:

- Indentation is added only when the start column is above 1, not above 0 (src/index.ts:417).
- The trim removes spaces, not tabs, and only those that follow the last newline at the very end of the template (src/index.ts:420).
- The tag names form a list, which can hold duplicates, not a set.

## Model

| member | source | states |
|---|---|---|
| `TagSources.BuiltInTagSources` | src/index.ts:23-29 | The built-in map has exactly five sources. `ember-cli-htmlbars` and `@glimmerx/component` map to `hbs`. The two inline-precompile packages, and no other source, map to the default marker. `@glimmer/core` matches exactly `createTemplate` and `precompileTemplate`. |
| `TagSources.MergedTagSources` | src/index.ts:198-200 | Without caller sources the map is the built-in one. With them, every key of either map is present, a caller key keeps the caller's value, and every other built-in key keeps its built-in value. |
| `TagSources.FirstDefaultLocal` | src/index.ts:341-346 | None exactly when the declaration has no default specifier. Otherwise the local name of the first default specifier. |
| `TagSources.MatchingLocals` | src/index.ts:354-368 | A name is returned exactly when some named specifier has that local name and an imported name that equals the configured string or is in the configured list. There are never more names than specifiers. |
| `TagSources.MatchingLocalsSingle` | src/index.ts:355-366 | One named specifier gives its local name when the mapping asks for its imported name, and nothing otherwise. |
| `TagSources.MatchingLocalsAppend` | src/index.ts:355-366 | The names of two stretches of specifiers are the first stretch's names followed by the second's. With `MatchingLocalsSingle`, the result is the matching specifiers' local names in specifier order, duplicates kept, as `forEach` appends them. |
| `TagSources.DeclarationTags` | src/index.ts:334-372 | A source that is not a key gives `[]`. The "default" marker with a default specifier present gives exactly that specifier's local name. Otherwise the call fails exactly when some specifier is not named, and on success it is `MatchingLocals` of the specifiers: the locals of the named specifiers the mapping asks for, in specifier order. |
| `TagSources.ImportDeclarations` | src/index.ts:323-325 | Holds exactly the import declarations of the body, and is empty exactly when the body has none. |
| `TagSources.ImportDeclarationsOthers` | src/index.ts:322-325 | Statements that are not imports, placed after the imports, change neither the import declarations nor the tags. |
| `TagSources.ReduceTags` | src/index.ts:332-373 | No declarations leave the accumulator as it is. On success, the accumulator is a prefix of the result, because names are only appended. A failure is the missing-imported-name error. |
| `TagSources.HbsTags` | src/index.ts:322-376 | A body with no import declaration gives `None` (the source's `false`), not an error. A `Some` list is never empty. |
| `TagSources.ReduceTagsMembership` | src/index.ts:331-373 | The reduce fails exactly when some declaration fails. Otherwise its names are the accumulator's plus those some declaration contributes. |
| `TagSources.HbsTagsMembership` | src/index.ts:322-376 | Resolution fails exactly when some import declaration fails. Otherwise a name is a tag exactly when an import declaration whose source is a key contributes it (`Contributed`). |
| `TagSources.HbsTagsName` | src/index.ts:322-376 | The same membership for one name at a time, when resolution succeeds. |
| `TagSources.GlimmerCoreTags` | src/__tests__/with-glimmer-api/component.ts:2 | With the list mapping of `@glimmer/core`, `setComponentTemplate` is skipped, and the two template functions come back in the declaration's order. |
| `TagSources.NamedDefaultImportIsTag` | src/index.ts:340-361 | With the "default" marker and no default specifier, a named import whose imported name is literally `default` is a tag. |
| `TagSources.DefaultSpecifierUnderNamedMappingFails` | src/index.ts:354-361 | A default specifier in a declaration with a named mapping makes resolution fail, because its `imported` name is read. |
| `TagSources.DefaultImportAmongOthers` | src/__tests__/with-single-multiline-tagged-template/component.ts:2-4 | A default import from `@glimmer/component`, which is not a key, contributes nothing. A default `hbs` import from `ember-cli-htmlbars-inline-precompile` contributes `hbs`. The tags are exactly `["hbs"]`. |
| `Collector.VisitTaggedTemplate` | src/index.ts:248-263 | The tagged-template callback appends exactly the nodes the visited node yields to the list built so far. |
| `Collector.VisitCall` | src/index.ts:265-301 | The call callback, scanning the arguments one by one, appends exactly the nodes the call yields. |
| `Collector.GetTemplateNodes` | src/index.ts:243-311 | The traversal's result is the nodes of the visited nodes in visiting order, sorted by offset when asked. |
| `Collector.CollectedAppend` | src/index.ts:244-302 | Collection over two stretches of the walk gives the first stretch's nodes followed by the second's. |
| `Collector.ArgumentNodesAreLiterals` | src/index.ts:268-299 | A matching call yields exactly one node per string or template literal argument, in argument order. The k-th node is the node of the k-th literal argument. |
| `Collector.TaggedTemplateNodes` | src/index.ts:248-262 | A tagged template yields one node exactly when its tag is a plain identifier among the tags, and otherwise nothing. That node has the first chunk's raw text, start and end line and column, and offset. |
| `Collector.CallNodes` | src/index.ts:265-299 | A call whose callee is not a plain identifier among the tags yields nothing. Otherwise it yields one node per literal argument, in order. A string literal's node has its value and starts one column right of the literal. A template literal's node is its first chunk's. |
| `Collector.StringLiteralCallNode` | src/index.ts:275-285 | A tag called with one string literal yields exactly one node: the literal's value, starting one column right of the literal's opening quote. |
| `Sorter.SortByStartKey` | src/index.ts:384-404 | Fewer than two nodes are returned as they are. The result is sorted by offset and is a permutation of the input. |
| `Sorter.SortByStartKeyCorrect` | src/index.ts:384-404 | The result is sorted by offset and is a permutation of the input. It is stable: for every offset, it holds the input's nodes with that offset in their input order. |
| `Sorter.SortByStartKeyUnique` | src/index.ts:390-401 | Any list that is sorted by offset and keeps each offset's nodes in input order equals the sort's result. |
| `Sorter.SortSortedIsIdentity` | src/index.ts:384-404 | Sorting a list already sorted by offset returns the same list. |
| `Sorter.SortIdempotent` | src/index.ts:384-404 | Sorting twice gives the same result as sorting once. |
| `Reconstructor.VerticalGap` | src/index.ts:416 | The gap is exactly `startLine - lastParsedLine` newlines when that is positive, and empty otherwise. |
| `Reconstructor.Indentation` | src/index.ts:417 | The indentation is exactly `startColumn` spaces when the column is above 1 and the template does not start with a newline, and empty otherwise. |
| `Reconstructor.RightTrim` | src/index.ts:420 | The result is a prefix of the template, and what is cut off is spaces only. When anything is cut off, the result ends in the newline that preceded them. |
| `Reconstructor.RightTrimShape` | src/index.ts:420 | Any text, then a newline, then one or more spaces to the end is trimmed to the text and the newline. |
| `Reconstructor.RightTrimNewlines` | src/index.ts:420 | Trimming never removes a newline. |
| `Reconstructor.HbsSource` | src/index.ts:412-429 | No nodes give the empty document. |
| `Reconstructor.ToHbsSource` | src/index.ts:412-429 | The conversion returns the document of the nodes sorted by offset. |
| `Reconstructor.ReduceToHbs` | src/index.ts:413-426 | The reduce with the `lastParsedLine` cursor starting at 1 returns the document of the nodes in the given order. |
| `Reconstructor.RenderSnoc` | src/index.ts:415-425 | Each further node appends its gap, indentation and trimmed text, laid out from the cursor the earlier nodes left. Afterwards the cursor is that node's end line, not its start line. |
| `Reconstructor.RenderAppend` | src/index.ts:413-426 | The document of two stretches of nodes is the first stretch's document, then the second's laid out from the first stretch's last end line. |
| `Reconstructor.RenderNewlines` | src/index.ts:412-426 | A chained list's document has exactly as many newlines as there are lines from the cursor to the last end line. A list is chained when each node starts at or below the previous end line and each template spans as many lines as it has newlines. |
| `Reconstructor.RenderAt` | src/index.ts:412-426 | In the document, node i's trimmed text follows the text before it: the earlier nodes, node i's gap, and node i's indentation. |
| `Reconstructor.TextBeforeNewlines` | src/index.ts:412-426 | In a chained list, the text before node i's trimmed text has exactly `startLine - 1` newlines. |
| `Reconstructor.LinePreserved` | src/index.ts:412-426 | For nodes sorted by offset and chained from line 1, node i's text comes after exactly `startLine - 1` newlines of the document, so it begins on its original line. |
| `Reconstructor.ShiftedByEscapedNewline` | src/index.ts:412-426 | `hbs('a\nb')` on line 2 and `hbs('c')` on line 3 give the document `"\n     a\nb\n     c"`: the cursor moves to the first literal's end line, 2, while its value already added a newline, so `c` lands on line 4. |
| `Reconstructor.SingleNode` | src/index.ts:413-426 | One node at line L gives L - 1 newlines, the indentation when the column is above 1 and the text does not start with a newline, and the trimmed text. |
| `Extract.GetAst` | src/index.ts:226-232 | Without a parse function the parse step fails with the configuration error. |
| `Extract.GetTemplateNodes` | src/index.ts:197-216 | Without a parse function it fails with the configuration error, and a parser failure is passed on. A resolution failure is passed on, and no tags give no nodes. Otherwise the result is the collected nodes (`Collector.TemplateNodes`, sorted when asked), a permutation of the nodes in visiting order. When sorting is asked for, the nodes are sorted by offset. |
| `Extract.SearchAndExtractHbs` | src/index.ts:97-107 | It fails exactly when listing the nodes fails. No parse function gives the configuration error, and no nodes give the empty document. When listing succeeds, the document is `Reconstructor.HbsSource` of the listed nodes, which `LinePreserved` and `SingleNode` characterise. |
| `Extract.ParseFailurePropagates` | src/index.ts:203-205 | A parser failure reaches the caller of both operations unchanged. |
| `Extract.NoTagsNoTemplates` | src/index.ts:206-211 | A script with no top-level import declarations, or whose declarations contribute no tag, gives no nodes and the empty document, not an error. |
| `Extract.DocumentIgnoresSortFlag` | src/index.ts:98-104 | The document is the same whether or not sorted nodes are asked for. |
| `Extract.StringLiteralCallLayout` | src/index.ts:275-285 | A tag called with one string literal at line L and column C ≥ 1 whose value does not start with a newline gives L - 1 newlines, C + 1 spaces and the trimmed literal. |
| `Extract.MultilineTaggedTemplateLayout` | src/__tests__/with-single-multiline-tagged-template/component.ts:6-11 | A tagged template whose text starts with a newline gets no indentation: L - 1 newlines and the trimmed text. |
| `Extract.BuiltInTagSurvivesMerge` | src/__tests__/with-additional-hbs-tag-sources/custom-hbs-tag-sources-component-test.js:4-6 | Caller sources that do not name `ember-cli-htmlbars` leave `import { hbs as h }` from it a tag, `h`. |
| `Extract.MultilineFixtureNodes` | src/__tests__/with-single-multiline-tagged-template/component.ts:2-23 | With the built-in sources, the fixture's script (its seven top-level statements, two of them imports) lists exactly one node, the tagged template's first chunk. The call through `Ember._setComponentTemplate` adds none. |
| `Extract.MultilineFixtureDocument` | src/__tests__/searchAndExtractHbs.test.ts:31-36 | The fixture's document, with the template starting on line 6 with a newline, is five newlines and then the trimmed template. |

## Left out

- The parser (`options.parse`: babylon, ember-meta-explorer). It is a parameter returning a `File` or an error, and its syntax errors are passed through unchanged.
- The parser's node shapes are reduced to the fields the code reads.
- A string literal's `value` is taken as the parser gives it, with escapes already decoded.
- `typeof options.parse !== 'function'` is modelled as `None`. A value that is neither absent nor a function cannot be told apart from an absent one.
- babel-traverse's walk. The visiting order is an input sequence (`File.visits`). The model does not say which nodes a real walk visits or in what order, so ordering results are stated only after the sorter.
- The `...innerNode` and `...argument` spreads (src/index.ts:260, 284, 294). A node keeps only `template`, the four position fields and `start`. The parser's other fields are not modelled.
- Reading `specifier.imported.name` on a default or namespace specifier throws in the source. This is modelled as the error `MissingImportedName`, which aborts the whole resolution.
- The regular expression of the trim is written as an explicit string function (`RightTrim`).
- JavaScript strings are sequences of `char`. There is no UTF-16 or normalisation detail.
- JavaScript numbers are unbounded integers. Line, column and offset are naturals, as the parser produces them.
- A `start` field missing from a node is not modelled: every node has an offset.
- The `babylonPlugins` option appears only in a doc comment and is never read.
- File reading, newline cleaning and the test runner in the tests are not part of this model.
