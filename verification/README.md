# Master-test CSV pipeline of labwiseBE, in Dafny

This project models the master-test catalog pipeline of labwiseBE
(`utils/processMasterTestCsv.js`). The pipeline has three stages:

- **Import.** Each row of a spreadsheet upload goes through the same steps:
  - its headers are renamed through `CSV_COLUMN_MAPPING`, and unknown headers are slugged;
  - its cells are trimmed;
  - it becomes one catalog document (`mapToTest`).
- **Reconcile and write** (`createMasterTests`). Tests without a component id
  get a fresh one. Tests without a test id are grouped by normalised name.
  Each group reuses the test id the catalog holds for that name, or gets one
  fresh id. Every test is then upserted by its `id`. This stage reads the
  camelCase fields `componentId` and `testId`, which the documents of the
  import stage and of the database schema do not have (see "Left out"). The
  model follows the code: its entries carry exactly the fields the stage reads.
- **Export** (`convertToCsv`). Tests are written back as spreadsheet text
  under the 34-label `CSV_HEADER`, quoting only values that contain a comma
  or a double quote.

Modules, in dependency order:

| module | file | what it holds |
|---|---|---|
| `Options` | options.dfy | `Option`, standing for `undefined` and `NaN` |
| `Seqs` | seqs.dfy | distinctness, subsequences, `IndexOf` |
| `JsText` | jstext.dfy | `trim`, `toLowerCase`, the `\s+` replacement and the blank test `!s.trim()` |
| `JsNumbers` | jsnumbers.dfy | `parseInt` without a radix, and `String(n)` |
| `FreshIds` | freshids.dfy | `uuidv4()` as a counter-driven supply of distinct ids |
| `Columns` | columns.dfy | `CSV_COLUMN_MAPPING`, `mapHeaders`, the row trim, field reads |
| `Ranges` | ranges.dfy | `UserType`, `addRangeIfNotEmpty`, `createReferenceRanges` |
| `Normalize` | normalize.dfy | `parseTablesMap`, `mapToTest`, `processMasterTestCsv` after tokenising |
| `Reconcile` | reconcile.dfy | `createMasterTests`, with the catalog as a map from `id` to document |
| `CsvFormat` | csvformat.dfy | `CSV_HEADER`, quoting, joining, and a line reader that undoes the quoting |
| `Export` | export.dfy | `convertToCsv` and what can be read back from its output |

Several things outside the code are parameters of the model:

- **`JSON.parse`** is the parameter `parse`. It either throws (`Malformed`)
  or returns an array or an object.
- **`uuidv4()`** is a counter `n`: the n-th call answers `FreshId(n)`. The
  pipeline relies on two properties of the ids, and `FreshId` has both:
  distinct calls give distinct ids, and no id is blank. That a minted id
  also differs from every id already in use is the hypothesis
  `FreshIds.FreshFrom`.
- **The database.** The documents `Test.find` returns become the list of
  `(name, testId)` pairs `catalog`, holding whatever `test.testId` reads on
  them ("" where it is `undefined`). `Test.bulkWrite` is a map update on
  `Store`.

The reader `CsvFormat.ParseLine` reads one line of comma-separated fields,
where a quoted field stands for its text with `""` read as one quote. It is
not in the source. The model adds it so that the export can be stated as a round trip.

## Model

| member | source | states |
|---|---|---|
| Ranges.EveryCategoryChecked | utils/processMasterTestCsv.js:7-18 | every one of the ten `UserType` categories is among those `createReferenceRanges` checks |
| Ranges.CheckOrderDistinct | utils/processMasterTestCsv.js:149-158 | no category is checked twice |
| Ranges.AddRangeIfNotEmpty | utils/processMasterTestCsv.js:131-139 | the ranges so far are kept as a prefix, and the list grows by one range, holding the limits as written and the category, exactly when one of the two limits is not blank |
| Ranges.PushesAreSelected | utils/processMasterTestCsv.js:146-161 | the ten successive pushes build exactly the ranges of the included categories, in check order |
| Ranges.CreateReferenceRangesContents | utils/processMasterTestCsv.js:146-161 | each range holds the row's limits for its category; a category has a range iff one of its limits is not blank; categories follow check order, none twice, at most ten |
| Ranges.SelectedContents | utils/processMasterTestCsv.js:146-161 | for any list of categories, the kept ranges are the included ones, in list order |
| Ranges.RangesNeverBothBlank | utils/processMasterTestCsv.js:132 | no stored range has two blank limits |
| Ranges.SingleCategoryRow | utils/processMasterTestCsv.js:146-161 | a row with limits for one category only yields exactly that one range |
| Ranges.RangesDependOnLimitsOnly | utils/processMasterTestCsv.js:149-158 | the ranges depend on the twenty limit cells and on no other cell |
| Ranges.RangesAgree | utils/processMasterTestCsv.js:146-161 | two rows with the same included categories and the same ranges for them give the same range list |
| Ranges.LimitKeysDistinct | utils/processMasterTestCsv.js:27-46 | the twenty limit field names are pairwise different, so no two categories share a cell |
| JsText.BlankIffTrimEmpty | utils/processMasterTestCsv.js:132 | `!s.trim()` holds iff trimming leaves the empty string |
| JsText.TrimInfix | utils/processMasterTestCsv.js:115 | trimming keeps one contiguous piece of the text and cuts away only white space on either side |
| JsText.TrimIdempotent | utils/processMasterTestCsv.js:115 | trimming twice is trimming once |
| JsText.ToLowerIdempotent | utils/processMasterTestCsv.js:254 | lower-casing is idempotent; each position holds white space after lower-casing iff it did before, so a text is all white space iff its lower-cased form is |
| JsText.CollapseRun | utils/processMasterTestCsv.js:110 | a run of white space becomes one `_` |
| JsText.CollapseAppend | utils/processMasterTestCsv.js:110 | the `\s+` replacement works piece by piece on texts that do not meet inside a white-space run |
| Columns.MapHeader | utils/processMasterTestCsv.js:110 | a known header is renamed through the table; any other header becomes a name without white space, no longer than the header |
| Columns.SlugOneWord | utils/processMasterTestCsv.js:110 | an unknown header without white space is just lower-cased |
| Columns.SlugTwoWords | utils/processMasterTestCsv.js:110 | an unknown header of two words becomes the two words lower-cased and joined by `_` |
| Columns.CleanRow | utils/processMasterTestCsv.js:114-116 | trimming a row keeps its keys and never lengthens a cell |
| Columns.CleanRowKeepsContent | utils/processMasterTestCsv.js:114-116 | every cell becomes the trimmed text of the same cell; a cell is blank after the trim iff it was blank before; a second trim changes nothing |
| JsNumbers.ParseIntLeadingNumber | utils/processMasterTestCsv.js:198 | `parseInt` reads the leading decimal integer of a text, negative ones included ("-3 mg" is -3), and ignores what follows it |
| JsNumbers.ParseIntPlusSign | utils/processMasterTestCsv.js:198 | a leading `+` is skipped: "+7" is 7 |
| JsNumbers.NaNIffNoLeadingDigit | utils/processMasterTestCsv.js:198 | `parseInt` gives `NaN` iff no decimal digit follows the leading white space and optional sign, or a `0x` prefix has no hexadecimal digit after it |
| JsNumbers.NoDigitsIsNaN | utils/processMasterTestCsv.js:198 | a text without any decimal digit is `NaN` to `parseInt`, letters of any kind included |
| JsNumbers.ParseIntRoundTrip | utils/processMasterTestCsv.js:198 | the decimal text of any integer parses back to that integer |
| Normalize.ParseTablesMap | utils/processMasterTestCsv.js:168-175 | an empty text, a text not starting with `{` or `[`, and a text `JSON.parse` rejects all give `[]`; a bracketed text `JSON.parse` accepts gives the parsed value |
| Normalize.Interpretation | utils/processMasterTestCsv.js:201-207 | exactly one of the structured and the free-text interpretation is set; the structured one is set iff the cell parses to something with entries, and the free text is the cell itself |
| Normalize.MapToTest | utils/processMasterTestCsv.js:182-221 | the document gets the id it was given; its name, type, test id, component id, group and component name are the row's cells of those names ("" when absent), and so are the nested object's units, specimen, intro, collection time, temperature, methodology, formula and derivation type; the ordering is the cell read by `parseInt`, or 0 where that is `NaN`; the top-level fields repeat the nested ones; the ranges are those of the row; the interpretation rule above holds |
| Normalize.OrderingReadsLeadingNumber | utils/processMasterTestCsv.js:198 | an ordering cell starting with an integer, of either sign, stores that integer |
| Normalize.OrderingDefaultsToZero | utils/processMasterTestCsv.js:198 | an absent ordering, or one where no digit follows the white space and the optional sign, stores 0 |
| Normalize.FreeTextInterpretation | utils/processMasterTestCsv.js:171 | a cell not starting with `{` or `[` is kept as free text |
| Normalize.ArrayInterpretation | utils/processMasterTestCsv.js:202-204 | a cell that parses to a non-empty array is stored as the structured interpretation, with no free text |
| Normalize.FallbackInterpretation | utils/processMasterTestCsv.js:170-174 | malformed JSON, an empty array and a plain object all fall back to free text |
| Normalize.ProcessRows | utils/processMasterTestCsv.js:228-235 | one document per row, in row order, each built from the trimmed row and its own fresh id |
| Normalize.BatchIdsDistinct | utils/processMasterTestCsv.js:211 | the documents of one upload have pairwise different ids |
| Normalize.BatchIdsNew | utils/processMasterTestCsv.js:211 | with a supply that avoids the stored ids, no document of the upload takes a stored id |
| FreshIds.FreshIdNotBlank | utils/processMasterTestCsv.js:246 | a fresh id is never blank |
| FreshIds.FreshIdInjective | utils/processMasterTestCsv.js:246 | different calls give different ids |
| FreshIds.FreshFromExists | utils/processMasterTestCsv.js:246 | for any finite set of ids in use, some counter value starts a supply that avoids them all |
| FreshIds.MintAt | utils/processMasterTestCsv.js:266-268 | a slot that has a value keeps it; an empty slot gets the id of the next call, counting the empty slots before it |
| FreshIds.MintDistinct | utils/processMasterTestCsv.js:266-268 | two empty slots get different ids |
| FreshIds.MintRange | utils/processMasterTestCsv.js:266-268 | the calls made for the empty slots stay inside the block of calls reserved for them |
| Reconcile.AssignComponentIds | utils/processMasterTestCsv.js:244-248 | filling component ids keeps each test's id, name and test id |
| Reconcile.ComponentIdsAssigned | utils/processMasterTestCsv.js:244-248 | a non-blank component id is kept; a blank one becomes the id of the next `uuidv4()` call in list order |
| Reconcile.FirstOccurrences | utils/processMasterTestCsv.js:251-258 | the keys are distinct, every name that occurs is among them, and every key occurs |
| Reconcile.GroupKeys | utils/processMasterTestCsv.js:252-258 | the group keys are exactly the normalised names of the tests with a blank test id, none repeated |
| Reconcile.CatalogLookupContents | utils/processMasterTestCsv.js:262-263 | the name-to-id map misses iff no catalog name lower-cases to the key; a hit is the test id of the last such document |
| Reconcile.UpsertKeys | utils/processMasterTestCsv.js:272-280 | after the upsert the store holds exactly the old ids plus the ids of the list |
| Reconcile.UpsertUntouched | utils/processMasterTestCsv.js:272-280 | a document whose id is not in the list is unchanged |
| Reconcile.UpsertLastWritten | utils/processMasterTestCsv.js:272-280 | the last test of the list with a given id is what the store holds for it |
| Reconcile.UpsertLastWins | utils/processMasterTestCsv.js:272-280 | untouched documents stay, each written id holds the last test with that id, and upserting the same list again changes nothing |
| Reconcile.CreateMasterTests | utils/processMasterTestCsv.js:242-282 | the returned list has the input's tests in order with their ids and names, and the store is the old store upserted with that list |
| Reconcile.ComponentIdsFilled | utils/processMasterTestCsv.js:244-248 | afterwards every test has a non-blank component id, and non-blank ones are unchanged |
| Reconcile.ComponentIdsFresh | utils/processMasterTestCsv.js:244-248 | two tests that both lacked a component id get different ones |
| Reconcile.TestIdsKept | utils/processMasterTestCsv.js:252-253 | a test that had a non-blank test id keeps it |
| Reconcile.SameNameSameTestId | utils/processMasterTestCsv.js:250-269 | two tests without a test id whose names agree after trim and lower-casing get the same test id |
| Reconcile.CatalogHitReused | utils/processMasterTestCsv.js:260-268 | a test without a test id whose name the catalog knows, with a non-empty id, gets the catalog's id |
| Reconcile.GroupedTestIdSource | utils/processMasterTestCsv.js:260-268 | a test without a test id takes the catalog's non-empty id for its name when there is one, and otherwise a fresh id drawn after every component id |
| Reconcile.MintedTestId | utils/processMasterTestCsv.js:267 | when the catalog has nothing reusable, the group's test id is a fresh id drawn after all component ids |
| Reconcile.CatalogWithoutIdsMints | utils/processMasterTestCsv.js:263-267 | when no catalog document yields a test id, every test without one gets a freshly minted id |
| Reconcile.FreshTestIdNotBlank | utils/processMasterTestCsv.js:267 | a freshly minted test id is not blank |
| Reconcile.FreshTestIdPerGroup | utils/processMasterTestCsv.js:266-268 | two groups with different names that both mint get different test ids |
| Reconcile.MintedComponentId | utils/processMasterTestCsv.js:245-246 | a missing component id is the fresh id of its position among the missing ones |
| Reconcile.FreshIdsDisjoint | utils/processMasterTestCsv.js:244-268 | a minted test id never equals a minted component id |
| Reconcile.AssignTestIds | utils/processMasterTestCsv.js:265-269 | only test ids change, and only for tests without one; such a test takes the id at its name key's position, and tests with the same name key share it |
| Reconcile.MintedComponentIdUnused | utils/processMasterTestCsv.js:244-248 | with a supply that avoids every id in use, a minted component id is none of them |
| Reconcile.MintedTestIdUnused | utils/processMasterTestCsv.js:267 | with a supply that avoids every id in use, a minted test id is none of them |
| Reconcile.ComponentIdUnique | utils/processMasterTestCsv.js:244-248 | with such a supply, a test that lacked a component id ends up with one no other test has |
| Reconcile.MintedTestIdOwnedByGroup | utils/processMasterTestCsv.js:250-268 | with such a supply, a minted test id is held by a test iff that test lacked a test id and its name has the same normalised key |
| Reconcile.StoreAfterCreate | utils/processMasterTestCsv.js:271-281 | after the write the store holds the old ids plus the list's ids; other documents are unchanged; with distinct ids each test is stored as returned |
| CsvFormat.QuotedRoundTrip | utils/processMasterTestCsv.js:376 | reading a field whose quotes were doubled gives back the value and the rest of the line |
| CsvFormat.UnquotedRoundTrip | utils/processMasterTestCsv.js:377 | a value without a comma reads back as itself up to the next comma |
| CsvFormat.FieldRoundTrip | utils/processMasterTestCsv.js:375-377 | every escaped value reads back as itself, quoted or not |
| CsvFormat.EscapeRoundTrip | utils/processMasterTestCsv.js:375-377 | a value is quoted iff it contains a comma or a double quote; an unquoted value is written as is; the written text reads back as the one value |
| CsvFormat.ParseLineRoundTrip | utils/processMasterTestCsv.js:371-379 | escaped values joined by commas read back as the same list of values |
| CsvFormat.HeaderLabelsPlain | utils/processMasterTestCsv.js:61-96 | no header label has a comma, a quote or a line feed |
| CsvFormat.HeaderLineRoundTrip | utils/processMasterTestCsv.js:61-96 | there are 34 labels, and the header line reads back as exactly those labels, in order |
| CsvFormat.HeaderSingleLine | utils/processMasterTestCsv.js:367 | the header line has no line feed |
| CsvFormat.SplitJoin | utils/processMasterTestCsv.js:382 | lines joined by line feeds split back into the same lines when none holds a line feed |
| CsvFormat.EscapeKeepsLineFeeds | utils/processMasterTestCsv.js:375-377 | escaping never introduces a line feed |
| Export.HeaderLabelsMapped | utils/processMasterTestCsv.js:371-372 | every header label is a key of the column table, so every column has a field |
| Export.CellIsEscaped | utils/processMasterTestCsv.js:373-377 | each cell is the escaped text of its value; a number is never quoted |
| Export.DataLineRoundTrip | utils/processMasterTestCsv.js:370-379 | every data line has 34 fields, one per header label, and reads back as the record's texts |
| Export.DataLineSingleLine | utils/processMasterTestCsv.js:370-379 | a record without line feeds gives a data line without line feeds |
| Export.ConvertToCsvLines | utils/processMasterTestCsv.js:364-382 | the output splits into the header line, then one data line per test, in order |
| Export.ConvertToCsvReadBack | utils/processMasterTestCsv.js:289-383 | the output reads back as the header labels, then each test's 34 texts |
| Export.ApplyRangesAt | utils/processMasterTestCsv.js:313-358 | a category's two limit fields hold the limits of its last range; a category without a range leaves them untouched |
| Export.LastRangeOf | utils/processMasterTestCsv.js:314-357 | the range that decides a category's columns belongs to that category, and no later one does |
| Export.PlacedOnly | utils/processMasterTestCsv.js:314-357 | the only range of a category is written to that category's two fields |
| Export.BaseRecordHasNoLimits | utils/processMasterTestCsv.js:293-310 | before ranges are placed, the record has no limit field |
| Export.RangesPlaced | utils/processMasterTestCsv.js:313-358 | after placing the ranges of a row, an included category's fields hold the row's limits and an excluded one's stay absent |
| Export.ExportedLimits | utils/processMasterTestCsv.js:291-358 | a test imported from a row exports that row's limits for every included category and empty cells for the others |
| Export.ExportedRangesReread | utils/processMasterTestCsv.js:146-161 | the exported record, read as a row, gives back the test's reference ranges |
| Export.HeaderOmitsGroupAndDerivation | utils/processMasterTestCsv.js:61-96 | no header label maps to `testGroup` or `derivationType` |
| Export.GroupAndDerivationNotExported | utils/processMasterTestCsv.js:306-307 | changing a test's group or derivation type leaves its data line unchanged |
| Export.OrderingExported | utils/processMasterTestCsv.js:308 | the last column is `Ordering`; an ordering of 0 is written as an empty cell; the written cell parses back to the ordering |

## Left out

- The CSV tokeniser (`csv-parser`, lines 103-122) is not modelled. Rows start as maps from mapped header to cell text. `Columns.MapHeader` models the header renaming it is given.
- The `typeof v === 'string'` test of the trim step is not modelled. The tokeniser only yields strings, so every cell is trimmed.
- Reading an absent cell of a row, or an absent field of a test in `createMasterTests` and `convertToCsv`, gives `''`. The reads modelled this way are the ones guarded by `|| ''`, `?.`, `!` or `parseInt`, each of which treats `undefined` like `''`. Three reads are not guarded. They are listed next.
- `test.name.trim()` (line 254) throws a `TypeError` when a test without a test id has no `name`. `Reconcile.Entry` always has a name, so this error path is not modelled.
- `test.name.toLowerCase()` (line 263) throws for a stored document whose `name` is `null`, the schema's default (models/Test.js:17-20). The catalog is modelled as `(name, testId)` string pairs, so this error path is not modelled.
- `convertToCsv` reads `test.masterTest` (line 292) and then `masterTest.resultType` (line 296). Documents built by `mapToTest` or read from the database carry `master_test` instead, so the export as written throws a `TypeError` on them. `Export.ExportTest` always carries a `masterTest`. The model therefore states what the export writes for input that has the camelCase fields, and does not model the throw.
- `JSON.parse` is a parameter, and only two facts about its result are modelled: whether it threw, and whether the result has entries. Of an object, only whether it has a positive `length` member is kept, because `tables.length > 0` reads nothing else.
- `uuidv4()`'s 36-character random text is not modelled. Ids are a fixed prefix plus n tally marks. This keeps two properties the code relies on: ids from different calls are distinct, and no id is blank. A real `uuidv4()` is also practically never equal to an id already in use. A counter cannot promise that by itself, so the lemmas that compare minted ids with existing ones take it as the hypothesis `FreshIds.FreshFrom(n, used)`. In `createMasterTests` the set `used` is `Reconcile.Used`: the ids, test ids and component ids of the list and of every stored document, and the catalog's ids. And `FreshIds.FreshFromExists` shows a counter meeting it exists for any finite set of used ids.
- Reconcile.ComponentIdsFresh: separates two minted component ids only. That a minted component id differs from every other component id, existing ones included, is `Reconcile.ComponentIdUnique`, under `FreshIds.FreshFrom`.
- Reconcile.FreshTestIdPerGroup: separates two minted test ids only. That a minted test id is held by exactly the entries of its group, and so differs from every kept or reused test id, is `Reconcile.MintedTestIdOwnedByGroup`, under `FreshIds.FreshFrom`. Two groups that both reuse catalog ids can still share one, when the catalog holds the same id under two names.
- The Mongo query `Test.find` with case-insensitive regular expressions is not modelled. Its result is the parameter `catalog`. Only exact lower-cased names are looked up in it afterwards, but a regular expression built from a name with special characters could miss or throw, and this is not modelled.
- `Test.bulkWrite` is modelled as a map update keyed by `id`. Partial `$set` semantics, write errors and atomicity are not modelled.
- The `async`/`await` wrapping and the re-thrown error message of `processMasterTestCsv` are not modelled.
- `toLowerCase` is modelled on ASCII letters only. Other letters are left as they are.
- Header names that collide with `Object.prototype` members (`CSV_COLUMN_MAPPING[header]` on such a name) are not modelled.
- `parseInt`'s floating-point result is modelled as an unbounded integer. Precision loss above 2^53 is not modelled.
- `convertToCsv` reads camelCase fields (`test.masterTest`, `test.componentName`, and so on), while `mapToTest` writes snake_case ones (`master_test`, `component_name`). The export is therefore modelled on its own input type, `Export.ExportTest`, and is related to an imported row through the reference ranges it carries.
- Re-importing an export is stated per record (`Export.ExportedRangesReread`, `Export.ConvertToCsvReadBack`). The full text is not re-read through the tokeniser, which is not modelled.
- `convertToCsv` quotes only values containing `,` or `"`. A value holding a line feed is written unquoted and splits its row, so the read-back lemmas require single-line values.
- Controllers, routes and models that call these functions are not part of this model.
- Columns.CleanRow: its own contract states keys and cell lengths only. That each cell is `Trim` of the original cell is stated by `Columns.CleanRowKeepsContent`, and that `Trim` cuts away only white space by `JsText.TrimInfix`.
- `createMasterTests` reads `test.componentId` and `test.testId` (lines 245 and 253), but `mapToTest` writes these fields as `component_id` and `test_id` (lines 215-216). Given the import's documents as written, every test would therefore count as lacking both ids. The model does not connect the two stages. `Reconcile.Entry` holds the camelCase fields the stage reads.
- The catalog pairs take `test.testId` of each stored document (line 263), but the schema names that field `test_id` (models/Test.js:25). As written, every lookup therefore yields `undefined` and every group mints a fresh id; `Reconcile.CatalogWithoutIdsMints` states that case. The model keeps the catalog a parameter, so the reuse the code intends is stated too (`Reconcile.CatalogHitReused`).
