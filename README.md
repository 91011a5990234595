# Virtual item catalogue: a Dafny model

This project models the core of a web application that keeps a catalogue of *virtual items*
(digital collectibles). Each item is a record of 44 string properties, such as platform, title,
category, rarity and artist, together with an id. The model covers these parts:

- **The in-memory store** (`VirtualItemStore`). It is a list of items plus a counter that numbers
  them. It supports create, a filtered listing, lookup, update, delete, the sorted distinct values
  of a property, import from CSV row objects and export to CSV row objects. It is a Dafny
  `class` whose methods update its fields in place.
- **The Prisma-backed store** (`VirtualItemStorePrisma`). It offers the same operations, plus
  pagination and statistics, over a database table. The table is modelled as a sequence of rows
  in creation order. Each database call is a function over that sequence.
- **The browser-side CSV codec.** `parseCSVRow` is a quote-aware scan of one line. `convertToCSV`
  writes row objects as text. `parseCSV` finds the header line and turns the data lines into row
  objects.
- **The `/api/virtual-items` endpoint.** `GET` lists with filters from the query string. `POST`
  validates the body and creates an item.

An item's properties are a `map<Field, string>`. `Field` is an enumeration of the 44 properties,
in declaration order. Each field has two names:

- `Name`: the property name in the code (`platformUrl`).
- `Label`: the CSV column name (`Platform URL`).

A property the in-memory store was never given is a missing key of the map. CSV row objects are
JavaScript objects, modelled as ordered key/value lists (`JsObject.Obj`).

The modules follow the program:

| module | file | models |
|---|---|---|
| `JsText` | js_text.dfy | `trim`, `toLowerCase`, `includes`, `split`, `join`, quote replacement, `Number.toString` |
| `JsObject` | js_object.dfy | property read, assignment and `Object.keys` on string-valued objects |
| `StringOrder` | string_order.dfy | the default `sort()` order and `[...new Set(values)].sort()` |
| `VirtualItems` | virtual_items.dfy | the record, its property names and CSV column labels, the row mapping of import and export |
| `ItemFilters` | item_filters.dfy | the filters and the filter chain of `getAll`, and `getUniqueValues` |
| `DataStore` | data_store.dfy | the in-memory store |
| `CsvCodec` | csv_codec.dfy | `parseCSVRow`, `convertToCSV`, `parseCSV` |
| `PrismaStore` | prisma_store.dfy | the Prisma-backed store |
| `ItemsRoute` | items_route.dfy | `GET` and `POST` of `/api/virtual-items` |

## Model

| member | source | states |
|---|---|---|
| VirtualItems.FieldOrderIsPermutation | src/types/virtual-item.ts:51-96 | the 44 fields in declaration order hold every field exactly once |
| VirtualItems.NameInverse | src/types/virtual-item.ts:51-96 | a property name identifies its field |
| VirtualItems.NameInjective | src/types/virtual-item.ts:51-96 | two fields never share a property name |
| VirtualItems.LabelInverse | src/lib/data-store.ts:196-241 | a CSV column label identifies its field |
| VirtualItems.LabelInjective | src/lib/data-store.ts:196-241 | two fields never share a column label |
| VirtualItems.LabelTableInjective | src/lib/data-store.ts:139-241 | the label and name tables that import and export share both have distinct entries |
| VirtualItems.ExportRowGet | src/lib/data-store.ts:196-241 | an export row holds each present property under its field's label and nothing under the label of a missing one |
| VirtualItems.ExportRowKeys | src/lib/data-store.ts:196-241 | the keys of an export row are the 44 labels in declaration order |
| VirtualItems.ExportImportRow | src/lib/data-store.ts:139-241 | reading an export row back with the import mapping gives every field's value, or `''` for a missing one; on a complete item, exactly its fields |
| JsText.TrimSpec | src/lib/data-store.ts:127-128 | `trim` gives a trimmed string, no longer than its input, and changes nothing that is already trimmed |
| JsText.TrimEmpty | src/lib/data-store.ts:127 | `s.trim() === ''` exactly when every character of `s` is whitespace |
| JsText.Lower | src/lib/data-store.ts:29 | `toLowerCase` keeps the length and lowers each character |
| JsText.ContainsIff | src/lib/data-store.ts:29 | `includes` holds exactly when the text occurs at some position |
| JsText.SplitJoin | src/components/ImportExportButtons.tsx:114-118 | joining separator-free pieces and splitting the result gives the pieces back |
| JsText.JoinSplit | src/components/ImportExportButtons.tsx:114-118 | splitting a string and joining the pieces gives the string back |
| JsText.RemoveQuotes | src/components/ImportExportButtons.tsx:129 | removing quotes leaves no quote, and leaves a quote-free string unchanged |
| JsText.NatToStringInjective | src/lib/data-store.ts:11 | different counter values give different id strings |
| JsObject.GetFirst | src/components/ImportExportButtons.tsx:104 | reading a key gives `undefined` exactly when no entry has it, and otherwise the value of its entry |
| JsObject.GetPut | src/components/ImportExportButtons.tsx:156 | after `o[k] = v`, `o[k]` is `v` and every other key reads as before |
| JsObject.PutKeys | src/components/ImportExportButtons.tsx:156 | assignment keeps the keys in order and appends a new key at the end (for keys that do not look like array indices, see Left out) |
| JsObject.GetOrEmpty | src/lib/data-store.ts:140 | reading a key with `''` as fallback gives the value when present and `''` otherwise |
| StringOrder.BelowIrreflexive | src/lib/data-store.ts:130 | the default sort order is irreflexive |
| StringOrder.BelowTransitive | src/lib/data-store.ts:130 | the default sort order is transitive |
| StringOrder.BelowTotal | src/lib/data-store.ts:130 | any two different strings are ordered one way or the other |
| StringOrder.Insert | src/lib/data-store.ts:130 | inserting into a strictly ascending list keeps it strictly ascending and adds exactly that value |
| StringOrder.SortedSet | src/lib/data-store.ts:130 | `[...new Set(xs)].sort()` is strictly ascending and holds exactly the values of `xs` |
| StringOrder.AscendingUnique | src/lib/data-store.ts:130 | two strictly ascending lists with the same values are equal, so the sorted distinct values are unique |
| ItemFilters.Select | src/lib/data-store.ts:23-87 | the listing as a specification: an item is listed exactly when it is stored and matches every active filter |
| ItemFilters.SearchTest | src/lib/data-store.ts:75-83 | the search callback is true when one of title, description, intellectual property and artist contains the lowered term; it is false when none does; it throws only on a missing property |
| ItemFilters.TestHolds | src/lib/data-store.ts:27-83 | a filter callback that returns gives its test's truth, and on an item with all properties it never throws |
| ItemFilters.FilterPassKeeps | src/lib/data-store.ts:28-30 | a `filter` pass that succeeds keeps exactly the items passing the test, in order; on complete items it always succeeds |
| ItemFilters.RunPassesRestricts | src/lib/data-store.ts:24-86 | the chain of passes that succeeds keeps the items passing every test, in order; on complete items it always succeeds |
| ItemFilters.FieldPassesHold | src/lib/data-store.ts:27-73 | the field passes hold exactly when every truthy query is a case-insensitive substring of its property |
| ItemFilters.PassesMatch | src/lib/data-store.ts:26-84 | all of `getAll`'s tests hold exactly when the item matches the filters |
| ItemFilters.RestrictSelect | src/lib/data-store.ts:24-86 | running the tests of the filters in turn keeps exactly the specified selection |
| ItemFilters.ListingSelects | src/lib/data-store.ts:23-87 | `getAll` that returns gives the matching items in stored order, and when every item has all properties it always returns |
| ItemFilters.Listing | src/lib/data-store.ts:23-87 | `getAll` as the source computes it, pass by pass; `ItemFilters.ListingSelects` proves that when it returns it equals the reference selection `Select` |
| ItemFilters.ListingUnfiltered | src/lib/data-store.ts:23-87 | without active filters `getAll` returns a copy of every item |
| ItemFilters.ListingThrows | src/lib/data-store.ts:27-31 | a platform filter over an item without a platform makes `getAll` throw |
| ItemFilters.FilterPassThrows | src/lib/data-store.ts:28-30 | one throwing callback makes the whole pass throw |
| ItemFilters.TrimmedValues | src/lib/data-store.ts:125-128 | the trimmed non-blank values are exactly those of the items holding the property |
| ItemFilters.UniqueValues | src/lib/data-store.ts:124-131 | `getUniqueValues` is strictly ascending and holds exactly the trimmed non-blank values of the property |
| DataStore.Store.UniqueValuesOf | src/lib/data-store.ts:124-131 | `getUniqueValues` on the stored items; `ItemFilters.UniqueValues` proves the result strictly ascending with exactly the trimmed non-blank values of the property |
| DataStore.IndexOf | src/lib/data-store.ts:96 | `findIndex` is -1 exactly when no item has the id, and otherwise the first position with it |
| DataStore.Find | src/lib/data-store.ts:91 | `find` is `undefined` exactly when no item has the id, and otherwise a stored item with that id |
| DataStore.ImportableRows | src/lib/data-store.ts:138 | the rows an import takes are exactly the rows with a truthy Platform and Title |
| DataStore.Store.IdsDistinct | src/lib/data-store.ts:11-18 | no two items share an id as long as every id came from the counter, that is, no create or update input carried an `id` of its own |
| DataStore.Store.constructor | src/lib/data-store.ts:5-6 | a new store is empty, its counter at 1, and valid, with every id from the counter |
| DataStore.Store.Create | src/lib/data-store.ts:9-20 | the input's fields are stored under the counter's numeral, or under the input's own `id` when it has one, because the spread comes after the counter's id; the counter advances either way; without an `id` of its own the new id is fresh and every id stays a counter numeral |
| DataStore.FilterItems | src/lib/data-store.ts:28-30 | the loop of one `filter` pass computes the pass, including its throw |
| DataStore.Store.RunAll | src/lib/data-store.ts:24-86 | the chain of `filter` passes computes the chain, stopping at the first throw |
| DataStore.Store.GetAll | src/lib/data-store.ts:23-87 | `getAll` computes the listing of the stored items (see `ItemFilters.ListingSelects`) |
| DataStore.Store.FindIndex | src/lib/data-store.ts:96 | the linear search returns `IndexOf` |
| DataStore.Store.GetById | src/lib/data-store.ts:90-92 | `getById` returns the stored item with that id, or nothing |
| DataStore.Store.Update | src/lib/data-store.ts:95-109 | an unknown id gives `null` and changes nothing; otherwise that item alone is replaced by its properties overridden by the patch; it keeps its id unless the patch has an `id` of its own, which replaces it; the store stays valid |
| DataStore.Store.Delete | src/lib/data-store.ts:112-121 | `true` exactly when the id is stored; then that one item is removed and the others keep their order; the store stays valid, and ids that all came from the counter still do |
| DataStore.Store.ImportRow | src/lib/data-store.ts:137-188 | one loop iteration creates an item from the row's labelled columns exactly when the row has a truthy Platform and Title |
| DataStore.Store.ImportFromCsv | src/lib/data-store.ts:134-192 | the import appends and returns the items of the importable rows, numbered from the counter |
| DataStore.ImportedRows | src/lib/data-store.ts:134-192 | the imported items are the importable rows, in order, read through the column mapping and numbered consecutively |
| DataStore.ImportedItems | src/lib/data-store.ts:138-184 | an import creates one item per importable row, each with all properties and a non-empty platform and title |
| DataStore.ExportedRowImportable | src/lib/data-store.ts:138-241 | an exported row is importable exactly when its item has a non-empty platform and title |
| DataStore.ExportImportStore | src/lib/data-store.ts:134-242 | importing the export of complete items with a platform and a title recreates every item's properties, in order, under consecutive new ids |
| DataStore.Store.ExportToCsv | src/lib/data-store.ts:195-242 | `exportToCSV`: one labelled row per stored item, in stored order; `DataStore.ExportImportStore` proves that importing it recreates every item's properties |
| CsvCodec.ParseCsvRow | src/components/ImportExportButtons.tsx:167-196 | the scan returns the quote-aware cells of the line, exactly one more than the commas outside quotes, each trimmed |
| CsvCodec.CellsCount | src/components/ImportExportButtons.tsx:172-193 | the scan emits one cell more than there are commas outside quotes, counting with every quote switching in or out of quotes |
| CsvCodec.ParseRowExample | src/components/ImportExportButtons.tsx:167-196 | `A,"B,C",D` scans as `A`, `B,C`, `D`: the quoted comma stays in its cell |
| CsvCodec.CellsTrimmed | src/components/ImportExportButtons.tsx:185-193 | every cell the scan emits is trimmed |
| CsvCodec.ParseRowPlain | src/components/ImportExportButtons.tsx:167-196 | a line without quotes scans as its comma-separated pieces, trimmed |
| CsvCodec.EscapeCases | src/components/ImportExportButtons.tsx:106-109 | a value is quoted, with its quotes doubled, exactly when it holds a comma or a quote |
| CsvCodec.CellRoundTrip | src/components/ImportExportButtons.tsx:103-111 | values written as the cells of a line are scanned back as the values, trimmed |
| CsvCodec.RowLineRoundTrip | src/components/ImportExportButtons.tsx:102-111 | each written data line scans back to the object's values under the headers, trimmed, with `''` for a missing key |
| CsvCodec.ConvertToCsv | src/components/ImportExportButtons.tsx:96-115 | the text is empty for no data; otherwise it is the header line, which is the first object's keys joined by commas as they are, then one line per object, all joined by newlines |
| CsvCodec.CsvTextLines | src/components/ImportExportButtons.tsx:96-115 | when no key or value holds a line break, the text splits back into the bare header line and one line per object, holding that object's escaped values under the header's keys |
| CsvCodec.FirstHeader | src/components/ImportExportButtons.tsx:125-132 | the header line is the first line that, trimmed, is non-empty and mentions both Platform and Title |
| CsvCodec.FindHeaderRow | src/components/ImportExportButtons.tsx:122-132 | the search returns -1 exactly when there is no header line; otherwise it returns the line's index and its names, which come from splitting the trimmed line on every comma, trimming each piece and removing its quotes |
| CsvCodec.BuildRow | src/components/ImportExportButtons.tsx:153-157 | the loop builds the row object of the header names and cells |
| CsvCodec.ReadDataLine | src/components/ImportExportButtons.tsx:140-160 | blank lines, comma-only lines and lines without a Platform and Title cell give nothing; any other line gives its row object |
| CsvCodec.ReadDataLines | src/components/ImportExportButtons.tsx:139-161 | the data loop gives the row objects of the lines after the header, in order |
| CsvCodec.ParseCsv | src/components/ImportExportButtons.tsx:117-164 | `parseCSV` throws "Could not find valid header row in CSV" with no header line, and otherwise returns the row objects of the data lines |
| CsvCodec.RowObjectHas | src/components/ImportExportButtons.tsx:155-157 | a row object has exactly the header names as keys |
| CsvCodec.RowObjectGet | src/components/ImportExportButtons.tsx:155-157 | a header name reads the cell of the last column carrying it, or `''` past the end of the line |
| CsvCodec.RecordsFrom | src/components/ImportExportButtons.tsx:139-161 | every returned object comes from a kept data line and is keyed by the header names |
| CsvCodec.ParsedShape | src/components/ImportExportButtons.tsx:117-164 | `parseCSV` throws exactly when no line is a header line; every returned object has the header names as keys, from cells with a non-empty Platform and Title |
| CsvCodec.Parsed | src/components/ImportExportButtons.tsx:117-164 | what `parseCSV` returns, header names split as written; `CsvCodec.ParsedShape` proves it throws exactly without a header line and otherwise gives objects keyed by the header names |
| CsvCodec.HeaderCellsCommaFree | src/components/ImportExportButtons.tsx:129 | header names as written are read without any comma |
| CsvCodec.ParsedLacksCommaKeys | src/components/ImportExportButtons.tsx:127-129 | no object returned by `parseCSV` has a key holding a comma |
| CsvCodec.BonusMediaUrlNeverRead | src/components/ImportExportButtons.tsx:127-129 | after `parseCSV`, the import reads `''` for the bonus media URL of every row, whatever the file holds |
| VirtualItems.LabelCommaFree | src/lib/data-store.ts:196-241 | no export column label holds a comma, except the bonus media URL's |
| VirtualItems.BonusLabelPieces | src/lib/data-store.ts:238 | the bonus media URL's label is two comma-free pieces around one comma |
| CsvCodec.SplitHeaderPieces | src/components/ImportExportButtons.tsx:100-129 | splitting on every comma a header written bare, with one name holding one comma, gives that name as two pieces and the others as they are |
| CsvCodec.ExportHeaderNames | src/components/ImportExportButtons.tsx:99-129 | the export's 44 column names are read back as 45 header names; the last four are `Bonus Media URL (e.g.`, `YouTube link)`, Copyright and Comments |
| CsvCodec.ExportColumnsShift | src/components/ImportExportButtons.tsx:127-157 | under the export's header, a row of 44 cells gives Copyright the last cell and gives Comments `''` |
| CsvCodec.ExportCommentsShift | src/components/ImportExportButtons.tsx:96-157 | the line written for a complete item, read back under the export's header, gives the import the item's comments as its Copyright and `''` as its Comments |
| CsvCodec.CsvTextQuotedLines | src/components/ImportExportButtons.tsx:96-115 | the corrected text, with its header names escaped, splits back into its lines just as the text written today does |
| CsvCodec.QuotedHeaderRoundTrip | src/components/ImportExportButtons.tsx:99-100 | header names written escaped are read back by the quote-aware scan, commas and quotes included |
| CsvCodec.QuotedExportHeader | src/components/ImportExportButtons.tsx:99-100 | with escaped header names, the names read back are exactly the 44 export labels in order, the bonus media URL label included, so no column shifts |
| CsvCodec.LabelTrimmed | src/lib/data-store.ts:195-242 | no export label has whitespace at either end, so `trim()` keeps every name read back |
| PrismaStore.CreateData | src/lib/data-store-prisma.ts:10-53 | the row exists exactly when platform, category, type and title are given; it then has every column, each the input's value or `''` |
| PrismaStore.CreateDataComplete | src/lib/data-store-prisma.ts:10-53 | an input with every property is stored as it is |
| PrismaStore.Create | src/lib/data-store-prisma.ts:7-58 | `create` succeeds exactly when the required properties are given |
| PrismaStore.CreateFind | src/lib/data-store-prisma.ts:7-58 | a create appends the new row, which is complete, keeps the table valid, and is found by its id; every other id finds what it found before |
| PrismaStore.FindUnique | src/lib/data-store-prisma.ts:163-169 | with unique ids, `findUnique` returns the one row with that id |
| PrismaStore.FieldConditionsMembers | src/lib/data-store-prisma.ts:64-97 | the `where` object has one field condition per truthy field query, carrying that query |
| PrismaStore.FieldConditionsHold | src/lib/data-store-prisma.ts:64-97 | the field conditions hold exactly when each truthy query is a case-insensitive substring of its column |
| PrismaStore.WhereMatches | src/lib/data-store-prisma.ts:61-97 | a row satisfies the `where` object exactly when it matches the filters as the in-memory store reads them |
| PrismaStore.MatchingSelects | src/lib/data-store-prisma.ts:99-102 | `findMany` keeps the rows the in-memory filters select, in creation order |
| PrismaStore.FindAllReversesListing | src/lib/data-store-prisma.ts:99-102 | on the same valid table, `getAll` lists the in-memory listing newest first |
| PrismaStore.FindAll | src/lib/data-store-prisma.ts:61-105 | `getAll`: the rows `findMany` selects with the `where` object, newest first; `PrismaStore.FindAllReversesListing` proves it is the in-memory listing reversed |
| PrismaStore.Window | src/lib/data-store-prisma.ts:146-152 | `skip`/`take` give at most `take` rows, the ones from position `skip` on, and exactly `take` when there are enough |
| PrismaStore.WindowsTile | src/lib/data-store-prisma.ts:146-152 | two adjacent windows make up the window covering both |
| PrismaStore.WindowsCover | src/lib/data-store-prisma.ts:146-152 | consecutive pages of one size spell out the listing from its start |
| PrismaStore.Paginate | src/lib/data-store-prisma.ts:108-160 | the total counts every matching row, whatever the page |
| PrismaStore.PaginateWindow | src/lib/data-store-prisma.ts:108-160 | a page is the window of the newest-first listing at `skip` of at most `limit` rows, 0 and 10 by default, and the total is the listing's length |
| PrismaStore.Update | src/lib/data-store-prisma.ts:172-184 | `null` exactly on a failure or an unknown id, with the table unchanged |
| PrismaStore.UpdateFind | src/lib/data-store-prisma.ts:172-184 | a successful update changes that row alone, keeps its id, overrides its columns by the data, keeps the table valid, and `findUnique` returns it |
| PrismaStore.Delete | src/lib/data-store-prisma.ts:187-197 | `true` exactly when no failure occurs and the id is stored; otherwise the table is unchanged |
| PrismaStore.DeleteFind | src/lib/data-store-prisma.ts:187-197 | a successful delete removes exactly that row; every other id finds what it found before; the table stays valid |
| PrismaStore.GetUniqueValues | src/lib/data-store-prisma.ts:200-215 | the loop and sort give the same sorted distinct trimmed values as the in-memory store |
| PrismaStore.ImportsIds | src/lib/data-store-prisma.ts:230-278 | every created row carries one of the generated ids |
| PrismaStore.ImportFromCsv | src/lib/data-store-prisma.ts:218-286 | the import appends and returns, in order, one row per row with non-blank Platform and Title, holding its labelled columns |
| PrismaStore.ImportsFields | src/lib/data-store-prisma.ts:230-278 | the created rows hold the labelled columns of the accepted rows, in order |
| PrismaStore.ImportsNonBlank | src/lib/data-store-prisma.ts:225-227 | every created row is complete, with a Platform and a Title that are not blank |
| PrismaStore.AcceptableImportable | src/lib/data-store-prisma.ts:225-227 | this store's import test implies the in-memory one, and a blank title shows that the converse fails |
| PrismaStore.ImportsAll | src/lib/data-store-prisma.ts:230-278 | when every row is acceptable, the row at each position is created with that position's id and columns |
| PrismaStore.ExportImport | src/lib/data-store-prisma.ts:289-340 | importing the export of rows with non-blank Platform and Title recreates every row's columns, newest first |
| PrismaStore.ExportToCsv | src/lib/data-store-prisma.ts:289-340 | `exportToCSV`: one labelled row per table row, newest first, as many rows as the table; `PrismaStore.ExportImport` proves that importing it recreates every row's columns |
| PrismaStore.RarityLabels | src/lib/data-store-prisma.ts:373 | the rarity groups keep their counts and order, with `'Unknown'` for the empty rarity |
| PrismaStore.RarityLabelsTotal | src/lib/data-store-prisma.ts:373 | relabelling the rarities keeps the total count |
| PrismaStore.GroupingTotal | src/lib/data-store-prisma.ts:351-367 | the counts of a correct `groupBy` answer add up to the number of rows |
| PrismaStore.StatsTotals | src/lib/data-store-prisma.ts:343-375 | each statistics list counts every row once, its counts adding up to `totalItems`, and the rarity list stays ordered by count, descending |
| PrismaStore.GetStats | src/lib/data-store-prisma.ts:343-375 | `getStats` from the row count and the three `groupBy` answers; `PrismaStore.StatsTotals` proves each list sums to `totalItems` and the rarity list stays count-descending |
| ItemsRoute.FiltersOfSpec | src/app/api/virtual-items/route.ts:13-21 | a field query is set exactly when its parameter is truthy and holds its first value; the search text likewise |
| ItemsRoute.HandleGet | src/app/api/virtual-items/route.ts:6-37 | `GET` answers with the store's listing under the parameters' filters |
| ItemsRoute.GetLists | src/app/api/virtual-items/route.ts:23-36 | `GET` answers 200 with the matching items and their count, or 500 "Failed to fetch virtual items"; with complete items, always 200 |
| ItemsRoute.GetResponse | src/app/api/virtual-items/route.ts:23-36 | the `GET` answer for a listing; `ItemsRoute.GetLists` proves it is 200 with the selected items and their count, or 500 with the fixed message |
| ItemsRoute.LoneFilterPasses | src/app/api/virtual-items/route.ts:13-23 | with only one filter parameter, `GET` runs exactly that field's pass |
| ItemsRoute.LoneFilterOnMissingField | src/app/api/virtual-items/route.ts:23-36 | a `GET` filtering only on a property some stored item lacks answers 500 |
| ItemsRoute.MissingSpec | src/app/api/virtual-items/route.ts:45-46 | a required name is reported exactly when the body's property is falsy |
| ItemsRoute.HandlePost | src/app/api/virtual-items/route.ts:40-71 | a non-JSON body gives 500 and a body missing required properties gives 400 naming them, both with the store unchanged; otherwise 201 with the created item, appended under the next id, or under the body's own `id` when it has one |
| ItemsRoute.PostChecks | src/app/api/virtual-items/route.ts:45-58 | a body that passes the check creates an item with a non-empty platform, title, category and type |
| ItemsRoute.BodyFieldPresent | src/app/api/virtual-items/route.ts:46-58 | a truthy body property reaches the store as a non-empty field |

## Left out

- Timestamps (`createdAt`, `updatedAt`) are left out. The Prisma table's creation order stands for `orderBy: { createdAt: 'desc' }`, so rows are assumed to be created at distinct times.
- Prisma's generated ids (cuid) are parameters. Import ids are assumed distinct and unused (`PrismaStore.FreshIds`).
- Database failures other than an unknown id are a `fails` parameter of `PrismaStore.Update` and `PrismaStore.Delete`. A failing `create` inside the Prisma import, which would abort the whole import, is not modelled.
- The error objects, console logging and `success` flags are left out. Only the answers' status, payload and fixed messages are kept.
- `request.json()` is not modelled. A body that is not JSON is `None`, and every JSON value is a string-valued object. Non-string values in bodies and CSV rows are not modelled.
- A property set to `undefined` is the same as a missing key. So an export row of an item without a property has no such key, where JavaScript keeps the key with an `undefined` value.
- `toLowerCase` folds ASCII letters only. Prisma's `mode: 'insensitive'` is modelled as the same ASCII folding.
- The default `sort()` compares UTF-16 code units; the model compares characters. The two orders agree on characters of the Basic Multilingual Plane.
- Line breaks inside CSV values are not modelled. `CsvCodec.CsvTextLines` requires single-line keys and values, because the source splits lines on every newline.
- Reading files, `Blob` downloads and the React component state around the codec are left out.
- The `groupBy` and `count` answers of `getStats` are parameters. `PrismaStore.StatsTotals` states what holds when they are correct groupings.
- `getUniqueValues` only models keys that are item properties; the `id` key is not modelled. `PrismaStore.GetUniqueValues` takes the table rows for `findMany` with `distinct`, which gives the same sorted set.
- `skip` and `limit` are natural numbers. Negative values, which Prisma refuses, are not modelled.
- The in-memory store stores a `POST` body without filling in defaults. `ItemsRoute.LoneFilterOnMissingField` states the consequence rather than a defaulted model.
- ItemsRoute.MissingSpec: states which names are reported, but not the order of the report. `Missing` keeps the order of the required names by construction.
- DataStore.Store.IdsDistinct: holds only while every id came from the counter. A `POST` body or an update patch with its own `id` property sets that id. So ids can repeat: two `POST`s whose bodies both hold `"id": "1"` store two items with id `1`. The model then promises nothing about distinct ids.
- ItemsRoute.HandlePost, DataStore.Store.Create and DataStore.Store.Update: body and patch properties that name no field, other than `id`, are dropped. The source stores them on the item as they are. An `id` that is not a string is not modelled either.
- JsObject.PutKeys: JavaScript lists keys that look like array indices, such as `"0"` or `"12"`, first and in ascending numeric order, whatever the order of assignment. The model keeps every key in assignment order, so the key order of a CSV header naming a column `0` differs from the source's. No export label is such a key.
- JsObject.Get: reads the first entry with the key. `JSON.parse` keeps the last of repeated keys, so a request body with a repeated key is read differently. The objects the code builds itself never repeat a key.
- JsText.NatToString: writes every counter value in full decimal. JavaScript's `toString` switches to exponent notation from 10^21, and `nextId++` stops counting exactly beyond 2^53. So the source's ids would repeat after 2^53 creations, and the model's do not.
- The singleton instances (`virtualItemStore`, `virtualItemStorePrisma`) and the Next.js request plumbing are not modelled. A `Store` object stands for the singleton.

## Findings

| source | as written | input that shows it | evidently intended | confidence | as-written member | corrected member |
|---|---|---|---|---|---|---|
| src/components/ImportExportButtons.tsx:127-129 | `convertToCSV` writes the header names unquoted (line 100). `parseCSV` splits the header line on every comma, ignoring quotes. | A file exported with the column "Bonus Media URL (e.g., YouTube link)". Its comma splits the name into two header names, so the 44 columns get 45 names. No row object has the bonus media URL key, so the import stores `''` for every bonus media URL. The names after the split shift by one: Copyright reads the Comments cell, and Comments reads `''` (`CsvCodec.ExportCommentsShift`). | Header names are escaped like values when written, and read with the quote-aware `parseCSVRow`. Then every column name is read back, the bonus media URL's included. | not executed | CsvCodec.BonusMediaUrlNeverRead | CsvCodec.QuotedExportHeader |

The model follows the code as written. `CsvCodec.ConvertToCsv` writes the header names bare.
`CsvCodec.ParseCsv` splits the header line on every comma. The evidently intended behaviour is
kept beside it: `CsvCodec.CsvTextQuoted` writes the names escaped, and `CsvCodec.ParsedQuoted`
reads them with the quote-aware scan.
