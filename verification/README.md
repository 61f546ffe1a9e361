# Pocket reading list: CSV converter and catalog page, in Dafny

This project models the two scripts of a small reading-list site:

- `csv.js` turns text pasted from a Pocket CSV export into the `data.json`
  array. It trims the text and splits it into non-blank lines. Each line is
  split on commas, and lines with fewer than five fields are skipped. The
  first five fields map onto the keys `title, url, time_added, tags, status`.
  The title loses its surrounding quotes, runs of `;` in the tags become one
  `;`, and the Unix timestamp becomes a local `YYYY-MM-DD` date. The result
  is printed as `"[\n"`, the `JSON.stringify(item, null, 2)` texts joined by
  `",\n"`, then `"\n]"`, or as one of two fixed messages.
- `script.js` shows the loaded catalog as a table. It collects the distinct
  tags of all items into a sorted menu with a count badge. It keeps a status
  filter and a tag filter, and at most one of them is on at a time. It
  renders the items that pass both filters, in catalog order.

Modules, one per file:

- `Seqs` (`seqs.dfy`): `Array.prototype.filter` and `map`, flattening,
  subsequences, duplicate-freedom.
- `JsStrings` (`js_strings.dfy`): `trim` with the ECMAScript white-space set,
  `split` on one character, `join`, `parseInt(_, 10)`, integer-to-string and
  `padStart(2, '0')`.
- `JsSort` (`js_sort.dfy`): `Array.prototype.sort()` without a comparator,
  which orders strings by UTF-16 code units.
- `Json` (`json.dfy`): `JSON.stringify(o, null, 2)` for flat objects with
  string values, plus a reader for that layout. The reader shows that the
  output determines the objects it was made from.
- `Csv` (`csv.dfy`): `HEADERS`, `formatTimestamp` and `processCsvToJson`.
  `processCsvToJson` is a method: the line loop pushes objects, and an inner
  loop fills each object key by key. Both loops are proved against the
  functions `Records` and `ItemOf`.
- `Catalog` (`catalog.dfy`): the page as the class `CatalogPage`. It has the
  three globals `allData`, `currentStatus` and `currentTag`, plus fields for
  what the table body, the tag menu and the badge display. The tag
  collection, the filter and the row layout are stated as functions, with
  lemmas about them.

Two behaviours of the page are easy to misread, and the model states them
as the code has them:

- The tag filter matches the trimmed, non-empty `;`-separated tokens of an
  item's tags, not the raw pieces of `split(";")`.
- The tag menu is sorted by UTF-16 code units, as `sort()` without a
  comparator does. This is not a locale-aware alphabetical order.

## Model

| member | source | states |
|---|---|---|
| Csv.FormatTimestamp | csv.js:27-43 | the result is "" exactly when parseInt finds no number or finds 0 |
| Csv.DateText | csv.js:37-42 | a date never prints as "", so a non-zero timestamp never formats to "" |
| Csv.DateTextLayout | csv.js:37-42 | a valid date prints as the year, '-', the month as exactly two digits denoting it, '-', the day as exactly two digits denoting it |
| Csv.DateTextYear | csv.js:37-42 | parseInt of the printed date gives the year back: the year's digits end at the first dash |
| Csv.CollapseSemicolons | csv.js:87 | the cleaned tags never hold ";;", keep the first character, are no longer than the input and keep every other character in order |
| Csv.CollapseKeepsClean | csv.js:87 | tags without ";;" are left unchanged |
| Csv.CollapseIdempotent | csv.js:87 | cleaning twice is cleaning once |
| Csv.CollapsePieces | csv.js:87 | the ';'-pieces of the cleaned tags are the original pieces without the empty ones between two ';' |
| Csv.CollapseByPieces | csv.js:87 | reference definition: the cleaned tags are those squeezed pieces joined with ';' |
| Csv.CollapseExample | csv.js:87 | "a;;b;;;c" is cleaned to "a;b;c" |
| Csv.StripQuotes | csv.js:90 | the title keeps a contiguous part of the field: one leading '"' is dropped exactly when present, and one trailing '"' is dropped exactly when one is left after that |
| Csv.ConvertField | csv.js:77-93 | time_added is "" exactly when parseInt finds no number or 0; tags never hold ";;" and keep every other character; the title has no white space at either end; url and status are kept as they are |
| Csv.FieldAt | csv.js:75 | a field that exists is trimmed; a missing one reads as "" |
| Csv.ItemOf | csv.js:71-94 | every object has exactly the five keys, in header order |
| Csv.ItemValue | csv.js:74-94 | title is the trimmed, quote-stripped, trimmed field 1; url and status are fields 2 and 5 trimmed; time_added is the formatted field 3; tags is the cleaned field 4 |
| Csv.BuildItem | csv.js:71-94 | the key-by-key loop builds exactly ItemOf of the line's fields |
| Csv.Lines | csv.js:56 | no kept line is blank |
| Csv.RecordsOfRecordLines | csv.js:60-97 | there is one object per line with at least five fields, the k-th object coming from the k-th such line |
| Csv.RecordLinesInOrder | csv.js:63-69 | the lines used keep their input order, all have at least five fields, and no line with at least five fields is skipped |
| Csv.RecordsAppend | csv.js:60-97 | each line is converted on its own: the objects of two blocks of lines are the objects of each block, concatenated |
| Csv.ExtraFieldsIgnored | csv.js:63-75 | fields after the fifth do not change the object |
| Csv.Records | csv.js:58-97 | at most one object per line, each with the five keys; RecordsOfRecordLines says which lines give one |
| Csv.CollectRecords | csv.js:58-97 | the forEach over the lines pushes exactly Records(lines) |
| Csv.ArrayText | csv.js:106-119 | the array text starts with '[' |
| Csv.NoLinesWhenBlank | csv.js:49-56 | an all-whitespace input has no lines |
| Csv.OutputKinds | csv.js:100-128 | neither message reads as a JSON array; the two messages differ; the array text reads back as exactly its objects |
| Csv.ProcessCsvToJson | csv.js:48-129 | the empty-input message exactly for whitespace-only input; the no-data message exactly when the input has text but yields no object (no line has five fields); otherwise the array text, which reads back as the objects of the record lines, in order |
| JsStrings.Trim | csv.js:49 | trim removes only what it must: nothing is longer, the ends are not white space, and the result is empty exactly for all-whitespace text |
| JsStrings.TrimStartFacts | csv.js:49 | the leading part removed is all white space and what remains does not start with white space |
| JsStrings.TrimEndFacts | csv.js:49 | the trailing part removed is all white space and what remains does not end with white space |
| JsStrings.TrimIsInfix | csv.js:49 | the trimmed text is a contiguous part of the input with only white space around it |
| JsStrings.TrimIdempotent | csv.js:90 | trimming the already trimmed title again changes nothing |
| JsStrings.Split | csv.js:56 | split always yields at least one piece |
| JsStrings.SplitPieces | csv.js:63 | no piece holds the separator |
| JsStrings.Join | csv.js:113 | the first part is a prefix of the joined text, and the text is at least as long as the parts plus one separator between each two |
| JsStrings.JoinSplit | csv.js:63 | joining the pieces with the separator gives the text back |
| JsStrings.SplitCount | csv.js:63-65 | the number of fields is one more than the number of commas |
| JsStrings.SplitConcat | csv.js:63 | splitting two texts joined by a separator splits each |
| JsStrings.SplitJoin | csv.js:63 | splitting pieces joined by the separator gives the pieces back |
| JsStrings.ParseInt | csv.js:28 | the result is NaN exactly when no digit follows the leading white space and optional sign; a negative result comes from a leading '-' |
| JsStrings.IntToString | csv.js:39-40 | String(n) is never empty and starts with '-' exactly for negative n; ParseIntToString reads it back |
| JsStrings.NatToString | csv.js:39-40 | String(n) is a non-empty run of digits without a leading zero |
| JsStrings.NatToStringValue | csv.js:39-40 | the digits of String(n) denote n |
| JsStrings.ParseIntToString | csv.js:28 | parseInt reads back String(n), whatever non-digit follows |
| JsStrings.PadStart2 | csv.js:39-40 | padding keeps the text as its suffix, adds only '0's and reaches length 2 |
| JsStrings.PadStart2Digits | csv.js:39-40 | a month or day pads to exactly two digits denoting it |
| Json.Escape | csv.js:108 | the body of a string literal is never shorter than the string and is empty only for "" |
| Json.Stringify | csv.js:108 | an object text is enclosed in braces and is "{}" exactly for an object without properties |
| Json.EscapeChar | csv.js:108 | an escaped character is a backslash escape or the character itself, and then never a quote or a control character |
| Json.ReadCharOf | csv.js:108 | every escape reads back as its character |
| Json.ReadStringEscape | csv.js:108 | a quoted string body reads back as the string |
| Json.ReadMemberOf | csv.js:108 | a property line reads back as its key and value |
| Json.ReadObjectOf | csv.js:108 | JSON.stringify(o, null, 2) reads back as o |
| Json.ReadArrayOf | csv.js:106-119 | the assembled array text reads back as the list of objects |
| JsSort.BelowTotal | script.js:87 | the code-unit order compares any two strings |
| JsSort.BelowAntisymmetric | script.js:87 | two strings that are each no later than the other are equal |
| JsSort.BelowTransitive | script.js:87 | the code-unit order is transitive |
| JsSort.Sort | script.js:87 | sort returns a sorted permutation of the tags |
| JsSort.SortedUnique | script.js:87 | there is only one sorted permutation, so the choice of sorting algorithm does not matter |
| Seqs.Filter | script.js:165-177 | filter keeps only passing elements and keeps every passing element |
| Seqs.FilterIsSubsequence | script.js:165-177 | filter keeps the relative order |
| Seqs.FilterCounts | script.js:165-177 | filter keeps every occurrence of a passing element and none of any other |
| Seqs.Map | script.js:67 | map keeps the length and applies the function at every index |
| Seqs.FlatMapIff | script.js:66-69 | a value occurs among all items' tags exactly when it is a tag of some item |
| Seqs.DistinctCardinality | script.js:71 | a duplicate-free list has as many elements as the set of its elements |
| Catalog.TagTokens | script.js:67 | the tags of an item are split(';') → map(trim) → filter(truthy) of its tags text, none of them empty |
| Catalog.Tokens | script.js:67 | no tag token is empty |
| Catalog.TokensPipeline | script.js:67 | the recursive token definition is split → map(trim) → filter(truthy) |
| Catalog.TokensIff | script.js:67 | t is a token exactly when it is non-empty and some piece trims to it |
| Catalog.TagTokensIff | script.js:67 | t is a tag of an item exactly when it is non-empty and some ';'-piece of its tags trims to it |
| Catalog.TagTokensClean | script.js:67 | every tag is non-empty, holds no ';' and has no white space at either end |
| Catalog.TokensConcat | script.js:67 | the tokens of two runs of pieces are the tokens of each, concatenated |
| Catalog.TokensSkipEmpty | script.js:67 | empty pieces contribute no tokens |
| Catalog.TokensSqueeze | script.js:67 | dropping the empty pieces between ';'s does not change the tokens |
| Catalog.CollapseKeepsTags | csv.js:87 | the converter's ';' clean-up never changes which tags the page finds in an item |
| Catalog.AddTag | script.js:68 | Set.add keeps the set duplicate-free and adds exactly the new tag |
| Catalog.AddTags | script.js:66-69 | adding tokens in order keeps the set duplicate-free and adds exactly those tokens |
| Catalog.AddTagsConcat | script.js:66-69 | adding two runs of tags in turn is adding their concatenation |
| Catalog.CollectTags | script.js:63-69 | the collected set is duplicate-free and holds exactly the tags of the items |
| Catalog.CollectTagSet | script.js:63-69 | the nested forEach loops fill the Set with exactly CollectTags, in first-seen order |
| Catalog.CollectTagsIff | script.js:62-69 | a string is collected exactly when some item has it as a tag |
| Catalog.TagMenu | script.js:87 | the menu is sorted and is a permutation of the collected tag set |
| Catalog.TagMenuIsSortedTags | script.js:87 | the menu is sorted, duplicate-free and lists exactly the tags that some item has |
| Catalog.TagMenuUnique | script.js:87 | any sorted, duplicate-free list of exactly those tags is the menu |
| Catalog.TagCount | script.js:71-82 | the badge count is the number of distinct tags, and it is 0 exactly when no item has a tag |
| Catalog.Selected | script.js:165-177 | every selected item is in the catalog and passes both filters (Selects: status "all" or equal, tag "all" or among the item's tags), and every passing item is selected |
| Catalog.SelectedIsFiltered | script.js:165-177 | the filtered items form an order-preserving subsequence of the catalog, with each matching item kept as often as it occurs and nothing else |
| Catalog.SelectAll | script.js:165-177 | with both filters at "all", every item is shown |
| Catalog.RowOf | script.js:194-213 | each item row has four cells |
| Catalog.TableRows | script.js:186-213 | an empty selection shows one placeholder row spanning four columns; otherwise there is one row per item, in order |
| Catalog.TableRowsShowItems | script.js:194-213 | row i links the title to the url and then shows time_added, the raw tags and the status of item i |
| Catalog.CatalogPage.Valid | script.js:127-133 | at most one of the two filters is on; every handler keeps this, and a handled click leaves it true (see HandleMainTabClick, HandleSubTagClick at script.js:154-155) |
| Catalog.CatalogPage.constructor | script.js:3-5 | the page starts with no data and both filters at "all" |
| Catalog.CatalogPage.LoadDataAndInitialize | script.js:19-49 | after a successful load the catalog is the data, the menu and badge are initialized and the table shows the filtered items; after a failed fetch or parse the table shows the load-error row and the catalog is untouched |
| Catalog.CatalogPage.InitializeTagFilters | script.js:62-95 | the menu is TagMenu(data); the badge shows the distinct tag count and is shown exactly when that count is not 0; the filters and the catalog are unchanged |
| Catalog.CatalogPage.ShowTagMenu | script.js:84-94 | the menu is emptied and then lists the given tags in order |
| Catalog.CatalogPage.HandleMainTabClick | script.js:109-137 | a status tab sets the status and switches the tag filter off; a tag tab does the reverse; any other tab keeps both filters; every click on a tab re-renders the filtered items; a click outside every tab does nothing; at most one filter stays on; the catalog is never changed |
| Catalog.CatalogPage.HandleSubTagClick | script.js:140-159 | picking a tag sets it and switches the status filter off, then re-renders; the catalog is never changed |
| Catalog.CatalogPage.FilterAndRender | script.js:163-180 | the table shows exactly the rows of the items that pass both filters; the catalog and the filters are unchanged |
| Catalog.CatalogPage.RenderTable | script.js:186-213 | the table body holds exactly TableRows(data) |

## Left out

- The `fetch('./data.json')` load, the HTTP status check and the JSON parse of the response (script.js:19-49) are not modelled as I/O. `LoadDataAndInitialize` takes the outcome as a parameter: `None` for a failed fetch, HTTP status or parse, or the parsed items.
- Event wiring is not modelled (`bindFilterEvents`, the `DOMContentLoaded` handlers and the button listener). Neither are `event.preventDefault()` or `closest(...)`; the clicked tab or tag item is passed in as an `Option`, with `None` meaning the click hit no tab.
- CSS class changes on tabs and tag items, row styling, `target="_blank"`, and the menu items' attributes and class are not modelled. Rows are `Row` values, and the tag menu is the list of tag strings it shows.
- `console.warn` and `console.error` are not modelled.
- Clearing the text areas, the placeholder text, the clipboard copy and its three-second timer in csv.js are not modelled.
- The epoch-to-local-calendar conversion of `Date` depends on the host's time zone. It is the parameter `localDate: LocalCalendar`. The range check that makes `Date` print "NaN-NaN-NaN" is modelled.
- Timestamps are unbounded integers, not IEEE doubles. This changes no result. A parsed value with magnitude above 8.64e12 gives "NaN-NaN-NaN" both here and in the browser. Below that bound, multiplying by 1000 stays under 2^53 and is exact.
- `JSON.stringify` is modelled only for flat objects with string values, which is all the converter builds. Lone surrogates cannot occur in Dafny strings, so their `\u` escapes are not modelled.
- Documents that parse but have the wrong shape are not modelled. An example is an item without a `tags` string. In script.js:30, `allData` is assigned before `initializeTagFilters` throws into the same `catch`. Every item here has the five string fields.
- A missing `data-filter-type` or `data-filter-value` attribute (`null`) is not modelled; attributes are strings.
- The case where the badge element is absent (`if (tagsCountBadge)`) is not modelled; the badge is always present.
- The tag menu's DOM elements are not modelled. The menu is the sequence of tag texts, emptied and then appended to one tag at a time.
- JsSort.Sort: only the result of `sort()` is modelled, by insertion sort. JsSort.SortedUnique shows that every correct sort gives that same result.
