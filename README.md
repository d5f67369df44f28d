# RSFormatter and the read-only SQL guard, in Dafny

This project models two parts of a small database query tool.

**The result-set formatter (`rsformat.js`).** It turns a query result into markup. A result is a list of records, each an ordered list of key/value properties. The formatter has these parts:

- the cell helpers:
  - HTML escaping;
  - line-break conversion;
  - column extraction;
  - the numbered `ID` column;
  - the pivot that turns columns into rows;
- three renderers:
  - the fixed-width text grid (the "rowset" view);
  - the HTML table, which merges runs of equal values in the first `rowspan` columns;
  - the pivoted table;
- the CSV export. One copy is a method of the formatter object and the other is a standalone function;
- the `RSFormatter` object. It is reduced to its state, which is the data, its columns and the options: `render` picks a view from that state, and the handlers overwrite the state and render again.

**The read-only guard of the query service (`main.py`).** `validate_read_only_sql` does the following:

1. strips comments;
2. splits the text into statements at semicolons;
3. refuses an empty text;
4. refuses the first statement whose first word, upper-cased, is not `SELECT`, `WITH` or `USE`.

The `/execute-query` endpoint forwards a text to the database only when the guard passes it.

**Modules**, one per concern:

| module | contents |
|---|---|
| `Text` | string helpers |
| `Values` | records and cell values |
| `Escaping` | `escapeHtml`, `convertNewlineToBr` |
| `Shaping` | columns, IDs, the pivot |
| `RowSet` | the text grid |
| `HtmlTable` | the merged table |
| `TransposedTable` | the pivoted table |
| `Csv` | export and a reader for the exported dialect |
| `Formatter` | options, views, the `RSFormatter` class |
| `ReadOnlySql` | the SQL guard |

**Method and specification.** The renderers and the CSV writers build their output step by step, as the source does. Each is written as a method with loops, and each is proved equal to a declarative specification function. The properties the source relies on are then proved about those functions as lemmas:

- HTML escaping loses nothing;
- a break tag in the data cannot survive as markup;
- the grid lines all have the same width;
- merged cells tile each column exactly;
- the export reads back as the header and the records.

The SQL guard is pure code, and it is modelled as functions.

## Model

| member | source | states |
|---|---|---|
| Text.ReplaceChar | rsformat.js:17-21 | a global replace of an absent character changes nothing, and a replacement without the character leaves none in the result |
| Text.PadEnd | rsformat.js:249 | `padEnd` yields the text followed by spaces only, at least the requested width long |
| Text.Repeat | rsformat.js:250 | `'-'.repeat(n)` is exactly n dashes |
| Text.NatToStringRoundTrip | rsformat.js:37 | the decimal text of an ordinal reads back as the same number |
| Values.OrEmpty | rsformat.js:48 | `v ?? ''` turns null and undefined into the empty string and leaves every other value unchanged |
| Values.Display | rsformat.js:15-16 | a null or undefined cell shows as the empty string; any other cell shows as `String(v)` |
| Values.LookupMissing | rsformat.js:276 | reading a property a record lacks gives `undefined`; names inherited from `Object.prototype` are not modelled (see Left out) |
| Values.LookupUnique | rsformat.js:276 | with no key repeated, reading a key gives the value stored under it |
| Escaping.EscapeText | rsformat.js:14-22 | the escaped text contains no `<`, `>`, `"` or `'`; text containing none of `&`, `<`, `>`, `"`, `'` is unchanged; the text never shrinks |
| Escaping.EscapeChainIsEscapeText | rsformat.js:16-21 | the chain of five global replaces, with `&` first, equals escaping every character once, so no entity is escaped twice |
| Escaping.EscapeHtml | rsformat.js:14-22 | null and undefined give the empty string; any other value gives the escaped text of `String(v)` |
| Escaping.UnescapeEscapeText | rsformat.js:16-21 | decoding the five entities recovers the original text, so escaping is lossless |
| Escaping.BreakChainIsBreakLines | rsformat.js:28 | the CRLF, LF, CR replace chain equals a single left-to-right pass that turns each line break into one `<br>` |
| Escaping.BreakLines | rsformat.js:28 | the result holds no CR or LF, and text without line breaks is unchanged |
| Escaping.ConvertNewlineToBr | rsformat.js:24-29 | null and undefined give the empty string; otherwise the text is escaped first, then its line breaks are converted |
| Escaping.CrlfIsOneMarker | rsformat.js:28 | a CR LF pair becomes exactly one `<br>`, not two |
| Escaping.LfIsOneMarker | rsformat.js:28 | a lone LF becomes exactly one `<br>` |
| Escaping.CrIsOneMarker | rsformat.js:28 | a lone CR becomes exactly one `<br>` |
| Escaping.BreakLinesAppend | rsformat.js:28 | conversion distributes over a cut that does not split a CR LF pair |
| Escaping.ConvertedTextHasOnlyBreakTags | rsformat.js:24-29 | every `<` in a converted cell opens a `<br>` that the conversion inserted |
| Escaping.LiteralBreakTagIsEscaped | rsformat.js:26-28 | a literal `<br>` in the data comes out as `&lt;br&gt;` |
| Shaping.ExtractColumns | rsformat.js:31-34 | no records give no columns; otherwise the columns are the first record's keys, in order |
| Shaping.WithId | rsformat.js:37-40 | `{ID: n, ...row}` puts `ID` first; its value is the record's own `ID` when it has one, else n; every other property reads as before; key order and uniqueness are kept |
| Shaping.RemoveKeyKeys | rsformat.js:39 | spreading the record after `ID` keeps its other keys in their order |
| Shaping.RemoveKeyLookup | rsformat.js:39 | spreading the record after `ID` keeps the values of its other keys |
| Shaping.RemoveKeyUnique | rsformat.js:39 | spreading the record after `ID` repeats no key |
| Shaping.AddIdColumn | rsformat.js:36-41 | the same number of records; record i gets ID i+1 unless it has its own |
| Shaping.ShownColumns | rsformat.js:527-530 | with the ID column on, the columns are `ID` followed by the original ones; otherwise they are the original ones |
| Shaping.ShownData | rsformat.js:527-530 | the same number of records: numbered by AddIdColumn when the ID column is on, and unchanged when it is off |
| Shaping.PivotRow | rsformat.js:48-51 | a pivoted row is the column name followed by each record's value in that column, with null and undefined as `''` |
| Shaping.TransposeData | rsformat.js:43-55 | no columns or no records give an empty pivot; otherwise the first column becomes the header row and each further column becomes a body row; no pivoted cell is null or undefined |
| Shaping.PivotCellsAreTableCells | rsformat.js:43-55 | the pivot is a transposition: record k's value in column c lands at position k+1 of pivot row c |
| RowSet.ColumnWidthIsMaximum | rsformat.js:239-247 | a column's width is at least its name's length and every value's length, and it equals one of them |
| RowSet.ComputeWidths | rsformat.js:239-247 | the in-place widening loop yields exactly the per-column maxima |
| RowSet.GridLinesAligned | rsformat.js:249-254 | there are two lines more than records, and the header, separator and data lines all have the same length |
| RowSet.FieldsArePadded | rsformat.js:253 | each field of a data line is the value's text followed by spaces, exactly the column's width |
| RowSet.GridLinesShape | rsformat.js:249-254 | the lines are the header, the dash separator, then one line per record, in order |
| RowSet.BuildGridText | rsformat.js:237-254 | the text built line by line is the count banner followed by the grid lines, each ending in a line feed |
| RowSet.RenderRowSet | rsformat.js:236-257 | the markup is the whole grid text, escaped once, inside the preformatted container |
| HtmlTable.ColumnValues | rsformat.js:276 | a column's values are read from every row in order |
| HtmlTable.RunLength | rsformat.js:286-295 | a span is at least 1, covers only rows equal to its first, and stops before the first row that differs |
| HtmlTable.RunLengthUnique | rsformat.js:286-295 | a maximal run of equal values has exactly the length the scan counts |
| HtmlTable.CellSlot | rsformat.js:268-302 | columns from `rowspanCount` on never merge; in a merged column a cell is omitted exactly when it equals the cell above, and an emitted cell spans its maximal run of equal values |
| HtmlTable.ColumnSpansCoverRows | rsformat.js:268-304 | in every column the spans of the emitted cells add up to the number of rows |
| HtmlTable.CoveringCellIsRunStart | rsformat.js:278-295 | in a merged column, the cell covering a row is the one at the start of that row's run of equal values |
| HtmlTable.EachRowCoveredOnce | rsformat.js:268-304 | every row of every column lies under exactly one emitted cell, so the table stays rectangular |
| HtmlTable.CoveredRowsAgree | rsformat.js:278-295 | a merged cell shows the value of every row it covers |
| HtmlTable.DepartmentsMerge | rsformat.js:268-304 | a concrete table: two equal department values merge into one cell spanning two rows; an unmerged column keeps one cell per row |
| HtmlTable.ColumnsMergeIndependently | rsformat.js:268-304 | a concrete table: a span in a later merged column can run on where the first column's run breaks |
| HtmlTable.UnitCellHtml | rsformat.js:298-299 | a cell spanning one row carries no `rowspan` attribute |
| HtmlTable.RenderHeader | rsformat.js:260-266 | the header row holds one escaped `th` per column, in order |
| HtmlTable.SpanBelow | rsformat.js:286-295 | the forward scan computes the maximal run of equal values |
| HtmlTable.SpanCell | rsformat.js:297-299 | an emitted merged cell is its converted or escaped text, with a `rowspan` attribute when it spans more than one row |
| HtmlTable.PlainCell | rsformat.js:308-309 | an unmerged cell is its converted or escaped text in a plain `td` |
| HtmlTable.RenderHtmlTable | rsformat.js:259-318 | the markup built row by row, with `lastValues` kept in an array, is the declarative table whose cells follow CellSlot |
| TransposedTable.RenderTransposedHeader | rsformat.js:321-327 | one escaped `th` per header value, in order |
| TransposedTable.RenderTransposedRow | rsformat.js:330-334 | one unmerged cell per value of the row, in order |
| TransposedTable.RenderTransposedTable | rsformat.js:320-340 | the markup built row by row is the header followed by one unmerged row per body row |
| TransposedTable.EmptyFillShowsSame | rsformat.js:48 | filling null and undefined with `''` before rendering shows the same text as rendering them directly |
| TransposedTable.TransposedCellsShowData | rsformat.js:43-55 | each body cell of the pivoted table shows the cell text of the corresponding record value; the header row, which is only escaped, shows the escaped value of the first column |
| Csv.QuoteField | rsformat.js:565 | a field is wrapped in double quotes, unchanged inside when it holds no quote |
| Csv.RecordFields | rsformat.js:567-572 | a record line holds `String(row[col] ?? '')` for each column, in column order |
| Csv.CsvRows | rsformat.js:564-572 | the table written is the header followed by one row per record, in order |
| Csv.BuildCsv | rsformat.js:564-572 | the content built line by line is the text of those rows, each line ending in CR LF |
| Csv.ExportCsv | rsformat.js:609-636 | absent or empty data exports nothing; otherwise the payload is a byte-order mark and CSV of the given (or extracted) columns, with `ID` first when asked |
| Csv.UnquoteRoundTrip | rsformat.js:565 | doubling inner quotes is undone by the reader: a quoted field reads back as itself |
| Csv.LineRoundTrip | rsformat.js:565-566 | a written line reads back as exactly its fields |
| Csv.CsvRoundTrip | rsformat.js:564-572 | written lines read back as exactly those lines, none merged or split |
| Csv.ExportReadsBack | rsformat.js:564-574 | the payload starts with the byte-order mark, and the rest reads back as the header and the records |
| Formatter.ResolveOptions | rsformat.js:355-362 | no options give table, no ID, no pivot, rowspan 3, line breaks on; a non-empty format is kept, and an absent or empty one gives table; ID and pivot are on only when given as true; rowspan is kept when given and is 3 otherwise; line breaks are off only when given as false |
| Formatter.ViewFor | rsformat.js:514-551 | no data shows the no-data message; otherwise a pivot overrides the format, and the format selects the grid, the table, the JSON view or the unsupported-format message (each exactly when named); the JSON view carries exactly the records shown, numbered when the ID column is on |
| Formatter.RSFormatter.constructor | rsformat.js:350-362 | absent data becomes the empty list, absent columns are extracted from the first record, and the options are resolved with their defaults |
| Formatter.RSFormatter.Render | rsformat.js:514-551 | the view rendered is the one ViewFor picks from the current state, produced by the renderer methods |
| Formatter.RSFormatter.SetData | rsformat.js:586-590 | the data and columns are replaced (absent data becomes empty, absent columns are extracted), the options kept, and the new state rendered |
| Formatter.RSFormatter.SetFormat | rsformat.js:502-512 | only the format changes, then the new state is rendered |
| Formatter.RSFormatter.SetShowId | rsformat.js:430-433 | only the ID option changes, then the new state is rendered |
| Formatter.RSFormatter.SetTranspose | rsformat.js:437-440 | only the pivot option changes, then the new state is rendered |
| Formatter.RSFormatter.SetRowspan | rsformat.js:457-460 | only the rowspan count changes; input that does not read as a number turns merging off; then the new state is rendered |
| Formatter.RSFormatter.ExportCsv | rsformat.js:553-574 | the object's export is the byte-order mark and CSV of the shown columns and records; an empty dataset is not refused |
| Formatter.TransposeOverridesFormat | rsformat.js:532-536 | with the pivot on, the format does not affect the view |
| Formatter.ShowIdIsNumberedData | rsformat.js:527-551 | with the ID column on, the grid, the table, the pivot and the JSON view are exactly those of the numbered records under `ID` followed by the columns, with the ID column off |
| Formatter.ShowIdPrependsId | rsformat.js:527-530 | with the ID column on, the first column is `ID`, and record k shows its own ID or k+1 |
| Formatter.EmptyExportIsHeaderOnly | rsformat.js:553-574 | the object's export of no records is the header line alone, and it reads back as just the header |
| ReadOnlySql.UpperChar | main.py:64 | upper-casing maps a lower-case ASCII letter to its own capital (32 code points lower) and leaves everything else alone, white space included |
| ReadOnlySql.CloseAt | main.py:51 | the shortest match of a block comment ends at the first `*/` after its opener |
| ReadOnlySql.Split | main.py:56 | splitting gives at least one piece, and no piece contains the separator |
| ReadOnlySql.SplitJoin | main.py:56 | joining the pieces with the separator gives the text back, so splitting loses nothing |
| ReadOnlySql.Strip | main.py:56 | a stripped statement neither starts nor ends with white space, and it is empty exactly when the text is all white space |
| ReadOnlySql.StripTrimmed | main.py:56 | a stripped statement is a slice of the text with only white space before and after it |
| ReadOnlySql.StatementsCharacterised | main.py:56 | every statement kept is the non-empty stripped text of some piece, every non-blank piece gives a statement, and there are none exactly when every piece is blank |
| ReadOnlySql.StatementsAppend | main.py:56 | the statements of two runs of pieces are those of the first followed by those of the second, so the pieces' order is kept |
| ReadOnlySql.StatementsOfOne | main.py:56 | one piece gives its stripped text as a statement, or nothing when it is blank |
| ReadOnlySql.FirstWord | main.py:64 | the first word is the longest prefix without white space |
| ReadOnlySql.JudgeCharacterised | main.py:62-71 | the statements pass exactly when every first word is allowed; a refusal names the first statement whose word is not allowed |
| ReadOnlySql.ValidateReadOnlySql | main.py:45-71 | after removing block comments and then line comments, the text is refused as empty exactly when it has no statements, and passes exactly when every statement starts with SELECT, WITH or USE; every refusal has status 400 and names the first disallowed word, upper-cased |
| ReadOnlySql.ValidateOnePass | main.py:45-71 | the same verdict, when both kinds of comment are removed in one pass |
| ReadOnlySql.ExecuteQuery | main.py:139-147 | a query is forwarded to the database exactly when the source's guard passes it, and unchanged; otherwise it is answered with 400 and the guard's message |
| ReadOnlySql.LineCommentHidesOnlyItsLine | main.py:52-53 | a `--` comment removes the rest of its own line and nothing after the line feed, whatever it contains |
| ReadOnlySql.BlockCommentDropped | main.py:50-51 | a block comment up to its first `*/` is removed, by the source's block pass and by the one-pass remover |
| ReadOnlySql.LineCommentDroppedAsWritten | main.py:52-53 | the source's line-comment pass on its own removes only the rest of the line |
| ReadOnlySql.PlainPrefix | main.py:50-53 | text that contains no `-` or `/` passes through one-pass comment removal untouched |
| ReadOnlySql.PlainPrefixAsWritten | main.py:50-53 | such text passes through each of the source's two passes untouched |
| ReadOnlySql.GluedKeywordRefused | main.py:64-66 | `SELECT*FROM t` is refused with the word `SELECT*FROM` by both guards, because the first word ends only at white space |
| ReadOnlySql.CommentOrderHidesStatement | main.py:50-53 | as written, `SELECT 1--/*` followed by a line `;DROP TABLE t--*/` passes the guard, and the endpoint sends that text unchanged to the database |
| ReadOnlySql.OnePassRefusesHiddenStatement | main.py:45-71 | with comments removed in one pass, that same text is refused with the word `DROP` |
| ReadOnlySql.ValidationIgnoresCase | main.py:64 | upper-casing the whole text first does not change the source guard's verdict |
| ReadOnlySql.OnePassIgnoresCase | main.py:64 | nor the verdict of the one-pass guard |

## Left out

- The DOM is left out: the container, the buttons, the check boxes, the rowspan input, the info line, `destroy`, `showControls` and the standalone `render` wrapper. Markup is a returned string, not an `innerHTML` assignment.
- The file download is left out: the Blob, the object URL, the link and its click, and the default file names. Both exports return the file content.
- The standalone export's `alert` is left out. The refusal is the `None` result.
- `renderJson` is left out: `JSON.stringify` is not modelled. The JSON view carries the records it would serialise.
- Cell values are null, undefined, strings, integers and booleans. Floating-point numbers, objects and arrays are not modelled.
- Values.ToStr: `String(v)` is modelled for those kinds only, and numbers are integers in decimal.
- Values.Lookup: a record is its own properties only. In the source, `row[col]` also finds names inherited from `Object.prototype` (`toString`, `constructor`, `valueOf`, ...), so a record lacking such a column shows the inherited function's text rather than an empty cell; that is not modelled, and Values.LookupMissing holds only for names that are not inherited.
- Shaping.ExtractColumns: records keep their keys in insertion order. JavaScript lists integer-like keys first, in ascending order, and that is not modelled.
- Shaping.WithId: the same caveat about integer-like keys applies.
- RowSet.ColumnWidth: lengths count characters. JavaScript counts UTF-16 code units, so a character outside the Basic Multilingual Plane counts once here and twice in the source.
- HtmlTable.RenderHtmlTable: the rowspan count is an integer. `new Array(n)` with a non-integer count, or one too large, throws in the source, and that is not modelled.
- Formatter.RSFormatter.SetRowspan: takes the input already parsed by `parseInt`. Reading the text and parsing it are not modelled.
- Formatter.RSFormatter.SetFormat: the highlighting of the active button is not modelled.
- Csv.ExportCsv: the `Array.isArray` test is not modelled. The data is a list by type, and absent data is `None`.
- ReadOnlySql.UpperChar: upper-cases ASCII letters only. Python's `upper()` also maps other letters (for example `ſ` to `S`), and that is not modelled.
- ReadOnlySql.ValidateReadOnlySql: string literals are not recognised. A comment opener inside quotes is treated as a comment, in the source and in the model alike.
- The rest of the service is left out: connecting to the database, the row limit, running the query, and the other endpoints.
- The guard's refusal says the query must start with SELECT or WITH, but `USE` is also accepted. The model follows the code: ALLOWED_STARTERS holds all three words and the message is kept verbatim.

## Findings

| source | as written | input that shows it | evidently intended | confidence | as-written member | corrected member |
|---|---|---|---|---|---|---|
| main.py:50-53 | Block comments are removed before line comments. A `/*` that sits inside a `--` comment therefore swallows the following lines, up to a `*/`. | `SELECT 1--/*` then a line feed, then `;DROP TABLE t--*/`. As written this is `SELECT 1` alone, and it passes; the endpoint sends the whole text, `DROP` included, to the database unchanged. Whether the database then runs the second statement depends on its driver. | A `--` comment hides only the rest of its own line. Comments are read in one left-to-right pass, where whichever opener comes first wins. | high that the text passes; medium that it is unintended — not executed | ReadOnlySql.CommentOrderHidesStatement | ReadOnlySql.LineCommentHidesOnlyItsLine |

**As written.** ReadOnlySql.StripCommentsAsWritten, ReadOnlySql.ValidateReadOnlySql and ReadOnlySql.ExecuteQuery model the source's two passes and the endpoint that relies on them.

**Corrected.** The one-pass remover is ReadOnlySql.StripComments, and ReadOnlySql.ValidateOnePass uses it. ReadOnlySql.OnePassRefusesHiddenStatement shows that the corrected guard refuses the same text with the word `DROP`.
