# AnalyticsThousanaire dashboard data pipeline in Dafny

This project models the data pipeline of the dashboard script `script.js`.
The script fetches a Google Sheet exported as CSV and turns it into figures
for the page:

- `parseCSVRow` splits one line into fields with a single "inside quotes" flag.
- `parseCSV` drops a byte-order mark, splits the text into non-blank lines, reads the header
  line and builds one record per data line. A record maps each cleaned header name to its
  cleaned cell.
- `sum` totals one column, reading cells with `Number()` and counting NaN as 0.
- `calculateKPIs` builds five column totals and three rounded percentages of the offered total.
- `groupByProgram` totals the answered column per line of business ("Program"), in the order
  the lines first appear.
- `formatLabel` makes a KPI card heading from a KPI key.

The model has four modules:

- `JsText` (`js_text.dfy`) holds the JavaScript string built-ins the script relies on:
  - `trim` with the ECMAScript white-space set;
  - `replace(/c/g, …)` for single characters;
  - `split(/\r?\n/)`;
  - `toUpperCase` on ASCII letters;
  - `Number()` on integer literals, where `None` stands for NaN.
- `Csv` (`csv.dfy`) holds the tokenizer and the document parser.
  - Each is a method with its loop: `ParseCsvRow`, `ParseCsv`, `FillRow`.
  - Each method is proved equal to a specification function: `RowFields`, `ParseDocument`, `RowOf`.
  - Further lemmas state the properties of those functions.
- `Metrics` (`metrics.dfy`) holds `Sum`, `CalculateKpis`, and the method `GroupByProgram`.
  - `GroupByProgram` keeps a dictionary and its key order as `map` and `seq` loop variables.
  - It is proved equal to `ProgramTotals`: the lines of business in first-seen order, each with
    the answered total of its rows.
- `Labels` (`labels.dfy`) holds `FormatLabel`.

The model follows the code where it departs from the usual CSV conventions (RFC 4180) or from
what a reader of the dashboard might expect:

- Unlike RFC 4180, a doubled quote `""` inside a quoted field is not an escape in `parseCSVRow`.
  - Each quote only flips the flag and is dropped.
  - So `"he said ""hi"""` yields `he said hi`, not `he said "hi"` (`Csv.DoubledQuotesAreDropped`).
- Unlike RFC 4180, lines are split on `\r?\n` before any quote handling, so a quoted line break
  does not stay in its field.
- `sum` does not strip thousands separators or other characters before reading a cell.
  - `Number("1,234")` is NaN, so that cell adds 0.
  - `sum` of `"1,234"`, `"abc"` and `""` is therefore 0, not 1234 (`Metrics.SumOfSeparatedThousands`).
- A document whose lines are all blank does not give an empty list of rows:
  - `parseCSV` then calls `parseCSVRow(undefined)`, which throws;
  - `ParseDocument` returns `None` for that case (`Csv.ParseFailsOnlyOnBlankText`).
- The Program column is read under the one name `"Program"` only.

## Model

| member | source | states |
|---|---|---|
| Csv.RowFields | script.js:59-79 | the fields of a line, read from its end: a quote adds nothing, a comma read with quoting closed starts a new field, any other character extends the last field; there is always at least one field |
| Csv.ParseCsvRow | script.js:59-79 | the left-to-right scan with the quote flag returns exactly the fields `RowFields` defines |
| Csv.FieldCount | script.js:64-77 | a line has one field more than it has commas read outside quotes |
| Csv.FieldsHaveNoQuotes | script.js:65-68 | no field ever holds a double quote: every quote only toggles the flag |
| Csv.FieldsJoin | script.js:64-77 | joining the fields with commas gives the line with its quotes removed, so nothing but quotes is lost and only separating commas split |
| Csv.UnquotedLineRoundTrip | script.js:64-77 | for a line without quotes, joining the fields with "," gives back the line |
| Csv.CommaFreeLine | script.js:64-78 | a line without commas is one field: the line minus its quotes |
| Csv.QuotedCommaStaysInField | script.js:64-78 | `a,"b,c",d` gives the three fields `a`, `b,c`, `d` |
| Csv.DoubledQuotesAreDropped | script.js:65-68 | `"he said ""hi"""` gives the single field `he said hi`: a doubled quote is not an escape |
| Csv.ReadChar | script.js:64-75 | reading one more character: a quote flips the flag and adds nothing, a comma outside quotes starts a new field, anything else extends the current field |
| Csv.Clean | script.js:33 | cleaning a name or cell leaves no double quote, no carriage return and no white space at either end |
| Csv.Cell | script.js:44 | no contract: its body is the definition of the cell at a position, "" past the end of the fields |
| Csv.RowOf | script.js:42-50 | a record has exactly the header names as keys, each holding a clean cell |
| Csv.RowOfLastOccurrence | script.js:49 | a repeated header name holds the cell under its last occurrence, since later assignments overwrite |
| Csv.MissingCellIsEmpty | script.js:44-49 | a header at a position past the end of a short line's fields gets "", whether or not the name occurs again later |
| Csv.FillRow | script.js:42-50 | the `headers.forEach` loop builds exactly the record `RowOf` defines |
| Csv.HeaderNames | script.js:30-34 | the header names are as many as the first line's fields, each clean |
| Csv.ReadHeaders | script.js:30-34 | tokenizing the first line and cleaning each name gives `HeaderNames` |
| Csv.NonBlankLines | script.js:29 | the filter keeps a line exactly when it is non-blank, and keeps none exactly when every line is blank |
| Csv.NonBlankLinesAppend | script.js:29 | the filter keeps the order of the lines: filtering a concatenation concatenates the filtered parts |
| Csv.StripBom | script.js:27 | no contract: its body is the definition of removing one leading U+FEFF |
| Csv.Records | script.js:38-53 | one record per data line; every record has exactly the header names as keys and holds cells free of quotes and carriage returns and trimmed |
| Csv.ParseDocument | script.js:26-57 | no contract: its body is the definition of parseCSV as a value; `ParseCsv` is proved equal to it, and the lemmas below state its properties |
| Csv.ParseCsv | script.js:26-57 | the parsing loop returns exactly `ParseDocument` of the text, with `None` for the throwing case |
| Csv.ParseFailsOnlyOnBlankText | script.js:29-30 | the parser fails exactly when every line of the BOM-stripped text is blank |
| Csv.ParsedRowsAreClean | script.js:32-53 | the parser yields one record per non-blank line after the header; each has exactly the header names as keys; all keys and cells are trimmed and free of quotes and carriage returns |
| Csv.LeadingBomIgnored | script.js:27-34 | a leading byte-order mark does not change the result, for every text: the regex removes one, and trim removes a second one from the first line and from the first header name |
| Csv.LeadingBomsIgnored | script.js:27-34 | any number of leading byte-order marks leave the result unchanged |
| JsText.Trim | script.js:33 | `trim` leaves no white space at either end, never lengthens, and gives "" exactly for all-white-space text |
| JsText.TrimInfix | script.js:33 | the trimmed text is an infix with only white space around it |
| JsText.TrimIdempotent | script.js:43 | trimming twice is trimming once, so the second `header.trim()` changes nothing |
| JsText.RemoveChar | script.js:33 | `replace(/c/g, "")` leaves no c |
| JsText.RemoveCharAppend | script.js:33 | removing a character distributes over concatenation |
| JsText.SplitLines | script.js:29 | `split(/\r?\n/)` gives at least one piece and no piece holds a line feed |
| JsText.SplitLinesJoin | script.js:29 | for text without "\r", joining the pieces with "\n" gives the text back |
| JsText.SplitLinesJoinCrLf | script.js:29 | for any text, joining the pieces with "\n" gives the text with each "\r\n" break written as "\n": nothing but the "\r" of those breaks is lost |
| JsText.SplitLinesCount | script.js:29 | for text without "\r", there is one piece more than there are line feeds |
| JsText.NumberValue | script.js:106 | a blank or white-space-only cell reads as 0 |
| JsText.NumberRejects | script.js:106-107 | a cell holding a character that no numeric string holds (not white space, a digit, a sign, ".", a hexadecimal digit, x, X, o, O or a letter of "Infinity"; for example ",") reads as NaN |
| JsText.NumberOfDecimalText | script.js:106 | `Number(String(n)) == n` for every integer n |
| JsText.ReplaceChar | script.js:151 | `replace(/c/g, d)` keeps the length, leaves no c when d differs from c, brings in no character but d, and holds d exactly when the text held c or d |
| JsText.UpperCase | script.js:151 | `toUpperCase` leaves no lower-case ASCII letter, keeps the length, and changes no character other than a lower-case ASCII letter |
| Metrics.Contribution | script.js:106-107 | no contract: its body is the definition of what one row adds: 0 for a missing or empty cell, the value `Number()` reads otherwise, 0 for NaN |
| Metrics.Sum | script.js:104-109 | no contract: its body is the definition of the reduce as a left fold from 0; `SumAppend` and the lemmas below state its properties |
| Metrics.SumAppend | script.js:104-109 | the total of a concatenation is the sum of the two totals |
| Metrics.SumSkipsUnusableCell | script.js:106-107 | a row whose cell is missing, empty or NaN changes no total, wherever it stands |
| Metrics.CellOfDecimal | script.js:106-107 | a cell holding the decimal text of n contributes n |
| Metrics.WordIsNaN | script.js:106-107 | the cell "abc" reads as NaN |
| Metrics.SumOfSeparatedThousands | script.js:104-109 | `"1,234"`, `"abc"` and `""` add up to 0 |
| Metrics.RoundedPercent | script.js:98-100 | the result is `Math.round(100 * part / whole)`: the integer p with p - 1/2 <= 100 * part / whole < p + 1/2 |
| Metrics.RoundedPercentUnique | script.js:98-100 | at most one integer meets that rounding condition |
| Metrics.RoundedPercentBounds | script.js:98-100 | a share between 0 and a positive whole rounds to a percentage between 0 and 100 |
| Metrics.CalculateKpis | script.js:85-101 | the five figures are the column totals of OFFERED, ANS. #, ABD #, FLOW OUTS and HOLDS; the three percentages are 0 when nothing was offered and the rounded shares of the offered total otherwise |
| Metrics.KpisOfNoRows | script.js:85-101 | with no rows every figure is 0 |
| Metrics.KpiCountsAdd | script.js:86-90 | the five counts are additive over any split of the rows |
| Metrics.AnsweredPercentBounds | script.js:98 | when answered is between 0 and a positive offered total, ans_pct is between 0 and 100 |
| Metrics.KpisOfOneRow | script.js:85-101 | offered 10, answered 8, abandoned 2 give 80, 20 and 0 percent |
| Metrics.ProgramOf | script.js:119 | no contract: its body is the definition of a row's line of business: its Program cell, or "Unknown" when that is missing or empty |
| Metrics.AddRow | script.js:122-123 | no contract: its body is the definition of one dictionary update; `CountRow` is proved to perform it |
| Metrics.Tally | script.js:116-124 | no contract: its body is the definition of the dictionary after a prefix of the rows; `TallyKeys` and `TallyValue` state its content |
| Metrics.FirstSeen | script.js:116-126 | the dictionary keys are distinct and are exactly the names that occur |
| Metrics.GroupByProgram | script.js:115-126 | the loop over the rows with its dictionary returns exactly `ProgramTotals` |
| Metrics.CountRow | script.js:119-123 | one row adds its answered count to its line's entry, a missing entry starting at 0 and going to the end of the key order |
| Metrics.OrderStep | script.js:122 | a new key is appended to the key order, an existing one leaves it unchanged |
| Metrics.TallyKeys | script.js:118-124 | the dictionary has an entry for exactly the lines of business the rows name |
| Metrics.TallyValue | script.js:118-124 | each entry is the answered total of the rows of that line of business |
| Metrics.TallyGroups | script.js:126 | listing the entries in key order gives `ProgramTotals` |
| Metrics.GroupsForAt | script.js:126 | the k-th group is the k-th line of business with the answered total of its rows |
| Metrics.GroupTotalsConserveAnswered | script.js:115-126 | the group values add up to `sum(rows, "ANS. #")` |
| Metrics.GroupsInFirstSeenOrder | script.js:115-126 | each line of business is listed once, exactly those the rows name, in the order the rows first name them |
| Metrics.BlankProgramIsUnknown | script.js:119 | a row with a missing or empty Program is counted under "Unknown" |
| Metrics.OneProgramTwoRows | script.js:115-126 | two rows of program A answering 3 and 5 make the single group (A, 8) |
| Labels.FormatLabel | script.js:150-152 | the heading has the key's length; underscores become spaces; lower-case ASCII letters become upper-case; every other character is kept |
| Labels.FormatLabelIdempotent | script.js:150-152 | formatting a heading again changes nothing |
| Labels.KpiHeadings | script.js:92-101 | the keys `offered`, `ans_pct` and `flow_out_pct` become `OFFERED`, `ANS PCT` and `FLOW OUT PCT` |

## Left out

- `loadData` (script.js:11-20) is not modelled: it is network I/O. Its catch is why an empty
  document ends in `[]` on the page, and the model shows that case as `None`.
- `renderKPIs` (script.js:133-148), `renderLOBChart` with its `lobChart` variable
  (script.js:162-189) and the start-up code (script.js:195-206) are not modelled: they are DOM
  and Chart.js rendering and page wiring.
- `formatNumber` is not modelled: it is locale-dependent `toLocaleString`.
- `console.log` and `console.error` are not modelled.
- JsText.NumberValue: models `Number()` only on blank text and on optionally signed runs of decimal
  digits with surrounding white space. Decimals, exponents, hexadecimal, binary and octal
  literals and `Infinity` all read as NaN here. In JavaScript they are numbers.
- Metrics.Sum: totals are exact integers. Double-precision rounding of large totals and
  non-integer cells is not modelled.
- Metrics.RoundedPercent: computes `Math.round(part / whole * 100)` on exact rationals. The
  floating-point division and multiplication can differ from it by one at a half-way case.
- Metrics.GroupByProgram: the dictionary lists keys in insertion order. A JavaScript object
  lists integer-like keys (a program named "42") first, in ascending numeric order; that is not
  modelled.
- Metrics.CountRow: assumes the dictionary starts empty. Names inherited from
  `Object.prototype`, such as "constructor", and the name `__proto__` behave differently on a
  plain object; that is not modelled.
- Csv.RowOf: a record is modelled as a map, so a header named `__proto__` is a key like any
  other. In JavaScript, `row["__proto__"] = value` calls the inherited setter, which ignores a
  string, so that record has no such key. That case is not modelled.
- JsText.UpperCase: covers only the ASCII letters. The non-ASCII case mappings of
  `toUpperCase` (such as "ß" becoming "SS") are not modelled.
- JsText.SplitLines: the strings are sequences of Unicode scalar values. Lone UTF-16
  surrogates, which a JavaScript string can hold, are not modelled.
