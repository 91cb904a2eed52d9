/**
 * The CSV reader of the dashboard: a one-line tokenizer (parseCSVRow) and a
 * document parser (parseCSV) that turns the text of a whole sheet into
 * records keyed by the header line's column names.
 *
 * The tokenizer keeps a single "inside quotes" flag: every double quote
 * flips it and is dropped, and a comma separates fields only while the flag
 * is off. There is no escaped-quote rule (a doubled quote closes and
 * reopens quoting) and lines are split before any quote handling, so a
 * quoted line break is not kept inside a field.
 */
module Csv {
  import opened JsText

  /** One record: column name to cell text (the plain object the script builds). */
  type Row = map<string, string>

  /** U+FEFF, the byte-order mark a spreadsheet export may start with. */
  const Bom: char := '\U{FEFF}'

  /** The number of double quotes in s. */
  function QuoteCount(s: string): nat {
    if s == [] then 0
    else QuoteCount(s[..|s| - 1]) + (if s[|s| - 1] == '"' then 1 else 0)
  }

  /** Whether quoting is open after reading s: an odd number of double quotes. */
  predicate InsideQuotesAfter(s: string) {
    QuoteCount(s) % 2 == 1
  }

  /**
   * The fields of one line, defined by reading the line from its last
   * character back: a quote adds nothing, a comma read with quoting closed
   * starts a new field, and any other character extends the last field.
   */
  function RowFields(line: string): (fields: seq<string>)
    ensures |fields| >= 1
    decreases |line|
  {
    if line == [] then [""]
    else
      var init, ch := line[..|line| - 1], line[|line| - 1];
      var prev := RowFields(init);
      if ch == '"' then prev
      else if ch == ',' && !InsideQuotesAfter(init) then prev + [""]
      else prev[..|prev| - 1] + [prev[|prev| - 1] + [ch]]
  }

  /** parseCSVRow: one left-to-right scan with the insideQuotes flag. */
  method ParseCsvRow(line: string) returns (fields: seq<string>)
    ensures fields == RowFields(line)
  {
    fields := [];
    var current := "";
    var insideQuotes := false;
    for i := 0 to |line|
      invariant fields + [current] == RowFields(line[..i])
      invariant insideQuotes == InsideQuotesAfter(line[..i])
    {
      var ch := line[i];
      ReadPrefix(line, i, fields + [current], insideQuotes);
      assert (fields + [current])[..|fields|] == fields;
      if ch == '"' && !insideQuotes {
        insideQuotes := true;
      } else if ch == '"' && insideQuotes {
        insideQuotes := false;
      } else if ch == ',' && !insideQuotes {
        fields := fields + [current];
        current := "";
      } else {
        current := current + [ch];
      }
    }
    assert line[..|line|] == line;
    fields := fields + [current];
  }

  /** The positions of the commas that separate fields: those read with quoting closed. */
  function Separators(line: string): set<nat> {
    set i: nat | i < |line| && line[i] == ',' && !InsideQuotesAfter(line[..i])
  }

  lemma SeparatorsAppend(init: string, ch: char)
    ensures Separators(init + [ch]) ==
      Separators(init) + (if ch == ',' && !InsideQuotesAfter(init) then {|init|} else {})
  {
    var line := init + [ch];
    forall i: nat | i < |init| ensures line[..i] == init[..i] && line[i] == init[i] { }
    assert line[..|init|] == init;
  }

  /** A line has one field more than it has separating commas. */
  lemma {:induction false} FieldCount(line: string)
    ensures |RowFields(line)| == |Separators(line)| + 1
  {
    if line != [] {
      var init, ch := line[..|line| - 1], line[|line| - 1];
      FieldCount(init);
      assert line == init + [ch];
      SeparatorsAppend(init, ch);
      if ch == ',' && !InsideQuotesAfter(init) {
        assert |init| !in Separators(init);
        assert |Separators(init) + {|init|}| == |Separators(init)| + 1;
      }
    }
  }

  /** No field holds a double quote. */
  lemma {:induction false} FieldsHaveNoQuotes(line: string)
    ensures forall k :: 0 <= k < |RowFields(line)| ==> '"' !in RowFields(line)[k]
  {
    if line != [] {
      var init := line[..|line| - 1];
      FieldsHaveNoQuotes(init);
      var prev := RowFields(init);
      assert '"' !in prev[|prev| - 1];
    }
  }

  /**
   * Joining the fields with commas gives the line back without its quotes:
   * the tokenizer only drops quotes and only turns separating commas into
   * field boundaries.
   */
  lemma {:induction false} FieldsJoin(line: string)
    ensures Join(RowFields(line), ",") == RemoveChar(line, '"')
  {
    if line != [] {
      var init, ch := line[..|line| - 1], line[|line| - 1];
      FieldsJoin(init);
      assert line == init + [ch];
      RemoveCharAppend(init, [ch], '"');
      var prev := RowFields(init);
      if ch == '"' {
      } else if ch == ',' && !InsideQuotesAfter(init) {
        JoinAppend(prev, "", ",");
      } else {
        ExtendLastPiece(prev, [ch], ",");
      }
    }
  }

  /** A line without quotes is exactly its fields joined with commas. */
  lemma UnquotedLineRoundTrip(line: string)
    requires '"' !in line
    ensures Join(RowFields(line), ",") == line
  {
    FieldsJoin(line);
    RemoveAbsentChar(line, '"');
  }

  /**
   * Reading one more character, from the fields and the quoting state after
   * the line so far.
   */
  lemma ReadChar(init: string, ch: char, fields: seq<string>, inside: bool)
    requires RowFields(init) == fields && InsideQuotesAfter(init) == inside
    ensures InsideQuotesAfter(init + [ch]) == if ch == '"' then !inside else inside
    ensures RowFields(init + [ch]) ==
      if ch == '"' then fields
      else if ch == ',' && !inside then fields + [""]
      else fields[..|fields| - 1] + [fields[|fields| - 1] + [ch]]
  {
    assert (init + [ch])[..|init|] == init;
  }

  /** Reading the i-th character of a line, from the state after the first i. */
  lemma ReadPrefix(line: string, i: nat, fields: seq<string>, inside: bool)
    requires i < |line| && RowFields(line[..i]) == fields && InsideQuotesAfter(line[..i]) == inside
    ensures InsideQuotesAfter(line[..i + 1]) == if line[i] == '"' then !inside else inside
    ensures RowFields(line[..i + 1]) ==
      if line[i] == '"' then fields
      else if line[i] == ',' && !inside then fields + [""]
      else fields[..|fields| - 1] + [fields[|fields| - 1] + [line[i]]]
  {
    assert line[..i + 1] == line[..i] + [line[i]];
    ReadChar(line[..i], line[i], fields, inside);
  }

  /** A comma inside quotes stays in its field. */
  lemma QuotedCommaStaysInField(line: string)
    requires line == "a,\"b,c\",d"
    ensures RowFields(line) == ["a", "b,c", "d"]
  {
    QuotedCommaOpening(line);
    QuotedCommaQuoted(line);
    QuotedCommaClosing(line);
    ReadPrefix(line, 8, ["a", "b,c", ""], false);
    assert "" + ['d'] == "d";
    assert ["a", "b,c", ""][..2] + ["" + ['d']] == ["a", "b,c", "d"];
    assert line[..9] == line;
  }

  /** A step of QuotedCommaStaysInField: reading characters 6 to 8 of the example line. */
  lemma QuotedCommaClosing(line: string)
    requires line == "a,\"b,c\",d"
    requires RowFields(line[..5]) == ["a", "b,"] && InsideQuotesAfter(line[..5])
    ensures RowFields(line[..8]) == ["a", "b,c", ""] && !InsideQuotesAfter(line[..8])
  {
    ReadPrefix(line, 5, ["a", "b,"], true);
    assert "b," + ['c'] == "b,c";
    assert ["a", "b,"][..1] + ["b," + ['c']] == ["a", "b,c"];
    ReadPrefix(line, 6, ["a", "b,c"], true);
    ReadPrefix(line, 7, ["a", "b,c"], false);
  }

  /** A step of QuotedCommaStaysInField: reading characters 1 and 2 of the example line. */
  lemma QuotedCommaOpening(line: string)
    requires line == "a,\"b,c\",d"
    ensures RowFields(line[..2]) == ["a", ""] && !InsideQuotesAfter(line[..2])
  {
    assert line[..0] == [] && line[0] == 'a' && line[1] == ',';
    ReadPrefix(line, 0, [""], false);
    assert "" + ['a'] == "a" && [""][..0] == [];
    ReadPrefix(line, 1, ["a"], false);
  }

  /** A step of QuotedCommaStaysInField: reading characters 3 to 5 of the example line. */
  lemma QuotedCommaQuoted(line: string)
    requires line == "a,\"b,c\",d"
    requires RowFields(line[..2]) == ["a", ""] && !InsideQuotesAfter(line[..2])
    ensures RowFields(line[..5]) == ["a", "b,"] && InsideQuotesAfter(line[..5])
  {
    QuotedCommaOpenQuote(line);
    ReadPrefix(line, 4, ["a", "b"], true);
    assert "b" + [','] == "b,";
    assert ["a", "b"][..1] + ["b" + [',']] == ["a", "b,"];
  }

  /** A step of QuotedCommaStaysInField: reading characters 3 and 4 of the example line. */
  lemma QuotedCommaOpenQuote(line: string)
    requires line == "a,\"b,c\",d"
    requires RowFields(line[..2]) == ["a", ""] && !InsideQuotesAfter(line[..2])
    ensures RowFields(line[..4]) == ["a", "b"] && InsideQuotesAfter(line[..4])
  {
    ReadPrefix(line, 2, ["a", ""], false);
    ReadPrefix(line, 3, ["a", ""], true);
    assert "" + ['b'] == "b";
    assert ["a", ""][..1] + ["" + ['b']] == ["a", "b"];
  }

  /**
   * A line without commas is a single field: the line with its quotes
   * removed.
   */
  lemma {:induction false} CommaFreeLine(line: string)
    requires ',' !in line
    ensures RowFields(line) == [RemoveChar(line, '"')]
  {
    if line != [] {
      var init, ch := line[..|line| - 1], line[|line| - 1];
      assert line == init + [ch];
      assert ch != ',' && ',' !in init by {
        assert ch == line[|line| - 1];
        assert forall k :: 0 <= k < |init| ==> init[k] == line[k];
      }
      CommaFreeLine(init);
      RemoveCharAppend(init, [ch], '"');
      assert RemoveChar([ch], '"') == if ch == '"' then [] else [ch] by {
        assert [ch][1..] == [];
      }
      var x := RemoveChar(init, '"');
      if ch == '"' {
        assert x + [] == x;
      } else {
        assert [x][..0] + [x + [ch]] == [x + [ch]];
      }
    }
  }

  /**
   * A doubled quote is not an escape: each quote only toggles quoting, so
   * none of them reaches the field.
   */
  lemma DoubledQuotesAreDropped(line: string)
    requires line == "\"he said \"\"hi\"\"\""
    ensures RowFields(line) == ["he said hi"]
  {
    CommaFreeLine(line);
    QuotesRemoved(line);
  }

  lemma QuotesRemoved(line: string)
    requires line == "\"he said \"\"hi\"\"\""
    ensures RemoveChar(line, '"') == "he said hi"
  {
    assert line[..9] == "\"he said " && line[9..] == "\"\"hi\"\"\"";
    assert line == line[..9] + line[9..];
    RemoveCharAppend(line[..9], line[9..], '"');
    OpeningQuoteRemoved(line[..9]);
    ClosingQuotesRemoved(line[9..]);
  }

  lemma OpeningQuoteRemoved(s: string)
    requires s == "\"he said "
    ensures RemoveChar(s, '"') == "he said "
  {
    assert s[1..] == "he said ";
    RemoveAbsentChar(s[1..], '"');
  }

  lemma ClosingQuotesRemoved(s: string)
    requires s == "\"\"hi\"\"\""
    ensures RemoveChar(s, '"') == "hi"
  {
    assert s == s[..2] + s[2..];
    RemoveCharAppend(s[..2], s[2..], '"');
    QuotesOnly(s[..2]);
    WordThenQuotes(s[2..]);
  }

  lemma WordThenQuotes(s: string)
    requires s == "hi\"\"\""
    ensures RemoveChar(s, '"') == "hi"
  {
    assert s == s[..2] + s[2..];
    RemoveCharAppend(s[..2], s[2..], '"');
    RemoveAbsentChar(s[..2], '"');
    QuotesOnly(s[2..]);
  }

  /** A run of double quotes leaves nothing. */
  lemma {:induction false} QuotesOnly(s: string)
    requires forall k :: 0 <= k < |s| ==> s[k] == '"'
    ensures RemoveChar(s, '"') == ""
  {
    if s != [] {
      QuotesOnly(s[1..]);
    }
  }

  /** `s.replace(/"/g, "").replace(/\r/g, "").trim()`, applied to header names and cells. */
  function Clean(s: string): (r: string)
    ensures '"' !in r && '\r' !in r && IsTrimmed(r)
  {
    var unquoted := RemoveChar(s, '"');
    var kept := RemoveChar(unquoted, '\r');
    RemoveCharKeepsAbsent(unquoted, '\r', '"');
    TrimKeepsAbsent(kept, '"');
    TrimKeepsAbsent(kept, '\r');
    Trim(kept)
  }

  /** `values[index] || ""`: the cell at a position, or "" past the end. */
  function Cell(values: seq<string>, index: nat): string {
    if index < |values| then values[index] else ""
  }

  /** The last position at which a header name occurs. */
  function LastIndex(headers: seq<string>, h: string): (k: nat)
    requires h in headers
    ensures k < |headers| && headers[k] == h
    ensures forall j :: k < j < |headers| ==> headers[j] != h
  {
    if headers[|headers| - 1] == h then |headers| - 1
    else
      assert h in headers[..|headers| - 1] by {
        var j :| 0 <= j < |headers| && headers[j] == h;
        assert headers[..|headers| - 1][j] == h;
      }
      LastIndex(headers[..|headers| - 1], h)
  }

  /**
   * The record made of one line's fields, built header by header: each
   * header name maps to the cleaned cell at its position ("" past the end of
   * the fields), and a later occurrence of a name overwrites an earlier one.
   */
  function RowOf(headers: seq<string>, values: seq<string>): (row: Row)
    ensures forall h :: h in row <==> h in headers
    ensures forall h :: h in row ==> '"' !in row[h] && '\r' !in row[h] && IsTrimmed(row[h])
    decreases |headers|
  {
    if headers == [] then map[]
    else
      var n := |headers| - 1;
      var prev := RowOf(headers[..n], values);
      assert forall h :: h in headers <==> h in headers[..n] || h == headers[n];
      prev[headers[n] := Clean(Cell(values, n))]
  }

  /** A header name's cell is the one under its last occurrence in the header line. */
  lemma {:induction false} RowOfLastOccurrence(headers: seq<string>, values: seq<string>, h: string)
    requires h in headers
    ensures RowOf(headers, values)[h] == Clean(Cell(values, LastIndex(headers, h)))
  {
    var n := |headers| - 1;
    if headers[n] != h {
      RowOfLastOccurrence(headers[..n], values, h);
    }
  }

  /** The header names: the first line's fields, cleaned. */
  function HeaderNames(line: string): (headers: seq<string>)
    ensures |headers| == |RowFields(line)|
    ensures forall k :: 0 <= k < |headers| ==> '"' !in headers[k] && '\r' !in headers[k] && IsTrimmed(headers[k])
  {
    var raw := RowFields(line);
    seq(|raw|, k requires 0 <= k < |raw| => Clean(raw[k]))
  }

  /** `csv.replace(/^\uFEFF/, "")`: one leading byte-order mark removed. */
  function StripBom(csv: string): string {
    if |csv| > 0 && csv[0] == Bom then csv[1..] else csv
  }

  predicate IsBlank(line: string) {
    Trim(line) == ""
  }

  /** Every line is empty or white space only. */
  predicate AllBlank(lines: seq<string>) {
    lines == [] || (IsBlank(lines[0]) && AllBlank(lines[1..]))
  }

  /** `lines.filter(line => line.trim() !== "")`. */
  function NonBlankLines(lines: seq<string>): (r: seq<string>)
    ensures |r| <= |lines|
    ensures forall l :: l in r <==> l in lines && !IsBlank(l)
    ensures r == [] <==> AllBlank(lines)
  {
    if lines == [] then []
    else
      var rest := NonBlankLines(lines[1..]);
      assert forall l :: l in lines <==> l == lines[0] || l in lines[1..];
      if IsBlank(lines[0]) then rest else [lines[0]] + rest
  }

  /** The filter keeps the order: filtering a concatenation concatenates the filtered parts. */
  lemma {:induction false} NonBlankLinesAppend(a: seq<string>, b: seq<string>)
    ensures NonBlankLines(a + b) == NonBlankLines(a) + NonBlankLines(b)
  {
    if a != [] {
      assert (a + b)[0] == a[0] && (a + b)[1..] == a[1..] + b;
      NonBlankLinesAppend(a[1..], b);
    } else {
      assert a + b == b;
    }
  }

  /** The lines the parser works on: the text without BOM, split and filtered. */
  function DocumentLines(csv: string): seq<string> {
    NonBlankLines(SplitLines(StripBom(csv)))
  }

  /**
   * One record per data line, in order; every record has exactly the header
   * names as keys and holds clean cells.
   */
  function Records(headers: seq<string>, dataLines: seq<string>): (rows: seq<Row>)
    ensures |rows| == |dataLines|
    ensures forall k, h :: 0 <= k < |rows| ==> (h in rows[k] <==> h in headers)
    ensures forall k, h :: 0 <= k < |rows| && h in rows[k] ==>
      '"' !in rows[k][h] && '\r' !in rows[k][h] && IsTrimmed(rows[k][h])
  {
    seq(|dataLines|, k requires 0 <= k < |dataLines| => RowOf(headers, RowFields(dataLines[k])))
  }

  /**
   * parseCSV as a value: None when the text has no non-blank line (the
   * script then calls parseCSVRow on undefined and throws), otherwise one
   * record per non-blank line after the header line.
   */
  function ParseDocument(csv: string): Option<seq<Row>> {
    var lines := DocumentLines(csv);
    if |lines| == 0 then None
    else
      Some(Records(HeaderNames(lines[0]), lines[1..]))
  }

  /**
   * The `headers.forEach` step of parseCSV: for each header in order, store
   * the cleaned cell under the trimmed header name.
   */
  method FillRow(headers: seq<string>, values: seq<string>) returns (row: Row)
    requires forall k :: 0 <= k < |headers| ==> IsTrimmed(headers[k])
    ensures row == RowOf(headers, values)
  {
    row := map[];
    for j := 0 to |headers|
      invariant row == RowOf(headers[..j], values)
    {
      var cleanHeader := Trim(headers[j]);
      TrimOfTrimmed(headers[j]);
      var cleanValue := Clean(Cell(values, j));
      row := row[cleanHeader := cleanValue];
      assert headers[..j + 1][..j] == headers[..j];
    }
    assert headers[..|headers|] == headers;
  }

  lemma RecordsExtend(headers: seq<string>, lines: seq<string>, i: nat)
    requires 1 <= i < |lines|
    ensures Records(headers, lines[1..i + 1]) == Records(headers, lines[1..i]) + [RowOf(headers, RowFields(lines[i]))]
  {
    var next := lines[1..i + 1];
    assert next[..|next| - 1] == lines[1..i];
    assert next[|next| - 1] == lines[i];
  }

  /** The header step of parseCSV: tokenize the first line and clean each name. */
  method ReadHeaders(line: string) returns (headers: seq<string>)
    ensures headers == HeaderNames(line)
  {
    var rawHeaders := ParseCsvRow(line);
    headers := seq(|rawHeaders|, k requires 0 <= k < |rawHeaders| => Clean(rawHeaders[k]));
  }

  /** parseCSV: an indexed loop over the lines that fills one record per line. */
  method ParseCsv(csv: string) returns (result: Option<seq<Row>>)
    ensures result == ParseDocument(csv)
  {
    var text := StripBom(csv);
    var lines := NonBlankLines(SplitLines(text));
    assert lines == DocumentLines(csv);
    if |lines| == 0 {
      return None;
    }
    var headers := ReadHeaders(lines[0]);
    var rows: seq<Row> := [];
    var i := 1;
    while i < |lines|
      invariant 1 <= i <= |lines|
      invariant rows == Records(headers, lines[1..i])
    {
      var values := ParseCsvRow(lines[i]);
      var row := FillRow(headers, values);
      rows := rows + [row];
      RecordsExtend(headers, lines, i);
      i := i + 1;
    }
    assert lines[1..|lines|] == lines[1..];
    result := Some(rows);
  }

  /** The parser fails exactly when every line of the text is blank. */
  lemma ParseFailsOnlyOnBlankText(csv: string)
    ensures ParseDocument(csv).None? <==> AllBlank(SplitLines(StripBom(csv)))
  {
  }

  /**
   * One record per non-blank line after the header line; every record has
   * exactly the header names as keys, and every key and every cell is
   * trimmed and free of double quotes and carriage returns.
   */
  lemma ParsedRowsAreClean(csv: string)
    requires ParseDocument(csv).Some?
    ensures |ParseDocument(csv).value| == |DocumentLines(csv)| - 1
    ensures forall i, h :: 0 <= i < |ParseDocument(csv).value| ==>
      (h in ParseDocument(csv).value[i] <==> h in HeaderNames(DocumentLines(csv)[0]))
    ensures forall i, h :: 0 <= i < |ParseDocument(csv).value| && h in ParseDocument(csv).value[i] ==>
      '"' !in h && '\r' !in h && IsTrimmed(h) &&
      '"' !in ParseDocument(csv).value[i][h] && '\r' !in ParseDocument(csv).value[i][h] &&
      IsTrimmed(ParseDocument(csv).value[i][h])
  {
  }

  /**
   * A header at a position past the end of the line's fields gets "": its
   * last occurrence, which decides the cell, is past the end as well.
   */
  lemma MissingCellIsEmpty(headers: seq<string>, values: seq<string>, j: nat)
    requires j < |headers| && |values| <= j
    ensures RowOf(headers, values)[headers[j]] == ""
  {
    assert LastIndex(headers, headers[j]) >= j;
    RowOfLastOccurrence(headers, values, headers[j]);
    TrimOfTrimmed("");
  }

  /**
   * A leading byte-order mark makes no difference to the result. The regex
   * removes one; a second one stays in front of the first line, where the
   * blank-line filter and the header cleaning both trim it away.
   */
  lemma LeadingBomIgnored(csv: string)
    ensures ParseDocument([Bom] + csv) == ParseDocument(csv)
  {
    var withBom := [Bom] + csv;
    assert withBom[1..] == csv;
    if |csv| > 0 && csv[0] == Bom {
      var t := csv[1..];
      assert csv == [Bom] + t;
      var a, b := DocumentLines(withBom), DocumentLines(csv);
      assert a == NonBlankLines(SplitLines([Bom] + t)) && b == NonBlankLines(SplitLines(t));
      NonBlankLinesBom(t);
      if a != b {
        HeaderNamesBom(b[0]);
      }
    }
  }

  /** Any number of leading byte-order marks make no difference to the result. */
  lemma {:induction false} LeadingBomsIgnored(n: nat, csv: string)
    ensures ParseDocument(seq(n, _ => Bom) + csv) == ParseDocument(csv)
  {
    if n > 0 {
      var rest := seq(n - 1, _ => Bom) + csv;
      assert seq(n, _ => Bom) + csv == [Bom] + rest;
      LeadingBomIgnored(rest);
      LeadingBomsIgnored(n - 1, csv);
    } else {
      assert seq(n, _ => Bom) + csv == csv;
    }
  }

  /**
   * A byte-order mark in front of the text only ever sits in front of the
   * first kept line.
   */
  lemma NonBlankLinesBom(t: string)
    ensures var a, b := NonBlankLines(SplitLines([Bom] + t)), NonBlankLines(SplitLines(t));
      a == b || (|a| == |b| > 0 && a[0] == [Bom] + b[0] && a[1..] == b[1..])
  {
    var lines := SplitLines(t);
    var s := [Bom] + t;
    assert s[1..] == t && s[0] == Bom;
    var first := [Bom] + lines[0];
    assert SplitLines(s) == [first] + lines[1..];
    assert ([first] + lines[1..])[1..] == lines[1..];
    TrimBom(lines[0]);
    assert lines == [lines[0]] + lines[1..];
  }

  /** trim() removes a leading byte-order mark. */
  lemma TrimBom(x: string)
    ensures Trim([Bom] + x) == Trim(x)
  {
    var s := [Bom] + x;
    assert s[0] == Bom && s[1..] == x;
  }

  /** The byte-order mark is not a quote. */
  lemma {:induction false} QuoteCountBom(s: string)
    ensures QuoteCount([Bom] + s) == QuoteCount(s)
  {
    if s == [] {
      assert ([Bom] + s)[..0] == [];
    } else {
      var init := s[..|s| - 1];
      assert ([Bom] + s)[..|s|] == [Bom] + init;
      QuoteCountBom(init);
    }
  }

  /** A byte-order mark in front of a line ends up in front of its first field. */
  lemma {:induction false} RowFieldsBom(s: string)
    ensures RowFields([Bom] + s) == [[Bom] + RowFields(s)[0]] + RowFields(s)[1..]
  {
    var line := [Bom] + s;
    if s == [] {
      assert line[..0] == [];
      assert "" + [Bom] == [Bom] + "" && [""][..0] == [] && [""][1..] == [];
    } else {
      var init, ch := s[..|s| - 1], s[|s| - 1];
      assert s == init + [ch] && line == ([Bom] + init) + [ch];
      RowFieldsBom(init);
      QuoteCountBom(init);
      var p := RowFields(init);
      var inside := InsideQuotesAfter(init);
      ReadChar(init, ch, p, inside);
      ReadChar([Bom] + init, ch, [[Bom] + p[0]] + p[1..], inside);
      if ch == '"' {
      } else if ch == ',' && !inside {
        assert (p + [""])[0] == p[0] && (p + [""])[1..] == p[1..] + [""];
      } else {
        ExtendFirstFieldBom(p, ch);
      }
    }
  }

  lemma ExtendFirstFieldBom(p: seq<string>, ch: char)
    requires |p| >= 1
    ensures var q := [[Bom] + p[0]] + p[1..];
      var r := p[..|p| - 1] + [p[|p| - 1] + [ch]];
      q[..|q| - 1] + [q[|q| - 1] + [ch]] == [[Bom] + r[0]] + r[1..]
  {
    var q := [[Bom] + p[0]] + p[1..];
    var r := p[..|p| - 1] + [p[|p| - 1] + [ch]];
    if |p| == 1 {
      assert [Bom] + p[0] + [ch] == [Bom] + (p[0] + [ch]);
    } else {
      assert r[0] == p[0] && r[1..] == p[1..|p| - 1] + [p[|p| - 1] + [ch]];
      assert q[..|q| - 1] == [[Bom] + p[0]] + p[1..|p| - 1];
      assert q[|q| - 1] == p[|p| - 1];
    }
  }

  /** Cleaning trims a leading byte-order mark away. */
  lemma CleanBom(f: string)
    ensures Clean([Bom] + f) == Clean(f)
  {
    var s := [Bom] + f;
    assert s[0] == Bom && s[1..] == f;
    var u := RemoveChar(f, '"');
    assert RemoveChar(s, '"') == [Bom] + u;
    var v := [Bom] + u;
    assert v[0] == Bom && v[1..] == u;
    assert RemoveChar(v, '\r') == [Bom] + RemoveChar(u, '\r');
    TrimBom(RemoveChar(u, '\r'));
  }

  /** A byte-order mark in front of the header line changes no header name. */
  lemma HeaderNamesBom(line: string)
    ensures HeaderNames([Bom] + line) == HeaderNames(line)
  {
    RowFieldsBom(line);
    var p := RowFields(line);
    CleanBom(p[0]);
    var a, b := HeaderNames([Bom] + line), HeaderNames(line);
    assert |a| == |b|;
    forall k | 0 <= k < |a| ensures a[k] == b[k] {
      if k > 0 {
        assert RowFields([Bom] + line)[k] == p[k];
      }
    }
  }
}
