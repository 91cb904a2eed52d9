/**
 * The dashboard's figures: column totals (sum), the KPI record
 * (calculateKPIs) and the answered contacts per line of business
 * (groupByProgram).
 *
 * Cells are read with JavaScript's Number(): a missing or empty cell counts
 * as 0, and a cell that reads as NaN counts as 0 as well, so a total never
 * fails. Numbers are the integers of NumberValue; percentages are computed
 * exactly and rounded the way Math.round rounds.
 */
module Metrics {
  import opened JsText
  import opened Csv

  const OfferedColumn := "OFFERED"
  const AnsweredColumn := "ANS. #"
  const AbandonedColumn := "ABD #"
  const FlowOutsColumn := "FLOW OUTS"
  const HoldsColumn := "HOLDS"
  const ProgramColumn := "Program"
  /** The group of rows whose Program cell is missing or empty. */
  const UnknownProgram := "Unknown"

  /**
   * What one row adds to a column total: `Number(r[col] || 0)`, with NaN
   * replaced by 0.
   */
  function Contribution(r: Row, col: string): int {
    var raw := if col in r then r[col] else "";
    if raw == "" then 0
    else match NumberValue(raw)
      case Some(v) => v
      case None => 0
  }

  /** sum(rows, col): `rows.reduce(...)`, a left fold of the contributions from 0. */
  function Sum(rows: seq<Row>, col: string): int {
    if rows == [] then 0
    else Sum(rows[..|rows| - 1], col) + Contribution(rows[|rows| - 1], col)
  }

  /** The total of a concatenation is the sum of the two totals. */
  lemma {:induction false} SumAppend(a: seq<Row>, b: seq<Row>, col: string)
    ensures Sum(a + b, col) == Sum(a, col) + Sum(b, col)
  {
    if b == [] {
      assert a + b == a;
    } else {
      var n := |b| - 1;
      assert (a + b)[..|a + b| - 1] == a + b[..n];
      SumAppend(a, b[..n], col);
    }
  }

  /**
   * A row whose cell is missing, empty or not a number changes no total,
   * wherever it stands.
   */
  lemma SumSkipsUnusableCell(before: seq<Row>, r: Row, after: seq<Row>, col: string)
    requires col !in r || r[col] == "" || NumberValue(r[col]).None?
    ensures Sum(before + [r] + after, col) == Sum(before, col) + Sum(after, col)
  {
    SumAppend(before + [r], after, col);
    SumAppend(before, [r], col);
    assert [r][..0] == [];
  }

  /** A cell holding the decimal text of n contributes n. */
  lemma CellOfDecimal(r: Row, col: string, n: int)
    requires col in r && r[col] == DecimalText(n)
    ensures Contribution(r, col) == n
  {
    NumberOfDecimalText(n);
    assert r[col] != "" by { assert |DecimalText(n)| > 0; }
  }

  lemma SumOfOne(r: Row, col: string)
    ensures Sum([r], col) == Contribution(r, col)
  {
  }

  /** A thousands separator makes a cell NaN, so it adds nothing. */
  lemma SumOfSeparatedThousands()
    ensures Sum([map["X" := "1,234"], map["X" := "abc"], map["X" := ""]], "X") == 0
  {
    NumberRejects("1,234", 1);
    WordIsNaN("abc");
    var rows := [map["X" := "1,234"], map["X" := "abc"], map["X" := ""]];
    SumSkipsUnusableCell([], rows[0], rows[1..], "X");
    SumSkipsUnusableCell([], rows[1], rows[2..], "X");
    SumSkipsUnusableCell([], rows[2], [], "X");
    assert rows == [] + [rows[0]] + rows[1..];
    assert rows[1..] == [] + [rows[1]] + rows[2..];
    assert rows[2..] == [] + [rows[2]] + [];
  }

  /** A word is not a numeric literal, so it reads as NaN. */
  lemma WordIsNaN(s: string)
    requires s == "abc"
    ensures NumberValue(s) == None
  {
    assert !IsWhiteSpace(s[0]) && !IsWhiteSpace(s[2]) && !IsDigit(s[0]);
    TrimOfTrimmed(s);
  }

  /**
   * pct is Math.round(part / whole * 100) computed exactly: the integer with
   * pct - 1/2 <= 100 * part / whole < pct + 1/2, both sides multiplied out
   * by 2 * whole.
   */
  predicate IsRoundedPercent(pct: int, part: int, whole: int)
    requires whole != 0
  {
    if whole > 0 then (2 * pct - 1) * whole <= 200 * part < (2 * pct + 1) * whole
    else (2 * pct + 1) * whole < 200 * part <= (2 * pct - 1) * whole
  }

  /** Math.round(part / whole * 100): floor(100 * part / whole + 1/2). */
  function RoundedPercent(part: int, whole: int): (pct: int)
    requires whole != 0
    ensures IsRoundedPercent(pct, part, whole)
  {
    var n, d := if whole > 0 then 100 * part else -100 * part, if whole > 0 then whole else -whole;
    var q := (2 * n + d) / (2 * d);
    DivBounds(2 * n + d, 2 * d);
    assert (2 * q - 1) * d <= 2 * n < (2 * q + 1) * d;
    assert whole < 0 ==> (2 * q - 1) * whole == -((2 * q - 1) * d) && (2 * q + 1) * whole == -((2 * q + 1) * d);
    q
  }

  lemma DivBounds(a: int, b: int)
    requires b > 0
    ensures b * (a / b) <= a < b * (a / b) + b
  {
  }

  /** At most one integer is the rounded percentage. */
  lemma RoundedPercentUnique(p1: int, p2: int, part: int, whole: int)
    requires whole != 0
    requires IsRoundedPercent(p1, part, whole) && IsRoundedPercent(p2, part, whole)
    ensures p1 == p2
  {
  }

  lemma MulMonotone(a: int, b: int, w: int)
    requires a <= b && w > 0
    ensures a * w <= b * w
  {
  }

  /** A share of a positive whole rounds to a percentage between 0 and 100. */
  lemma RoundedPercentBounds(part: int, whole: int)
    requires 0 <= part <= whole && whole > 0
    ensures 0 <= RoundedPercent(part, whole) <= 100
  {
    var pct := RoundedPercent(part, whole);
    if pct < 0 {
      MulMonotone(2 * pct + 1, -1, whole);
    }
    if pct > 100 {
      MulMonotone(201, 2 * pct - 1, whole);
    }
  }

  /** The record calculateKPIs returns. */
  datatype Kpis = Kpis(
    offered: int,
    answered: int,
    abandoned: int,
    flowOuts: int,
    holds: int,
    ansPct: int,
    abnPct: int,
    flowOutPct: int)

  /**
   * calculateKPIs: five column totals and three percentages of the offered
   * total, each 0 when nothing was offered.
   */
  function CalculateKpis(rows: seq<Row>): (k: Kpis)
    ensures k.offered == Sum(rows, OfferedColumn) && k.answered == Sum(rows, AnsweredColumn)
    ensures k.abandoned == Sum(rows, AbandonedColumn) && k.flowOuts == Sum(rows, FlowOutsColumn)
    ensures k.holds == Sum(rows, HoldsColumn)
    ensures k.offered == 0 ==> k.ansPct == 0 && k.abnPct == 0 && k.flowOutPct == 0
    ensures k.offered != 0 ==>
      IsRoundedPercent(k.ansPct, k.answered, k.offered) &&
      IsRoundedPercent(k.abnPct, k.abandoned, k.offered) &&
      IsRoundedPercent(k.flowOutPct, k.flowOuts, k.offered)
  {
    var offered := Sum(rows, OfferedColumn);
    var answered := Sum(rows, AnsweredColumn);
    var abandoned := Sum(rows, AbandonedColumn);
    var flowOuts := Sum(rows, FlowOutsColumn);
    var holds := Sum(rows, HoldsColumn);
    Kpis(
      offered, answered, abandoned, flowOuts, holds,
      if offered != 0 then RoundedPercent(answered, offered) else 0,
      if offered != 0 then RoundedPercent(abandoned, offered) else 0,
      if offered != 0 then RoundedPercent(flowOuts, offered) else 0)
  }

  /** With no rows every figure is 0. */
  lemma KpisOfNoRows()
    ensures CalculateKpis([]) == Kpis(0, 0, 0, 0, 0, 0, 0, 0)
  {
  }

  /**
   * The counts are additive over any split of the rows, so they stay
   * consistent under sub-selection.
   */
  lemma KpiCountsAdd(a: seq<Row>, b: seq<Row>)
    ensures CalculateKpis(a + b).offered == CalculateKpis(a).offered + CalculateKpis(b).offered
    ensures CalculateKpis(a + b).answered == CalculateKpis(a).answered + CalculateKpis(b).answered
    ensures CalculateKpis(a + b).abandoned == CalculateKpis(a).abandoned + CalculateKpis(b).abandoned
    ensures CalculateKpis(a + b).flowOuts == CalculateKpis(a).flowOuts + CalculateKpis(b).flowOuts
    ensures CalculateKpis(a + b).holds == CalculateKpis(a).holds + CalculateKpis(b).holds
  {
    SumAppend(a, b, OfferedColumn);
    SumAppend(a, b, AnsweredColumn);
    SumAppend(a, b, AbandonedColumn);
    SumAppend(a, b, FlowOutsColumn);
    SumAppend(a, b, HoldsColumn);
  }

  /** When the answered total is between 0 and the offered total, ans_pct is between 0 and 100. */
  lemma AnsweredPercentBounds(rows: seq<Row>)
    requires 0 <= CalculateKpis(rows).answered <= CalculateKpis(rows).offered
    requires CalculateKpis(rows).offered > 0
    ensures 0 <= CalculateKpis(rows).ansPct <= 100
  {
    var k := CalculateKpis(rows);
    RoundedPercentBounds(k.answered, k.offered);
  }

  /** One row offering 10 contacts, 8 answered and 2 abandoned: 80 % and 20 %. */
  lemma KpisOfOneRow()
    ensures var k := CalculateKpis([map[OfferedColumn := "10", AnsweredColumn := "8", AbandonedColumn := "2"]]);
      k.offered == 10 && k.ansPct == 80 && k.abnPct == 20 && k.flowOutPct == 0
  {
    var r := map[OfferedColumn := "10", AnsweredColumn := "8", AbandonedColumn := "2"];
    assert r[OfferedColumn] == "10" && r[AnsweredColumn] == "8" && r[AbandonedColumn] == "2";
    assert FlowOutsColumn !in r;
    assert DecimalText(10) == "10";
    CellOfDecimal(r, OfferedColumn, 10);
    assert DecimalText(8) == "8";
    CellOfDecimal(r, AnsweredColumn, 8);
    assert DecimalText(2) == "2";
    CellOfDecimal(r, AbandonedColumn, 2);
    SumOfOne(r, OfferedColumn);
    SumOfOne(r, AnsweredColumn);
    SumOfOne(r, AbandonedColumn);
    SumOfOne(r, FlowOutsColumn);
    var k := CalculateKpis([r]);
    RoundedPercentUnique(k.ansPct, 80, 8, 10);
    RoundedPercentUnique(k.abnPct, 20, 2, 10);
    RoundedPercentUnique(k.flowOutPct, 0, 0, 10);
  }

  /** One entry of groupByProgram's result: a line of business and its answered total. */
  datatype Group = Group(lob: string, value: int)

  /** `r["Program"] || "Unknown"`. */
  function ProgramOf(r: Row): string {
    if ProgramColumn in r && r[ProgramColumn] != "" then r[ProgramColumn] else UnknownProgram
  }

  function Programs(rows: seq<Row>): (keys: seq<string>)
    ensures |keys| == |rows| && forall i :: 0 <= i < |rows| ==> keys[i] == ProgramOf(rows[i])
  {
    seq(|rows|, i requires 0 <= i < |rows| => ProgramOf(rows[i]))
  }

  /** The distinct keys in the order of their first occurrence. */
  function FirstSeen(keys: seq<string>): (r: seq<string>)
    ensures forall x :: x in r <==> x in keys
    ensures forall i, j :: 0 <= i < j < |r| ==> r[i] != r[j]
  {
    if keys == [] then []
    else
      var prev := FirstSeen(keys[..|keys| - 1]);
      var x := keys[|keys| - 1];
      assert forall y :: y in keys <==> y in keys[..|keys| - 1] || y == x;
      if x in prev then prev else prev + [x]
  }

  /** The rows that groupByProgram counts under a line of business, in order. */
  function RowsOf(rows: seq<Row>, lob: string): (r: seq<Row>)
    ensures forall x :: x in r ==> ProgramOf(x) == lob
  {
    if rows == [] then []
    else
      var last := rows[|rows| - 1];
      RowsOf(rows[..|rows| - 1], lob) + (if ProgramOf(last) == lob then [last] else [])
  }

  /** One group per line of business in the given order, each with its answered total. */
  function GroupsFor(lobs: seq<string>, rows: seq<Row>): (groups: seq<Group>)
    ensures |groups| == |lobs|
  {
    if lobs == [] then []
    else [Group(lobs[0], Sum(RowsOf(rows, lobs[0]), AnsweredColumn))] + GroupsFor(lobs[1..], rows)
  }

  /** The k-th group is the k-th line of business with the answered total of its rows. */
  lemma {:induction false} GroupsForAt(lobs: seq<string>, rows: seq<Row>)
    ensures forall k :: 0 <= k < |lobs| ==>
      GroupsFor(lobs, rows)[k] == Group(lobs[k], Sum(RowsOf(rows, lobs[k]), AnsweredColumn))
  {
    if lobs != [] {
      GroupsForAt(lobs[1..], rows);
    }
  }

  /**
   * What groupByProgram computes: for each line of business in the order
   * the rows first name it, the answered total of its rows.
   */
  function ProgramTotals(rows: seq<Row>): seq<Group> {
    GroupsFor(FirstSeen(Programs(rows)), rows)
  }

  /**
   * groupByProgram's dictionary after the rows `seen`: each row's answered
   * count is added to the entry of its line of business, a missing entry
   * starting at 0.
   */
  function Tally(seen: seq<Row>): map<string, int> {
    if seen == [] then map[] else AddRow(Tally(seen[..|seen| - 1]), seen[|seen| - 1])
  }

  /** `if (!map[p]) map[p] = 0; map[p] += answered` for the row's line of business p. */
  function AddRow(m: map<string, int>, r: Row): map<string, int> {
    var p := ProgramOf(r);
    m[p := (if p in m then m[p] else 0) + Contribution(r, AnsweredColumn)]
  }

  /** One more row leaves the first-seen order alone or appends its own line of business. */
  lemma ProgramsExtend(seen: seq<Row>, r: Row)
    ensures FirstSeen(Programs(seen + [r])) ==
      var prev := FirstSeen(Programs(seen));
      if ProgramOf(r) in prev then prev else prev + [ProgramOf(r)]
  {
    var keys := Programs(seen + [r]);
    assert keys[..|keys| - 1] == Programs(seen);
  }

  /** One more row adds its answered count to the total of its own line of business only. */
  lemma RowsOfExtend(seen: seq<Row>, r: Row, lob: string)
    ensures Sum(RowsOf(seen + [r], lob), AnsweredColumn) ==
      Sum(RowsOf(seen, lob), AnsweredColumn) + (if ProgramOf(r) == lob then Contribution(r, AnsweredColumn) else 0)
  {
    var all := seen + [r];
    assert all[..|seen|] == seen;
    var extra := if ProgramOf(r) == lob then [r] else [];
    SumAppend(RowsOf(seen, lob), extra, AnsweredColumn);
    assert extra != [] ==> extra[..0] == [];
  }

  /** A line of business no row names has no rows. */
  lemma {:induction false} RowsOfAbsent(seen: seq<Row>, lob: string)
    requires lob !in Programs(seen)
    ensures RowsOf(seen, lob) == []
  {
    if seen != [] {
      var init := seen[..|seen| - 1];
      assert Programs(seen)[..|init|] == Programs(init);
      RowsOfAbsent(init, lob);
      assert Programs(seen)[|init|] == ProgramOf(seen[|init|]);
    }
  }

  /**
   * The dictionary's key order after one more row: unchanged when the row's
   * line of business already has an entry, that line appended otherwise.
   */
  lemma OrderStep(seen: seq<Row>, r: Row)
    ensures FirstSeen(Programs(seen + [r])) ==
      if ProgramOf(r) in Tally(seen) then FirstSeen(Programs(seen))
      else FirstSeen(Programs(seen)) + [ProgramOf(r)]
  {
    ProgramsExtend(seen, r);
    TallyKeys(seen, ProgramOf(r));
  }

  /** One more row updates only the entry of its own line of business. */
  lemma TallyExtend(seen: seq<Row>, r: Row)
    ensures Tally(seen + [r]) == AddRow(Tally(seen), r)
  {
  }

  /** The dictionary has an entry for exactly the lines of business the rows name. */
  lemma {:induction false} TallyKeys(seen: seq<Row>, lob: string)
    ensures lob in Tally(seen) <==> lob in Programs(seen)
  {
    if seen != [] {
      var init := seen[..|seen| - 1];
      var r := seen[|seen| - 1];
      TallyKeys(init, lob);
      assert Programs(seen) == Programs(init) + [ProgramOf(r)];
    }
  }

  /** Each entry of the dictionary is the answered total of its line's rows. */
  lemma {:induction false} TallyValue(seen: seq<Row>, lob: string)
    requires lob in Tally(seen)
    ensures Tally(seen)[lob] == Sum(RowsOf(seen, lob), AnsweredColumn)
  {
    var init := seen[..|seen| - 1];
    var r := seen[|seen| - 1];
    assert seen == init + [r];
    RowsOfExtend(init, r, lob);
    if lob in Tally(init) {
      TallyValue(init, lob);
    } else {
      TallyKeys(init, lob);
      RowsOfAbsent(init, lob);
    }
  }

  /**
   * groupByProgram: one pass over the rows that adds each row's answered
   * count to its line of business in a dictionary; the dictionary lists its
   * keys in insertion order, which `order` records.
   */
  method GroupByProgram(rows: seq<Row>) returns (groups: seq<Group>)
    ensures groups == ProgramTotals(rows)
  {
    var totals: map<string, int> := map[];
    var order: seq<string> := [];
    for i := 0 to |rows|
      invariant totals == Tally(rows[..i])
      invariant order == FirstSeen(Programs(rows[..i]))
    {
      assert rows[..i + 1] == rows[..i] + [rows[i]];
      TallyExtend(rows[..i], rows[i]);
      OrderStep(rows[..i], rows[i]);
      totals, order := CountRow(totals, order, rows[i]);
    }
    assert rows[..|rows|] == rows;
    TallyGroups(rows);
    groups := seq(|order|, k requires 0 <= k < |order| => Group(order[k], totals[order[k]]));
  }

  /**
   * The loop body of groupByProgram: `if (!map[program]) map[program] = 0;`
   * then `map[program] += answered`, a new key going to the end of the key
   * order.
   */
  method CountRow(totals: map<string, int>, order: seq<string>, r: Row)
      returns (totals': map<string, int>, order': seq<string>)
    ensures totals' == AddRow(totals, r)
    ensures order' == if ProgramOf(r) in totals then order else order + [ProgramOf(r)]
  {
    var program := ProgramOf(r);
    var answered := Contribution(r, AnsweredColumn);
    // A missing entry starts at 0 (an entry already 0 is reset to 0, which changes nothing).
    var current := if program in totals then totals[program] else 0;
    order' := order;
    if program !in totals {
      order' := order + [program];
    }
    totals' := totals[program := current + answered];
  }

  /** Listing the dictionary's entries in key order gives ProgramTotals. */
  lemma TallyGroups(rows: seq<Row>)
    ensures var order := FirstSeen(Programs(rows));
      && |ProgramTotals(rows)| == |order|
      && forall k :: 0 <= k < |order| ==>
        order[k] in Tally(rows) && ProgramTotals(rows)[k] == Group(order[k], Tally(rows)[order[k]])
  {
    var order := FirstSeen(Programs(rows));
    forall lob | lob in order
      ensures lob in Tally(rows) && Tally(rows)[lob] == Sum(RowsOf(rows, lob), AnsweredColumn)
    {
      TallyKeys(rows, lob);
      TallyValue(rows, lob);
    }
    GroupsForAt(order, rows);
  }

  /** The sum of the group values. */
  function Total(groups: seq<Group>): int {
    if groups == [] then 0 else groups[0].value + Total(groups[1..])
  }

  /** One more row adds its answered count to its own group, if listed, and to no other. */
  lemma {:induction false} GroupsForExtend(lobs: seq<string>, rows: seq<Row>, r: Row)
    requires forall i, j :: 0 <= i < j < |lobs| ==> lobs[i] != lobs[j]
    ensures Total(GroupsFor(lobs, rows + [r])) ==
      Total(GroupsFor(lobs, rows)) + (if ProgramOf(r) in lobs then Contribution(r, AnsweredColumn) else 0)
  {
    if lobs != [] {
      GroupsForExtend(lobs[1..], rows, r);
      var all := rows + [r];
      assert all[..|all| - 1] == rows;
      var extra := if ProgramOf(r) == lobs[0] then [r] else [];
      SumAppend(RowsOf(rows, lobs[0]), extra, AnsweredColumn);
      assert extra != [] ==> extra[..0] == [];
      assert ProgramOf(r) == lobs[0] ==> ProgramOf(r) !in lobs[1..];
      assert ProgramOf(r) in lobs <==> ProgramOf(r) == lobs[0] || ProgramOf(r) in lobs[1..];
    }
  }

  /** Distinct groups that cover every row's line of business share out the whole answered total. */
  lemma {:induction false} GroupsCoverTotal(lobs: seq<string>, rows: seq<Row>)
    requires forall i, j :: 0 <= i < j < |lobs| ==> lobs[i] != lobs[j]
    requires forall k :: 0 <= k < |rows| ==> ProgramOf(rows[k]) in lobs
    ensures Total(GroupsFor(lobs, rows)) == Sum(rows, AnsweredColumn)
  {
    if rows == [] {
      GroupsOfNoRows(lobs);
    } else {
      var init := rows[..|rows| - 1];
      GroupsCoverTotal(lobs, init);
      GroupsForExtend(lobs, init, rows[|rows| - 1]);
      assert init + [rows[|rows| - 1]] == rows;
    }
  }

  lemma {:induction false} GroupsOfNoRows(lobs: seq<string>)
    ensures Total(GroupsFor(lobs, [])) == 0
  {
    if lobs != [] {
      GroupsOfNoRows(lobs[1..]);
    }
  }

  /** The group values add up to the answered total of all rows. */
  lemma GroupTotalsConserveAnswered(rows: seq<Row>)
    ensures Total(ProgramTotals(rows)) == Sum(rows, AnsweredColumn)
  {
    var lobs := FirstSeen(Programs(rows));
    assert forall k :: 0 <= k < |rows| ==> Programs(rows)[k] in Programs(rows);
    GroupsCoverTotal(lobs, rows);
  }

  /** The first position of a key. */
  function FirstIndex(keys: seq<string>, x: string): (i: nat)
    requires x in keys
    ensures i < |keys| && keys[i] == x && forall j :: 0 <= j < i ==> keys[j] != x
  {
    if keys[0] == x then 0 else 1 + FirstIndex(keys[1..], x)
  }

  /** Keys appear in FirstSeen in the order of their first occurrence. */
  lemma {:induction false} FirstSeenOrder(keys: seq<string>)
    ensures forall i, j :: 0 <= i < j < |FirstSeen(keys)| ==>
      FirstIndex(keys, FirstSeen(keys)[i]) < FirstIndex(keys, FirstSeen(keys)[j])
  {
    if keys != [] {
      var init := keys[..|keys| - 1];
      var x := keys[|keys| - 1];
      FirstSeenOrder(init);
      var prev := FirstSeen(init);
      forall y | y in init ensures FirstIndex(keys, y) == FirstIndex(init, y) {
        var a, b := FirstIndex(keys, y), FirstIndex(init, y);
        assert keys[b] == y;
        assert init[a] == y || a == |init|;
      }
      if x !in prev {
        forall y | y in init ensures FirstIndex(init, y) < |init| { }
        assert FirstIndex(keys, x) == |init|;
      }
    }
  }

  /** The line of business of each group. */
  function Lobs(groups: seq<Group>): (lobs: seq<string>)
    ensures |lobs| == |groups| && forall k :: 0 <= k < |groups| ==> lobs[k] == groups[k].lob
  {
    seq(|groups|, k requires 0 <= k < |groups| => groups[k].lob)
  }

  /**
   * groupByProgram lists each line of business once, exactly those the rows
   * name ("Unknown" for a missing or empty Program), in the order the rows
   * first name them.
   */
  lemma GroupsInFirstSeenOrder(rows: seq<Row>)
    ensures var lobs := Lobs(ProgramTotals(rows));
      && (forall i, j :: 0 <= i < j < |lobs| ==> lobs[i] != lobs[j])
      && (forall lob :: lob in lobs <==> lob in Programs(rows))
      && (forall i, j :: 0 <= i < j < |lobs| ==>
            FirstIndex(Programs(rows), lobs[i]) < FirstIndex(Programs(rows), lobs[j]))
  {
    var keys := Programs(rows);
    FirstSeenOrder(keys);
    GroupsForAt(FirstSeen(keys), rows);
    assert Lobs(ProgramTotals(rows)) == FirstSeen(keys);
  }

  /** A row with a missing or empty Program is counted under "Unknown". */
  lemma BlankProgramIsUnknown(rows: seq<Row>, i: nat)
    requires i < |rows| && (ProgramColumn !in rows[i] || rows[i][ProgramColumn] == "")
    ensures UnknownProgram in Lobs(ProgramTotals(rows))
  {
    GroupsInFirstSeenOrder(rows);
    assert Programs(rows)[i] == UnknownProgram;
  }

  /** Two rows of program "A" answering 3 and 5 make one group of 8. */
  lemma OneProgramTwoRows()
    ensures ProgramTotals([map[ProgramColumn := "A", AnsweredColumn := "3"],
                           map[ProgramColumn := "A", AnsweredColumn := "5"]]) == [Group("A", 8)]
  {
    var r1 := map[ProgramColumn := "A", AnsweredColumn := "3"];
    var r2 := map[ProgramColumn := "A", AnsweredColumn := "5"];
    var rows := [r1, r2];
    var groups := ProgramTotals(rows);
    TwoRowsAnswered(r1, r2);
    GroupTotalsConserveAnswered(rows);
    GroupsInFirstSeenOrder(rows);
    assert r1[ProgramColumn] == "A" && r2[ProgramColumn] == "A";
    assert Programs(rows) == ["A", "A"];
    var lobs := Lobs(groups);
    assert "A" in lobs;
    assert groups[1..] == [];
  }

  lemma TwoRowsAnswered(r1: Row, r2: Row)
    requires r1 == map[ProgramColumn := "A", AnsweredColumn := "3"]
    requires r2 == map[ProgramColumn := "A", AnsweredColumn := "5"]
    ensures Sum([r1, r2], AnsweredColumn) == 8
  {
    assert r1[AnsweredColumn] == "3" && r2[AnsweredColumn] == "5";
    assert DecimalText(3) == "3";
    CellOfDecimal(r1, AnsweredColumn, 3);
    assert DecimalText(5) == "5";
    CellOfDecimal(r2, AnsweredColumn, 5);
    SumOfOne(r1, AnsweredColumn);
    SumOfOne(r2, AnsweredColumn);
    SumAppend([r1], [r2], AnsweredColumn);
    assert [r1] + [r2] == [r1, r2];
  }
}
