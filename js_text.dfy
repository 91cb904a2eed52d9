/**
 * The JavaScript string built-ins that the dashboard script relies on,
 * stated over Dafny strings (sequences of Unicode scalar values, which is
 * what `for (let char of line)` walks over):
 *   - String.prototype.trim and the ECMAScript white-space set,
 *   - `s.replace(/c/g, "")` and `s.replace(/c/g, d)` for single characters c and d,
 *   - `s.split(/\r?\n/)`,
 *   - String.prototype.toUpperCase restricted to ASCII letters,
 *   - Number(s) restricted to integer literals (None stands for NaN).
 */
module JsText {

  datatype Option<T> = None | Some(value: T)

  /** ECMAScript WhiteSpace and LineTerminator code points: what trim() removes. */
  predicate IsWhiteSpace(c: char) {
    c == '\U{0009}' || c == '\U{000B}' || c == '\U{000C}' || c == '\U{0020}' ||
    c == '\U{00A0}' || c == '\U{FEFF}' || c == '\U{1680}' ||
    ('\U{2000}' <= c <= '\U{200A}') || c == '\U{202F}' || c == '\U{205F}' ||
    c == '\U{3000}' ||
    c == '\U{000A}' || c == '\U{000D}' || c == '\U{2028}' || c == '\U{2029}'
  }

  /** No white space at either end. */
  predicate IsTrimmed(s: string) {
    |s| == 0 || (!IsWhiteSpace(s[0]) && !IsWhiteSpace(s[|s| - 1]))
  }

  predicate AllWhiteSpace(s: string) {
    forall k :: 0 <= k < |s| ==> IsWhiteSpace(s[k])
  }

  /** String.prototype.trim: white space dropped at both ends. */
  function Trim(s: string): (r: string)
    ensures IsTrimmed(r) && |r| <= |s|
    ensures r == "" <==> AllWhiteSpace(s)
  {
    if |s| > 0 && IsWhiteSpace(s[0]) then
      assert forall k :: 1 <= k < |s| ==> s[k] == s[1..][k - 1];
      Trim(s[1..])
    else if |s| > 0 && IsWhiteSpace(s[|s| - 1]) then
      assert forall k :: 0 <= k < |s| - 1 ==> s[k] == s[..|s| - 1][k];
      Trim(s[..|s| - 1])
    else s
  }

  /**
   * Trim(s) is the infix of s that starts at the returned index, with only
   * white space before and after it.
   */
  lemma {:induction false} TrimInfix(s: string) returns (i: nat)
    ensures i + |Trim(s)| <= |s| && Trim(s) == s[i..i + |Trim(s)|]
    ensures forall k :: 0 <= k < i ==> IsWhiteSpace(s[k])
    ensures forall k :: i + |Trim(s)| <= k < |s| ==> IsWhiteSpace(s[k])
  {
    if |s| > 0 && IsWhiteSpace(s[0]) {
      var j := TrimInfix(s[1..]);
      i := j + 1;
      forall k | 1 <= k < |s| ensures s[k] == s[1..][k - 1] { }
    } else if |s| > 0 && IsWhiteSpace(s[|s| - 1]) {
      i := TrimInfix(s[..|s| - 1]);
      forall k | 0 <= k < |s| - 1 ensures s[k] == s[..|s| - 1][k] { }
    } else {
      i := 0;
    }
  }

  /** A string that has no white space at either end is its own trim. */
  lemma TrimOfTrimmed(s: string)
    requires IsTrimmed(s)
    ensures Trim(s) == s
  {
  }

  /** trim() is idempotent. */
  lemma TrimIdempotent(s: string)
    ensures Trim(Trim(s)) == Trim(s)
  {
  }

  /** Trimming brings in no character: one absent from s is absent from Trim(s). */
  lemma TrimKeepsAbsent(s: string, c: char)
    requires c !in s
    ensures c !in Trim(s)
  {
  }

  /** `s.replace(/c/g, "")`: every occurrence of c removed, order kept. */
  function RemoveChar(s: string, c: char): (r: string)
    ensures c !in r && |r| <= |s|
  {
    if s == [] then []
    else
      assert s == [s[0]] + s[1..];
      (if s[0] == c then [] else [s[0]]) + RemoveChar(s[1..], c)
  }

  /** Removing a character distributes over concatenation. */
  lemma {:induction false} RemoveCharAppend(a: string, b: string, c: char)
    ensures RemoveChar(a + b, c) == RemoveChar(a, c) + RemoveChar(b, c)
  {
    if a != [] {
      var head := if a[0] == c then [] else [a[0]];
      assert (a + b)[0] == a[0];
      assert (a + b)[1..] == a[1..] + b;
      calc {
        RemoveChar(a + b, c);
        head + RemoveChar(a[1..] + b, c);
        { RemoveCharAppend(a[1..], b, c); }
        head + (RemoveChar(a[1..], c) + RemoveChar(b, c));
        (head + RemoveChar(a[1..], c)) + RemoveChar(b, c);
      }
    } else {
      assert a + b == b;
    }
  }

  /** Removing a character brings in no other character. */
  lemma {:induction false} RemoveCharKeepsAbsent(s: string, c: char, x: char)
    requires x !in s
    ensures x !in RemoveChar(s, c)
  {
    if s != [] {
      assert s == [s[0]] + s[1..];
      RemoveCharKeepsAbsent(s[1..], c, x);
    }
  }

  /** A string without c is unchanged by removing c. */
  lemma {:induction false} RemoveAbsentChar(s: string, c: char)
    requires c !in s
    ensures RemoveChar(s, c) == s
  {
    if s != [] { RemoveAbsentChar(s[1..], c); }
  }

  /**
   * `s.split(/\r?\n/)`: the pieces between line breaks, where a line break is
   * a "\n" together with one "\r" directly before it, if any.
   */
  function SplitLines(s: string): (lines: seq<string>)
    ensures |lines| >= 1
    ensures forall k :: 0 <= k < |lines| ==> '\n' !in lines[k]
  {
    if s == [] then [""]
    else if |s| >= 2 && s[0] == '\r' && s[1] == '\n' then [""] + SplitLines(s[2..])
    else if s[0] == '\n' then [""] + SplitLines(s[1..])
    else
      var rest := SplitLines(s[1..]);
      [[s[0]] + rest[0]] + rest[1..]
  }

  /** The pieces joined back with a separator. */
  function Join(pieces: seq<string>, sep: string): string
    requires |pieces| >= 1
  {
    if |pieces| == 1 then pieces[0] else pieces[0] + sep + Join(pieces[1..], sep)
  }

  /** Appending a piece appends the separator and the piece. */
  lemma {:induction false} JoinAppend(pieces: seq<string>, last: string, sep: string)
    requires |pieces| >= 1
    ensures Join(pieces + [last], sep) == Join(pieces, sep) + sep + last
  {
    if |pieces| > 1 {
      assert (pieces + [last])[1..] == pieces[1..] + [last];
      JoinAppend(pieces[1..], last, sep);
    }
  }

  /** Extending the last piece extends the joined text. */
  lemma ExtendLastPiece(pieces: seq<string>, more: string, sep: string)
    requires |pieces| >= 1
    ensures Join(pieces[..|pieces| - 1] + [pieces[|pieces| - 1] + more], sep) == Join(pieces, sep) + more
  {
    var n := |pieces|;
    if n > 1 {
      var init := pieces[..n - 1];
      JoinAppend(init, pieces[n - 1] + more, sep);
      JoinAppend(init, pieces[n - 1], sep);
      assert pieces == init + [pieces[n - 1]];
    }
  }

  /** Splitting a text without carriage returns is undone by joining with "\n". */
  lemma {:induction false} SplitLinesJoin(s: string)
    requires '\r' !in s
    ensures Join(SplitLines(s), "\n") == s
  {
    if s != [] {
      var rest := SplitLines(s[1..]);
      SplitLinesJoin(s[1..]);
      if s[0] == '\n' {
        assert SplitLines(s) == [""] + rest;
        assert s == "\n" + s[1..];
      } else {
        var lines := SplitLines(s);
        assert lines == [[s[0]] + rest[0]] + rest[1..];
        if |rest| == 1 {
          assert Join(lines, "\n") == [s[0]] + rest[0];
        } else {
          assert lines[1..] == rest[1..];
          assert Join(rest, "\n") == rest[0] + "\n" + Join(rest[1..], "\n");
          assert Join(lines, "\n") == [s[0]] + Join(rest, "\n");
        }
        assert s == [s[0]] + s[1..];
      }
    }
  }

  /** The text with every "\r\n" line break written as "\n". */
  function CrLfToLf(s: string): string {
    if s == [] then []
    else if |s| >= 2 && s[0] == '\r' && s[1] == '\n' then "\n" + CrLfToLf(s[2..])
    else [s[0]] + CrLfToLf(s[1..])
  }

  /**
   * Joining the pieces with "\n" gives the text with its "\r\n" breaks
   * written as "\n": the split loses nothing but the "\r" of those breaks.
   */
  lemma {:induction false} SplitLinesJoinCrLf(s: string)
    ensures Join(SplitLines(s), "\n") == CrLfToLf(s)
  {
    if s != [] {
      if |s| >= 2 && s[0] == '\r' && s[1] == '\n' {
        SplitLinesJoinCrLf(s[2..]);
        assert SplitLines(s) == [""] + SplitLines(s[2..]);
        assert ([""] + SplitLines(s[2..]))[1..] == SplitLines(s[2..]);
      } else if s[0] == '\n' {
        SplitLinesJoinCrLf(s[1..]);
        assert SplitLines(s) == [""] + SplitLines(s[1..]);
        assert ([""] + SplitLines(s[1..]))[1..] == SplitLines(s[1..]);
      } else {
        SplitLinesJoinCrLf(s[1..]);
        var rest := SplitLines(s[1..]);
        var lines := SplitLines(s);
        assert lines == [[s[0]] + rest[0]] + rest[1..];
        if |rest| == 1 {
          assert Join(lines, "\n") == [s[0]] + rest[0];
        } else {
          assert lines[1..] == rest[1..];
          assert Join(rest, "\n") == rest[0] + "\n" + Join(rest[1..], "\n");
          assert Join(lines, "\n") == [s[0]] + Join(rest, "\n");
        }
      }
    }
  }

  /** split(/\r?\n/) yields one piece more than the text has line feeds. */
  lemma {:induction false} SplitLinesCount(s: string)
    requires '\r' !in s
    ensures |SplitLines(s)| == multiset(s)['\n'] + 1
  {
    if s != [] {
      assert s == [s[0]] + s[1..];
      SplitLinesCount(s[1..]);
    }
  }

  /**
   * `s.replace(/c/g, d)` for single characters c and d: no c is left (unless
   * d is c), and the only character that can be new is d.
   */
  function ReplaceChar(s: string, c: char, d: char): (r: string)
    ensures |r| == |s|
    ensures c != d ==> c !in r
    ensures forall x :: x in r ==> x == d || x in s
    ensures d in r <==> d in s || c in s
  {
    var r := seq(|s|, k requires 0 <= k < |s| => if s[k] == c then d else s[k]);
    assert forall k :: 0 <= k < |s| && (s[k] == c || s[k] == d) ==> r[k] == d;
    r
  }

  /** String.prototype.toUpperCase on the ASCII letters; other characters are kept. */
  function UpperCase(s: string): (r: string)
    ensures |r| == |s|
    ensures forall k :: 0 <= k < |s| ==> !('a' <= r[k] <= 'z')
    ensures forall k :: 0 <= k < |s| && 'a' <= s[k] <= 'z' ==> r[k] as int == s[k] as int - 32
    ensures forall k :: 0 <= k < |s| && !('a' <= s[k] <= 'z') ==> r[k] == s[k]
  {
    seq(|s|, k requires 0 <= k < |s| =>
      if 'a' <= s[k] <= 'z' then (s[k] as int - 32) as char else s[k])
  }

  predicate IsDigit(c: char) {
    '0' <= c <= '9'
  }

  predicate IsDigits(s: string) {
    |s| > 0 && forall k :: 0 <= k < |s| ==> IsDigit(s[k])
  }

  /** The value of a run of decimal digits, most significant first. */
  function DigitsValue(s: string): (n: nat)
    requires forall k :: 0 <= k < |s| ==> IsDigit(s[k])
  {
    if s == [] then 0
    else
      assert IsDigit(s[|s| - 1]);
      DigitsValue(s[..|s| - 1]) * 10 + (s[|s| - 1] as int - '0' as int)
  }

  /**
   * Number(s) on strings: surrounding white space is ignored, a blank string
   * is 0, an optionally signed run of decimal digits is its value, and
   * anything else is NaN (None).
   */
  function NumberValue(s: string): (r: Option<int>)
    ensures AllWhiteSpace(s) ==> r == Some(0)
  {
    var t := Trim(s);
    if t == "" then Some(0)
    else if t[0] == '-' && IsDigits(t[1..]) then Some(-(DigitsValue(t[1..]) as int))
    else if t[0] == '+' && IsDigits(t[1..]) then Some(DigitsValue(t[1..]))
    else if IsDigits(t) then Some(DigitsValue(t))
    else None
  }

  /**
   * A character that occurs in some string Number() reads as a number: white
   * space, a digit, a sign, the decimal point, a hexadecimal digit (which
   * covers the exponent letters and the radix letter b), the radix letters x
   * and o, and the letters of "Infinity".
   */
  predicate MayBeNumeric(c: char) {
    IsWhiteSpace(c) || IsDigit(c) || c == '+' || c == '-' || c == '.' ||
    ('a' <= c <= 'f') || ('A' <= c <= 'F') || c in "xXoOInity"
  }

  /**
   * A string holding a character that no numeric string holds (a thousands
   * separator ",", a currency sign, a "%") is NaN, in JavaScript and here.
   */
  lemma NumberRejects(s: string, k: nat)
    requires k < |s| && !MayBeNumeric(s[k])
    ensures NumberValue(s) == None
  {
    var t := Trim(s);
    var i := TrimInfix(s);
    assert i <= k < i + |t| && s[k] == t[k - i];
    if k - i > 0 {
      assert t[k - i] == t[1..][k - i - 1];
    }
  }

  /** The decimal digits of a natural number, as String(n) writes them. */
  function DecimalDigits(n: nat): (s: string)
    ensures IsDigits(s)
  {
    var d := ['0' + (n % 10) as char];
    if n < 10 then d else DecimalDigits(n / 10) + d
  }

  /** String(n) for an integer n. */
  function DecimalText(n: int): string {
    if n < 0 then "-" + DecimalDigits(-n) else DecimalDigits(n)
  }

  lemma {:induction false} DigitsValueOfDecimal(n: nat)
    ensures DigitsValue(DecimalDigits(n)) == n
  {
    var s := DecimalDigits(n);
    if n >= 10 {
      DigitsValueOfDecimal(n / 10);
      assert s[..|s| - 1] == DecimalDigits(n / 10);
    }
  }

  /** Number(String(n)) == n for every integer n. */
  lemma NumberOfDecimalText(n: int)
    ensures NumberValue(DecimalText(n)) == Some(n)
  {
    if n < 0 {
      DigitsValueOfDecimal(-n);
      NumberOfNegatedDigits(DecimalDigits(-n));
    } else {
      DigitsValueOfDecimal(n);
      NumberOfDigits(DecimalDigits(n));
    }
  }

  /** A run of decimal digits reads as its value. */
  lemma NumberOfDigits(s: string)
    requires IsDigits(s)
    ensures NumberValue(s) == Some(DigitsValue(s))
  {
  }

  /** A minus sign before a run of decimal digits reads as the negated value. */
  lemma NumberOfNegatedDigits(s: string)
    requires IsDigits(s)
    ensures NumberValue("-" + s) == Some(-(DigitsValue(s) as int))
  {
  }
}
