/** The pieces of Python's string handling the library relies on:
    `str.join`, `str(int)`, `str.splitlines`, `str.strip` and
    `textwrap.indent`. */
module Text {
  import opened Results

  /** `sep.join(parts)`. */
  function Join(sep: string, parts: seq<string>): string {
    if |parts| == 0 then ""
    else if |parts| == 1 then parts[0]
    else parts[0] + sep + Join(sep, parts[1..])
  }

  function Concat(parts: seq<string>): string {
    if |parts| == 0 then "" else parts[0] + Concat(parts[1..])
  }

  lemma {:induction false} JoinEmptySepIsConcat(parts: seq<string>)
    ensures Join("", parts) == Concat(parts)
  {
    if |parts| > 1 {
      JoinEmptySepIsConcat(parts[1..]);
    } else if |parts| == 1 {
      assert parts[1..] == [];
    }
  }

  /** Re-brackets a concatenation of four strings. */
  lemma Assoc4(a: string, b: string, c: string, d: string)
    ensures a + b + c + d == a + (b + c + d)
  {
  }

  /** Re-brackets a concatenation of five strings. */
  lemma Assoc5(a: string, b: string, c: string, d: string, e: string)
    ensures a + b + c + d + e == a + (b + c + d + e)
  {
  }

  // ---------------------------------------------------------------------
  // Decimal integers, as `str(int)` writes them

  function DigitChar(d: nat): char
    requires d < 10
  {
    "0123456789"[d]
  }

  function DigitValue(c: char): nat
    requires IsDigit(c)
  {
    (c as int - '0' as int) as nat
  }

  predicate IsDigit(c: char) {
    '0' <= c <= '9'
  }

  /** The decimal digits of `n`, without leading zeros ("0" for zero). */
  function NatDigits(n: nat): (s: string)
    ensures |s| > 0 && forall i | 0 <= i < |s| :: IsDigit(s[i])
    ensures |s| > 1 ==> s[0] != '0'
  {
    if n < 10 then [DigitChar(n)] else NatDigits(n / 10) + [DigitChar(n % 10)]
  }

  /** `str(i)` for a Python `int`. */
  function IntToString(i: int): string {
    if i < 0 then "-" + NatDigits(-i) else NatDigits(i)
  }

  /** The value of a string of decimal digits. */
  function DigitsValue(s: string): nat
    requires forall i | 0 <= i < |s| :: IsDigit(s[i])
  {
    if |s| == 0 then 0 else DigitsValue(s[..|s| - 1]) * 10 + DigitValue(s[|s| - 1])
  }

  predicate AllDigits(s: string) {
    forall i | 0 <= i < |s| :: IsDigit(s[i])
  }

  /** Digits in GraphQL's `IntValue` syntax: no leading zero. */
  predicate IsUnsignedIntValue(digits: string) {
    |digits| > 0 && AllDigits(digits) && (|digits| > 1 ==> digits[0] != '0')
  }

  /** An integer in GraphQL's `IntValue` syntax: an optional minus sign and
      digits without a leading zero. */
  predicate IsIntValue(s: string) {
    if |s| > 0 && s[0] == '-' then IsUnsignedIntValue(s[1..]) else IsUnsignedIntValue(s)
  }

  /** Reads back an integer written in `IntValue` syntax. */
  function ParseInt(s: string): Option<int> {
    if |s| > 0 && s[0] == '-' then
      if IsUnsignedIntValue(s[1..]) then Some(0 - DigitsValue(s[1..]) as int) else None
    else if IsUnsignedIntValue(s) then Some(DigitsValue(s))
    else None
  }

  lemma {:induction false} NatDigitsValue(n: nat)
    ensures DigitsValue(NatDigits(n)) == n
  {
    if n >= 10 {
      NatDigitsValue(n / 10);
      var s := NatDigits(n);
      assert s[..|s| - 1] == NatDigits(n / 10);
    }
  }

  /** `str(i)` is a GraphQL integer literal denoting `i`. */
  lemma IntToStringRoundTrip(i: int)
    ensures IsIntValue(IntToString(i))
    ensures ParseInt(IntToString(i)) == Some(i)
  {
    var s := IntToString(i);
    if i < 0 {
      var d := NatDigits(-i);
      NatDigitsValue(-i);
      assert s == "-" + d;
      assert s[1..] == d;
      assert IsUnsignedIntValue(d);
    } else {
      var d := NatDigits(i);
      NatDigitsValue(i);
      assert IsUnsignedIntValue(d);
      assert d[0] != '-';
    }
  }

  // ---------------------------------------------------------------------
  // Lines and indentation

  /** The characters `str.splitlines` ends a line at. */
  predicate IsLineBoundary(c: char) {
    var n := c as int;
    || n == 0x0A || n == 0x0B || n == 0x0C || n == 0x0D
    || n == 0x1C || n == 0x1D || n == 0x1E
    || n == 0x85 || n == 0x2028 || n == 0x2029
  }

  /** The characters `str.strip()` removes (those `str.isspace` accepts). */
  predicate IsSpace(c: char) {
    var n := c as int;
    || (0x09 <= n <= 0x0D) || (0x1C <= n <= 0x20) || n == 0x85 || n == 0xA0 || n == 0x1680
    || (0x2000 <= n <= 0x200A) || n == 0x2028 || n == 0x2029 || n == 0x202F || n == 0x205F || n == 0x3000
  }

  predicate AllSpace(s: string) {
    forall i | 0 <= i < |s| :: IsSpace(s[i])
  }

  /** The length of the first line of `s` including its line ending, as
      `str.splitlines(keepends=True)` cuts it (`\r\n` is one ending). */
  function FirstLineLength(s: string, isBoundary: char -> bool): (n: nat)
    requires |s| > 0
    ensures 0 < n <= |s|
  {
    if isBoundary(s[0]) then
      if s[0] == '\r' && |s| > 1 && s[1] == '\n' then 2 else 1
    else if |s| == 1 then 1
    else 1 + FirstLineLength(s[1..], isBoundary)
  }

  /** The lines of `s` with their endings, cut at the characters `isBoundary` accepts. */
  function SplitLinesKeepEnds(s: string, isBoundary: char -> bool): (lines: seq<string>)
    ensures Concat(lines) == s
    ensures forall i | 0 <= i < |lines| :: |lines[i]| > 0
    decreases |s|
  {
    if |s| == 0 then []
    else
      var n := FirstLineLength(s, isBoundary);
      var rest := SplitLinesKeepEnds(s[n..], isBoundary);
      assert s == s[..n] + s[n..];
      [s[..n]] + rest
  }

  function PrefixLines(lines: seq<string>, prefix: string): (r: seq<string>)
    ensures |r| == |lines|
    ensures forall i | 0 <= i < |lines| :: r[i] == if AllSpace(lines[i]) then lines[i] else prefix + lines[i]
  {
    if |lines| == 0 then []
    else [if AllSpace(lines[0]) then lines[0] else prefix + lines[0]] + PrefixLines(lines[1..], prefix)
  }

  /** `textwrap.indent(text, prefix)`: prefix every line of `text` that is
      not whitespace only, with lines as `str.splitlines` cuts them. */
  function Indent(text: string, prefix: string): string {
    Concat(PrefixLines(SplitLinesKeepEnds(text, IsLineBoundary), prefix))
  }

  predicate IsNewline(c: char) {
    c == '\n'
  }

  /** Indentation cut at newline characters only. */
  function IndentAtNewlines(text: string, prefix: string): string {
    Concat(PrefixLines(SplitLinesKeepEnds(text, IsNewline), prefix))
  }

  predicate NoNewline(s: string) {
    forall i | 0 <= i < |s| :: s[i] != '\n'
  }

  lemma NoNewlineAppend(a: string, b: string)
    ensures NoNewline(a + b) <==> NoNewline(a) && NoNewline(b)
  {
    assert forall i | 0 <= i < |a| :: (a + b)[i] == a[i];
    assert forall i | 0 <= i < |b| :: (a + b)[|a| + i] == b[i];
  }

  lemma {:induction false} NoNewlineJoin(sep: string, parts: seq<string>)
    requires NoNewline(sep)
    requires forall i | 0 <= i < |parts| :: NoNewline(parts[i])
    ensures NoNewline(Join(sep, parts))
  {
    if |parts| > 1 {
      NoNewlineJoin(sep, parts[1..]);
      NoNewlineAppend(parts[0], sep);
      NoNewlineAppend(parts[0] + sep, Join(sep, parts[1..]));
    }
  }

  /** A line of rendered text: no newline in it, and not whitespace only. */
  predicate GoodLine(s: string) {
    NoNewline(s) && !AllSpace(s)
  }

  function PrefixEach(lines: seq<string>, prefix: string): (r: seq<string>)
    ensures |r| == |lines| && forall i | 0 <= i < |lines| :: r[i] == prefix + lines[i]
  {
    if |lines| == 0 then [] else [prefix + lines[0]] + PrefixEach(lines[1..], prefix)
  }

  lemma PrefixEachCons(x: string, xs: seq<string>, prefix: string)
    ensures PrefixEach([x] + xs, prefix) == [prefix + x] + PrefixEach(xs, prefix)
  {
    assert ([x] + xs)[1..] == xs;
  }

  lemma {:induction false} FirstLineWithoutNewline(l: string, rest: string)
    requires NoNewline(l)
    ensures |l| > 0 && |rest| == 0 ==> FirstLineLength(l, IsNewline) == |l|
    ensures FirstLineLength(l + "\n" + rest, IsNewline) == |l| + 1
  {
    if |l| > 0 {
      assert (l + "\n" + rest)[1..] == l[1..] + "\n" + rest;
      FirstLineWithoutNewline(l[1..], rest);
    }
  }

  lemma JoinCons(sep: string, x: string, rest: seq<string>)
    requires |rest| > 0
    ensures Join(sep, [x] + rest) == x + sep + Join(sep, rest)
  {
    assert ([x] + rest)[1..] == rest;
  }

  lemma {:induction false} JoinAppend(sep: string, a: seq<string>, b: seq<string>)
    requires |a| > 0 && |b| > 0
    ensures Join(sep, a + b) == Join(sep, a) + sep + Join(sep, b)
  {
    if |a| == 1 {
      JoinCons(sep, a[0], b);
      assert [a[0]] + b == a + b;
    } else {
      JoinAppend(sep, a[1..], b);
      assert (a + b)[1..] == a[1..] + b;
    }
  }

  lemma SplitSingleLine(l: string)
    requires |l| > 0 && NoNewline(l)
    ensures SplitLinesKeepEnds(l, IsNewline) == [l]
  {
    FirstLineWithoutNewline(l, "");
    assert l[..|l|] == l;
    assert SplitLinesKeepEnds(l[|l|..], IsNewline) == [];
  }

  lemma SplitFirstLine(l: string, rest: string)
    requires NoNewline(l)
    ensures SplitLinesKeepEnds(l + "\n" + rest, IsNewline) == [l + "\n"] + SplitLinesKeepEnds(rest, IsNewline)
  {
    var text := l + "\n" + rest;
    FirstLineWithoutNewline(l, rest);
    assert text[..|l| + 1] == l + "\n";
    assert text[|l| + 1..] == rest;
  }

  lemma NotSpaceWithNewline(l: string)
    requires !AllSpace(l)
    ensures !AllSpace(l + "\n")
  {
    var k :| 0 <= k < |l| && !IsSpace(l[k]);
    assert (l + "\n")[k] == l[k];
  }

  /** Indenting newline-separated lines prefixes each of them. */
  lemma {:induction false} IndentJoin(lines: seq<string>, prefix: string)
    requires |lines| > 0
    requires forall i | 0 <= i < |lines| :: GoodLine(lines[i])
    ensures IndentAtNewlines(Join("\n", lines), prefix) == Join("\n", PrefixEach(lines, prefix))
  {
    var l := lines[0];
    assert GoodLine(l);
    if |lines| == 1 {
      var k :| 0 <= k < |l| && !IsSpace(l[k]);
      SplitSingleLine(l);
    } else {
      var rest := lines[1..];
      IndentJoin(rest, prefix);
      IndentFirstLine(l, rest, prefix);
    }
  }

  /** One more line ahead of lines already known to indent line by line. */
  lemma IndentFirstLine(l: string, rest: seq<string>, prefix: string)
    requires GoodLine(l) && |rest| > 0
    requires IndentAtNewlines(Join("\n", rest), prefix) == Join("\n", PrefixEach(rest, prefix))
    ensures IndentAtNewlines(Join("\n", [l] + rest), prefix) == Join("\n", PrefixEach([l] + rest, prefix))
  {
    var tail := Join("\n", rest);
    var lines := SplitLinesKeepEnds(tail, IsNewline);
    calc {
      IndentAtNewlines(Join("\n", [l] + rest), prefix);
      { JoinCons("\n", l, rest); }
      Concat(PrefixLines(SplitLinesKeepEnds(l + "\n" + tail, IsNewline), prefix));
      { SplitFirstLine(l, tail); }
      Concat(PrefixLines([l + "\n"] + lines, prefix));
      { NotSpaceWithNewline(l); PrefixLinesCons(l + "\n", lines, prefix); }
      Concat([prefix + (l + "\n")] + PrefixLines(lines, prefix));
      { ConcatCons(prefix + (l + "\n"), PrefixLines(lines, prefix)); }
      prefix + (l + "\n") + IndentAtNewlines(tail, prefix);
      prefix + l + "\n" + Join("\n", PrefixEach(rest, prefix));
      { JoinCons("\n", prefix + l, PrefixEach(rest, prefix)); }
      Join("\n", [prefix + l] + PrefixEach(rest, prefix));
      { assert PrefixEach([l] + rest, prefix) == [prefix + l] + PrefixEach(rest, prefix); }
      Join("\n", PrefixEach([l] + rest, prefix));
    }
  }

  lemma PrefixLinesCons(line: string, lines: seq<string>, prefix: string)
    requires !AllSpace(line)
    ensures PrefixLines([line] + lines, prefix) == [prefix + line] + PrefixLines(lines, prefix)
  {
    assert ([line] + lines)[1..] == lines;
  }

  lemma ConcatCons(x: string, xs: seq<string>)
    ensures Concat([x] + xs) == x + Concat(xs)
  {
    assert ([x] + xs)[1..] == xs;
  }

  // ---------------------------------------------------------------------
  // Where `textwrap.indent` and indentation at newlines differ

  /** Text whose only line boundaries are newline characters. */
  predicate OnlyNewlineBreaks(s: string) {
    forall i | 0 <= i < |s| :: IsLineBoundary(s[i]) ==> s[i] == '\n'
  }

  lemma {:induction false} FirstLineAgrees(s: string)
    requires |s| > 0 && OnlyNewlineBreaks(s)
    ensures FirstLineLength(s, IsLineBoundary) == FirstLineLength(s, IsNewline)
  {
    if !IsLineBoundary(s[0]) && |s| > 1 {
      FirstLineAgrees(s[1..]);
    }
  }

  lemma {:induction false} SplitAgrees(s: string)
    requires OnlyNewlineBreaks(s)
    ensures SplitLinesKeepEnds(s, IsLineBoundary) == SplitLinesKeepEnds(s, IsNewline)
    decreases |s|
  {
    if |s| > 0 {
      FirstLineAgrees(s);
      var n := FirstLineLength(s, IsNewline);
      SplitAgrees(s[n..]);
    }
  }

  lemma OnlyNewlineBreaksAppend(a: string, b: string)
    ensures OnlyNewlineBreaks(a + b) <==> OnlyNewlineBreaks(a) && OnlyNewlineBreaks(b)
  {
    assert forall i | 0 <= i < |a| :: (a + b)[i] == a[i];
    assert forall i | 0 <= i < |b| :: (a + b)[|a| + i] == b[i];
  }

  lemma {:induction false} OnlyNewlineBreaksJoin(sep: string, parts: seq<string>)
    requires OnlyNewlineBreaks(sep)
    requires forall i | 0 <= i < |parts| :: OnlyNewlineBreaks(parts[i])
    ensures OnlyNewlineBreaks(Join(sep, parts))
  {
    if |parts| > 1 {
      OnlyNewlineBreaksJoin(sep, parts[1..]);
      OnlyNewlineBreaksAppend(parts[0], sep);
      OnlyNewlineBreaksAppend(parts[0] + sep, Join(sep, parts[1..]));
    }
  }

  /** On text without line boundaries other than newlines, `textwrap.indent`
      and indentation at newlines agree. */
  lemma IndentAgrees(text: string, prefix: string)
    requires OnlyNewlineBreaks(text)
    ensures Indent(text, prefix) == IndentAtNewlines(text, prefix)
  {
    SplitAgrees(text);
  }

  /** A line ended by a line boundary other than a carriage return. */
  lemma {:induction false} FirstLineEndsAt(l: string, c: char, rest: string)
    requires forall i | 0 <= i < |l| :: !IsLineBoundary(l[i])
    requires IsLineBoundary(c) && c != '\r'
    ensures FirstLineLength(l + [c] + rest, IsLineBoundary) == |l| + 1
  {
    if |l| > 0 {
      assert (l + [c] + rest)[1..] == l[1..] + [c] + rest;
      FirstLineEndsAt(l[1..], c, rest);
    }
  }

  lemma {:induction false} FirstLineWhole(l: string)
    requires |l| > 0 && forall i | 0 <= i < |l| :: !IsLineBoundary(l[i])
    ensures FirstLineLength(l, IsLineBoundary) == |l|
  {
    if |l| > 1 {
      FirstLineWhole(l[1..]);
    }
  }

  /** `textwrap.indent` on two lines separated by a line boundary other than
      a newline or carriage return prefixes both. */
  lemma IndentTwoLines(l1: string, c: char, l2: string, prefix: string)
    requires forall i | 0 <= i < |l1| :: !IsLineBoundary(l1[i])
    requires |l2| > 0 && forall i | 0 <= i < |l2| :: !IsLineBoundary(l2[i])
    requires IsLineBoundary(c) && c != '\r'
    requires !AllSpace(l1) && !AllSpace(l2)
    ensures Indent(l1 + [c] + l2, prefix) == prefix + (l1 + [c]) + (prefix + l2)
  {
    var s := l1 + [c] + l2;
    FirstLineEndsAt(l1, c, l2);
    assert s[..|l1| + 1] == l1 + [c];
    assert s[|l1| + 1..] == l2;
    FirstLineWhole(l2);
    assert l2[..|l2|] == l2;
    assert SplitLinesKeepEnds(l2[|l2|..], IsLineBoundary) == [];
    assert SplitLinesKeepEnds(l2, IsLineBoundary) == [l2];
    assert SplitLinesKeepEnds(s, IsLineBoundary) == [l1 + [c], l2];
    var k :| 0 <= k < |l1| && !IsSpace(l1[k]);
    assert (l1 + [c])[k] == l1[k];
    assert PrefixLines([l1 + [c], l2], prefix) == [prefix + (l1 + [c]), prefix + l2];
    assert Concat([prefix + (l1 + [c]), prefix + l2]) == prefix + (l1 + [c]) + (prefix + l2 + "");
  }
}
