/** String escaping for GraphQL string literals: the seven-entry
    `_ESCAPE_PATTERNS` table shared by quiz/build.py, src/quiz/build.py and
    quiz/core.py, the `escape` function built on it, and a decoder for
    GraphQL string bodies that serves as its inverse. */
module Escape {
  import opened Results

  const Backspace: char := 8 as char
  const FormFeed: char := 12 as char

  /** The keys of `_ESCAPE_PATTERNS`: backspace, form feed, newline,
      carriage return, tab, backslash and double quote. */
  predicate IsEscaped(c: char) {
    c == Backspace || c == FormFeed || c == '\n' || c == '\r' || c == '\t' || c == '\\' || c == '"'
  }

  /** The replacement `escape` substitutes for one character: the entry of
      `_ESCAPE_PATTERNS` for the seven characters, the character itself otherwise. */
  function EscapeChar(c: char): (r: string)
    ensures IsEscaped(c) ==> |r| == 2 && r[0] == '\\' && SimpleEscape(r[1]) == Some(c)
    ensures !IsEscaped(c) ==> r == [c]
  {
    if c == Backspace then "\\b"
    else if c == FormFeed then "\\f"
    else if c == '\n' then "\\n"
    else if c == '\r' then "\\r"
    else if c == '\t' then "\\t"
    else if c == '\\' then "\\\\"
    else if c == '"' then "\\\""
    else [c]
  }

  /** `escape(txt)`: every character of the table replaced by its escape
      sequence, every other character kept. */
  function Escape(s: string): (r: string)
    ensures |r| >= |s|
  {
    if |s| == 0 then "" else EscapeChar(s[0]) + Escape(s[1..])
  }

  /** A string without any of the seven characters comes out of `escape` unchanged, and only such a string does. */
  lemma {:induction false} EscapeFixedPoints(s: string)
    ensures Escape(s) == s <==> forall i | 0 <= i < |s| :: !IsEscaped(s[i])
  {
    if |s| > 0 {
      EscapeFixedPoints(s[1..]);
      if IsEscaped(s[0]) {
        EscapeLength(s[1..]);
      }
      assert forall i | 1 <= i < |s| :: s[1..][i - 1] == s[i];
    }
  }

  lemma {:induction false} EscapeLength(s: string)
    ensures |Escape(s)| >= |s|
  {
  }

  // ---------------------------------------------------------------------
  // Decoding GraphQL string bodies

  predicate IsControl(c: char) {
    c < ' ' && c != '\t'
  }

  function HexDigit(n: nat): char
    requires n < 16
  {
    "0123456789ABCDEF"[n]
  }

  function HexValue(c: char): Option<nat> {
    if '0' <= c <= '9' then Some(c as int - '0' as int)
    else if 'A' <= c <= 'F' then Some(c as int - 'A' as int + 10)
    else if 'a' <= c <= 'f' then Some(c as int - 'a' as int + 10)
    else None
  }

  /** The code point of four hexadecimal digits, if it is a character. */
  function HexChar(h: string): Option<char>
    requires |h| == 4
  {
    match (HexValue(h[0]), HexValue(h[1]), HexValue(h[2]), HexValue(h[3]))
    case (Some(a), Some(b), Some(c), Some(d)) =>
      var n := ((a * 16 + b) * 16 + c) * 16 + d;
      if n < 0xD800 || 0xE000 <= n then Some(n as char) else None
    case _ => None
  }

  /** The character an escape sequence `\c` stands for (section 2.9.4 of the
      GraphQL specification, June 2018), apart from `\u`. */
  function SimpleEscape(c: char): Option<char> {
    if c == '"' then Some('"')
    else if c == '\\' then Some('\\')
    else if c == '/' then Some('/')
    else if c == 'b' then Some(Backspace)
    else if c == 'f' then Some(FormFeed)
    else if c == 'n' then Some('\n')
    else if c == 'r' then Some('\r')
    else if c == 't' then Some('\t')
    else None
  }

  /** The characters a GraphQL string body denotes, or `None` when it is not a
      valid body: a bare quote, a bare line terminator or control character,
      or a backslash that starts no escape sequence. */
  function Unescape(s: string): Option<string>
    decreases |s|
  {
    if |s| == 0 then Some("")
    else if s[0] == '\\' then
      if |s| >= 2 && SimpleEscape(s[1]).Some? then
        match Unescape(s[2..])
        case Some(rest) => Some([SimpleEscape(s[1]).value] + rest)
        case None => None
      else if |s| >= 6 && s[1] == 'u' && HexChar(s[2..6]).Some? then
        match Unescape(s[6..])
        case Some(rest) => Some([HexChar(s[2..6]).value] + rest)
        case None => None
      else None
    else if s[0] == '"' || IsControl(s[0]) then None
    else
      match Unescape(s[1..])
      case Some(rest) => Some([s[0]] + rest)
      case None => None
  }

  lemma EscapeCharDecodes(c: char, rest: string)
    requires !IsControl(c) || IsEscaped(c)
    ensures Unescape(EscapeChar(c) + rest) == match Unescape(rest) case Some(r) => Some([c] + r) case None => None
  {
    var e := EscapeChar(c);
    if IsEscaped(c) {
      assert (e + rest)[2..] == rest;
    } else {
      assert (e + rest)[1..] == rest;
    }
  }

  /** Decoding undoes `escape` on every string without bare control
      characters other than the tab, newline, carriage return, backspace and form feed it handles. */
  lemma {:induction false} EscapeRoundTrip(s: string)
    requires forall i | 0 <= i < |s| :: !IsControl(s[i]) || IsEscaped(s[i])
    ensures Unescape(Escape(s)) == Some(s)
  {
    if |s| > 0 {
      assert forall i | 0 <= i < |s| - 1 :: s[1..][i] == s[i + 1];
      EscapeRoundTrip(s[1..]);
      EscapeCharDecodes(s[0], Escape(s[1..]));
      assert [s[0]] + s[1..] == s;
    }
  }

  /** A control character outside the table passes through `escape` bare,
      and the result is not a valid GraphQL string body. */
  lemma EscapeLeavesControlCharacters()
    ensures Escape([1 as char]) == [1 as char]
    ensures Unescape(Escape([1 as char])) == None
  {
    assert !IsEscaped(1 as char);
    assert [1 as char][1..] == [];
  }

  // ---------------------------------------------------------------------
  // Escaping every control character

  /** The replacement for one character when control characters outside
      the table are written as `\u00XX` escapes. */
  function EscapeCharFull(c: char): (r: string)
    ensures IsEscaped(c) ==> r == EscapeChar(c)
    ensures !IsEscaped(c) && !IsControl(c) ==> r == [c]
  {
    if IsEscaped(c) then EscapeChar(c)
    else if IsControl(c) then "\\u00" + [HexDigit(c as int / 16), HexDigit(c as int % 16)]
    else [c]
  }

  /** `escape` with every control character escaped. */
  function EscapeFull(s: string): (r: string)
    ensures |r| >= |s|
  {
    if |s| == 0 then "" else EscapeCharFull(s[0]) + EscapeFull(s[1..])
  }

  lemma EscapeCharFullDecodes(c: char, rest: string)
    ensures Unescape(EscapeCharFull(c) + rest) == match Unescape(rest) case Some(r) => Some([c] + r) case None => None
  {
    var e := EscapeCharFull(c);
    if IsEscaped(c) {
      EscapeCharDecodes(c, rest);
    } else if IsControl(c) {
      var n := c as int;
      assert (e + rest)[2..6] == e[2..6] == ['0', '0', HexDigit(n / 16), HexDigit(n % 16)];
      assert HexValue(HexDigit(n / 16)) == Some(n / 16);
      assert HexValue(HexDigit(n % 16)) == Some(n % 16);
      assert HexChar((e + rest)[2..6]) == Some(c);
      assert (e + rest)[6..] == rest;
    } else {
      assert (e + rest)[1..] == rest;
    }
  }

  /** Decoding undoes the full escaping on every string. */
  lemma {:induction false} EscapeFullRoundTrip(s: string)
    ensures Unescape(EscapeFull(s)) == Some(s)
  {
    if |s| > 0 {
      EscapeFullRoundTrip(s[1..]);
      EscapeCharFullDecodes(s[0], EscapeFull(s[1..]));
      assert [s[0]] + s[1..] == s;
    }
  }

  /** On strings without bare control characters outside the table, the full
      escaping and `escape` agree. */
  lemma {:induction false} EscapeFullAgrees(s: string)
    requires forall i | 0 <= i < |s| :: !IsControl(s[i]) || IsEscaped(s[i])
    ensures EscapeFull(s) == Escape(s)
  {
    if |s| > 0 {
      EscapeFullAgrees(s[1..]);
    }
  }
}
