/** GraphQL input value literals (section 2.9 of the GraphQL specification,
    June 2018): their syntax tree, and a reader that turns text back into
    one. The reader is an independent definition the serialisers of the
    library are held against: what they write must read back as the value
    it came from. Variables and float literals are not read. */
module Literals {
  import opened Results
  import opened Text
  import opened Escape
  import opened Selections

  datatype Lit =
    | LNull
    | LBool(b: bool)
    | LInt(i: int)
    | LString(s: string)
    | LEnum(name: string)
    | LList(items: seq<Lit>)
    | LObject(fields: seq<(string, Lit)>)

  /** White space, line terminators and commas: the characters ignored
      between tokens (section 2.1.7 of the GraphQL specification). */
  predicate IsIgnored(c: char) {
    c == ' ' || c == '\t' || c == '\n' || c == '\r' || c == ','
  }

  function SkipIgnored(s: string): (r: string)
    ensures |r| <= |s| && r == s[|s| - |r|..]
    ensures |r| > 0 ==> !IsIgnored(r[0])
    decreases |s|
  {
    if |s| > 0 && IsIgnored(s[0]) then SkipIgnored(s[1..]) else s
  }

  lemma SkipIgnoredStops(s: string)
    requires |s| > 0 && !IsIgnored(s[0])
    ensures SkipIgnored(s) == s
  {
  }

  lemma SkipIgnoredSpace(s: string)
    ensures SkipIgnored(" " + s) == SkipIgnored(s)
  {
    assert (" " + s)[1..] == s;
  }

  predicate IsNameStart(c: char) {
    c == '_' || 'A' <= c <= 'Z' || 'a' <= c <= 'z'
  }

  /** The number of name characters `s` starts with. */
  function NameLength(s: string): (n: nat)
    ensures n <= |s|
    ensures forall i | 0 <= i < n :: IsNameChar(s[i])
    ensures n < |s| ==> !IsNameChar(s[n])
    decreases |s|
  {
    if |s| > 0 && IsNameChar(s[0]) then 1 + NameLength(s[1..]) else 0
  }

  /** The number of decimal digits `s` starts with. */
  function DigitsLength(s: string): (n: nat)
    ensures n <= |s|
    ensures forall i | 0 <= i < n :: IsDigit(s[i])
    ensures n < |s| ==> !IsDigit(s[n])
    decreases |s|
  {
    if |s| > 0 && IsDigit(s[0]) then 1 + DigitsLength(s[1..]) else 0
  }

  /** The length of a string body: the characters before the first double
      quote that no backslash escapes. */
  function BodyLength(s: string): (r: Option<nat>)
    ensures r.Some? ==> r.value < |s| && s[r.value] == '"'
    decreases |s|
  {
    if |s| == 0 then None
    else if s[0] == '"' then Some(0)
    else if s[0] == '\\' then
      if |s| < 2 then None
      else match BodyLength(s[2..])
        case Some(n) => Some(n + 2)
        case None => None
    else match BodyLength(s[1..])
      case Some(n) => Some(n + 1)
      case None => None
  }

  /** An integer token: an optional minus sign and digits, not followed by
      a `.` or a name start (which would make it a float or an error). */
  function ReadInt(s: string): (r: Option<(Lit, string)>)
    ensures r.Some? ==> |r.value.1| < |s|
  {
    var sign := if |s| > 0 && s[0] == '-' then 1 else 0;
    var n := sign + DigitsLength(s[sign..]);
    if n < |s| && (s[n] == '.' || IsNameStart(s[n])) then None
    else match ParseInt(s[..n])
      case Some(i) => Some((LInt(i), s[n..]))
      case None => None
  }

  /** A name token: `null`, `true` and `false` are the null and boolean
      literals, any other name is an enum value. */
  function ReadName(s: string): (r: Option<(Lit, string)>)
    ensures r.Some? ==> |r.value.1| < |s|
  {
    if |s| == 0 || !IsNameStart(s[0]) then None
    else
      var n := NameLength(s);
      var name := s[..n];
      var lit := if name == "null" then LNull else if name == "true" then LBool(true) else if name == "false" then LBool(false) else LEnum(name);
      Some((lit, s[n..]))
  }

  /** Reads one value at the start of `s`, returning it and the text after it. */
  function ParseValue(s: string): (r: Option<(Lit, string)>)
    ensures r.Some? ==> |r.value.1| < |s|
    decreases |s|, 0
  {
    if |s| == 0 then None
    else if s[0] == '"' then
      match BodyLength(s[1..])
      case None => None
      case Some(n) =>
        match Unescape(s[1..n + 1])
        case None => None
        case Some(text) => Some((LString(text), s[n + 2..]))
    else if s[0] == '[' then
      match ParseItems(SkipIgnored(s[1..]))
      case None => None
      case Some((items, rest)) => Some((LList(items), rest))
    else if s[0] == '{' then
      match ParseFields(SkipIgnored(s[1..]))
      case None => None
      case Some((fields, rest)) => Some((LObject(fields), rest))
    else if s[0] == '-' || IsDigit(s[0]) then ReadInt(s)
    else ReadName(s)
  }

  /** The items of a list up to and including its closing bracket. */
  function ParseItems(t: string): (r: Option<(seq<Lit>, string)>)
    ensures r.Some? ==> |r.value.1| < |t|
    decreases |t|, 1
  {
    if |t| == 0 then None
    else if t[0] == ']' then Some(([], t[1..]))
    else match ParseValue(t)
      case None => None
      case Some((x, after)) =>
        match ParseItems(SkipIgnored(after))
        case None => None
        case Some((xs, rest)) => Some(([x] + xs, rest))
  }

  /** The `name: value` fields of an object up to and including its closing brace. */
  function ParseFields(t: string): (r: Option<(seq<(string, Lit)>, string)>)
    ensures r.Some? ==> |r.value.1| < |t|
    decreases |t|, 1
  {
    if |t| == 0 then None
    else if t[0] == '}' then Some(([], t[1..]))
    else if !IsNameStart(t[0]) then None
    else
      var n := NameLength(t);
      var u := SkipIgnored(t[n..]);
      if |u| == 0 || u[0] != ':' then None
      else match ParseValue(SkipIgnored(u[1..]))
        case None => None
        case Some((x, after)) =>
          match ParseFields(SkipIgnored(after))
          case None => None
          case Some((fs, rest)) => Some(([(t[..n], x)] + fs, rest))
  }

  /** Text that ends a token: nothing, an ignored character or a closing bracket. */
  predicate Delimited(rest: string) {
    |rest| == 0 || IsIgnored(rest[0]) || rest[0] == ']' || rest[0] == '}' || rest[0] == ')'
  }

  /** A name that reads as an enum value rather than as `null`, `true` or `false`. */
  predicate IsEnumValue(name: string) {
    IsName(name) && name != "null" && name != "true" && name != "false"
  }

  // ---------------------------------------------------------------------
  // Reading back single tokens

  /** The length a body has after one more character that is neither a quote nor a backslash. */
  function Shift(r: Option<nat>, k: nat): Option<nat> {
    match r
    case Some(n) => Some(n + k)
    case None => None
  }

  lemma BodyLengthPlain(c: char, t: string)
    requires c != '"' && c != '\\'
    ensures BodyLength([c] + t) == Shift(BodyLength(t), 1)
  {
    assert ([c] + t)[1..] == t;
  }

  lemma HexDigitPlain(n: nat)
    requires n < 16
    ensures HexDigit(n) != '"' && HexDigit(n) != '\\'
  {
  }

  lemma BodyLengthBackslash(c: char, t: string)
    ensures BodyLength(['\\', c] + t) == Shift(BodyLength(t), 2)
  {
    assert (['\\', c] + t)[2..] == t;
  }

  lemma ShiftShift(r: Option<nat>, a: nat, b: nat)
    ensures Shift(Shift(r, a), b) == Shift(r, a + b)
  {
  }

  lemma BodyLengthUnicode(h1: char, h2: char, t: string)
    requires h1 != '"' && h1 != '\\' && h2 != '"' && h2 != '\\'
    ensures BodyLength(['\\', 'u', '0', '0', h1, h2] + t) == Shift(BodyLength(t), 6)
  {
    var s4 := [h2] + t;
    var s3 := [h1] + s4;
    var s2 := ['0'] + s3;
    var s1 := ['0'] + s2;
    calc {
      BodyLength(['\\', 'u', '0', '0', h1, h2] + t);
      { assert ['\\', 'u'] + s1 == ['\\', 'u', '0', '0', h1, h2] + t; }
      BodyLength(['\\', 'u'] + s1);
      { BodyLengthBackslash('u', s1); }
      Shift(BodyLength(s1), 2);
      { BodyLengthPlain('0', s2); ShiftShift(BodyLength(s2), 1, 2); }
      Shift(BodyLength(s2), 3);
      { BodyLengthPlain('0', s3); ShiftShift(BodyLength(s3), 1, 3); }
      Shift(BodyLength(s3), 4);
      { BodyLengthPlain(h1, s4); ShiftShift(BodyLength(s4), 1, 4); }
      Shift(BodyLength(s4), 5);
      { BodyLengthPlain(h2, t); ShiftShift(BodyLength(t), 1, 5); }
      Shift(BodyLength(t), 6);
    }
  }

  lemma BodyLengthChar(c: char, t: string)
    ensures BodyLength(EscapeCharFull(c) + t) == Shift(BodyLength(t), |EscapeCharFull(c)|)
  {
    var e := EscapeCharFull(c);
    if IsEscaped(c) {
      assert (e + t)[2..] == t;
    } else if IsControl(c) {
      HexDigitPlain(c as int / 16);
      HexDigitPlain(c as int % 16);
      var h1 := HexDigit(c as int / 16);
      var h2 := HexDigit(c as int % 16);
      assert e == ['\\', 'u', '0', '0', h1, h2];
      BodyLengthUnicode(h1, h2, t);
    } else {
      assert (e + t)[1..] == t;
    }
  }

  /** The body of a fully escaped string ends exactly at the quote after it. */
  lemma {:induction false} BodyLengthEscaped(x: string, rest: string)
    ensures BodyLength(EscapeFull(x) + "\"" + rest) == Some(|EscapeFull(x)|)
    decreases |x|
  {
    if |x| == 0 {
      assert EscapeFull(x) + "\"" + rest == "\"" + rest;
    } else {
      BodyLengthEscaped(x[1..], rest);
      BodyLengthChar(x[0], EscapeFull(x[1..]) + "\"" + rest);
      assert EscapeFull(x) + "\"" + rest == EscapeCharFull(x[0]) + (EscapeFull(x[1..]) + "\"" + rest);
    }
  }

  /** A quoted, fully escaped string reads back as that string. */
  lemma ReadsString(x: string, rest: string)
    ensures ParseValue("\"" + EscapeFull(x) + "\"" + rest) == Some((LString(x), rest))
  {
    var e := EscapeFull(x);
    var s := "\"" + e + "\"" + rest;
    assert s[1..] == e + "\"" + rest;
    BodyLengthEscaped(x, rest);
    assert s[1..|e| + 1] == e;
    EscapeFullRoundTrip(x);
    assert s[|e| + 2..] == rest;
  }

  lemma {:induction false} DigitsLengthOf(d: string, rest: string)
    requires AllDigits(d)
    requires |rest| == 0 || !IsDigit(rest[0])
    ensures DigitsLength(d + rest) == |d|
    decreases |d|
  {
    if |d| > 0 {
      assert (d + rest)[1..] == d[1..] + rest;
      DigitsLengthOf(d[1..], rest);
    }
  }

  /** `str(i)` followed by a delimiter reads back as the integer `i`. */
  lemma ReadsInt(i: int, rest: string)
    requires Delimited(rest)
    ensures ParseValue(IntToString(i) + rest) == Some((LInt(i), rest))
  {
    var t := IntToString(i);
    var s := t + rest;
    IntToStringRoundTrip(i);
    if i < 0 {
      var d := NatDigits(-i);
      assert s[1..] == d + rest;
      DigitsLengthOf(d, rest);
    } else {
      DigitsLengthOf(NatDigits(i), rest);
    }
    assert s[..|t|] == t;
    assert s[|t|..] == rest;
  }

  lemma {:induction false} NameLengthOf(name: string, rest: string)
    requires forall i | 0 <= i < |name| :: IsNameChar(name[i])
    requires |rest| == 0 || !IsNameChar(rest[0])
    ensures NameLength(name + rest) == |name|
    decreases |name|
  {
    if |name| > 0 {
      assert (name + rest)[1..] == name[1..] + rest;
      NameLengthOf(name[1..], rest);
    }
  }

  /** The literal a name token stands for. */
  function NameLiteral(name: string): Lit {
    if name == "null" then LNull else if name == "true" then LBool(true) else if name == "false" then LBool(false) else LEnum(name)
  }

  /** A name followed by a delimiter reads back as that name's literal. */
  lemma ReadsName(name: string, rest: string)
    requires IsName(name) && Delimited(rest)
    ensures ParseValue(name + rest) == Some((NameLiteral(name), rest))
  {
    NameLengthOf(name, rest);
    assert (name + rest)[..|name|] == name;
    assert (name + rest)[|name|..] == rest;
  }

  // ---------------------------------------------------------------------
  // Reading back lists and objects, one step at a time

  lemma ParseBracket(t: string)
    ensures ParseValue("[" + t) == match ParseItems(SkipIgnored(t))
      case Some((items, rest)) => Some((LList(items), rest))
      case None => None
  {
    assert ("[" + t)[1..] == t;
  }

  lemma ParseBrace(t: string)
    ensures ParseValue("{" + t) == match ParseFields(SkipIgnored(t))
      case Some((fields, rest)) => Some((LObject(fields), rest))
      case None => None
  {
    assert ("{" + t)[1..] == t;
  }

  predicate Opens(s: string) {
    |s| > 0 && !IsIgnored(s[0]) && s[0] != ']' && s[0] != '}'
  }

  /** A list item followed by the rest of the list. */
  lemma ParseItemsCons(d: string, after: string, x: Lit, more: seq<Lit>, rest: string)
    requires Opens(d) && ParseValue(d + after) == Some((x, after))
    requires ParseItems(SkipIgnored(after)) == Some((more, rest))
    ensures ParseItems(d + after) == Some(([x] + more, rest))
  {
    assert (d + after)[0] == d[0];
  }

  /** One `name: value` field in terms of the facts the reader establishes on the way. */
  lemma ParseFieldsStep(t: string, n: nat, u: string, x: Lit, after: string, more: seq<(string, Lit)>, rest: string)
    requires |t| > 0 && IsNameStart(t[0]) && NameLength(t) == n
    requires SkipIgnored(t[n..]) == u && |u| > 0 && u[0] == ':'
    requires ParseValue(SkipIgnored(u[1..])) == Some((x, after))
    requires ParseFields(SkipIgnored(after)) == Some((more, rest))
    ensures ParseFields(t) == Some(([(t[..n], x)] + more, rest))
  {
  }

  /** A name followed by a character that cannot continue it. */
  lemma NameThen(name: string, u: string)
    requires IsName(name) && |u| > 0 && u[0] == ':'
    ensures var t := name + u;
      && |t| > 0 && IsNameStart(t[0]) && NameLength(t) == |name|
      && t[..|name|] == name && t[|name|..] == u
  {
    var t := name + u;
    assert forall i | 0 <= i < |name| :: t[i] == name[i];
    NameLengthOf(name, u);
    assert t[..|name|] == name;
    assert t[|name|..] == u;
  }

  lemma SkipColon(d: string, after: string)
    requires Opens(d)
    ensures SkipIgnored(": " + d + after) == ": " + d + after
    ensures SkipIgnored((": " + d + after)[1..]) == d + after
  {
    var u := ": " + d + after;
    assert u[1..] == " " + (d + after);
    assert (" " + (d + after))[1..] == d + after;
    assert (d + after)[0] == d[0];
  }

  /** A `name: value` field followed by the rest of the object. */
  lemma ParseFieldsCons(name: string, d: string, after: string, x: Lit, more: seq<(string, Lit)>, rest: string)
    requires IsName(name) && Opens(d) && ParseValue(d + after) == Some((x, after))
    requires ParseFields(SkipIgnored(after)) == Some((more, rest))
    ensures ParseFields(name + ": " + d + after) == Some(([(name, x)] + more, rest))
  {
    FieldText(name, d, after);
    ParseFieldsStep(name + ": " + d + after, |name|, ": " + d + after, x, after, more, rest);
  }

  /** How the reader sees the text of one field. */
  lemma FieldText(name: string, d: string, after: string)
    requires IsName(name) && Opens(d)
    ensures var t := name + ": " + d + after; var u := ": " + d + after;
      && |t| > 0 && IsNameStart(t[0]) && NameLength(t) == |name| && t[..|name|] == name
      && SkipIgnored(t[|name|..]) == u && |u| > 0 && u[0] == ':' && SkipIgnored(u[1..]) == d + after
  {
    var u := ": " + d + after;
    assert name + u == name + ": " + d + after;
    NameThen(name, u);
    SkipColon(d, after);
  }
}
