/** What Python's `float()` accepts: the text of a string argument, and the
    range of an `int` argument. The value `float()` computes (rounding to a
    double) is floating point and is not part of this module. */
module Floats {
  import opened Text

  // ---------------------------------------------------------------------
  // Text

  /** `s.strip()`: `s` without leading and trailing whitespace. */
  function Strip(s: string): (t: string)
    ensures |t| <= |s|
    ensures |t| == 0 || (!IsSpace(t[0]) && !IsSpace(t[|t| - 1]))
    ensures (|s| == 0 || (!IsSpace(s[0]) && !IsSpace(s[|s| - 1]))) ==> t == s
    decreases |s|
  {
    if |s| > 0 && IsSpace(s[0]) then Strip(s[1..])
    else if |s| > 0 && IsSpace(s[|s| - 1]) then Strip(s[..|s| - 1])
    else s
  }

  /** `digitpart`: decimal digits, single underscores allowed between them. */
  predicate DigitPart(s: string)
    decreases |s|
  {
    && |s| > 0 && IsDigit(s[0])
    && (|s| == 1 || if s[1] == '_' then |s| > 2 && DigitPart(s[2..]) else DigitPart(s[1..]))
  }

  /** `number`: `[digitpart] "." digitpart | digitpart ["."]`. */
  predicate PointNumber(s: string) {
    || DigitPart(s)
    || exists p | 0 <= p < |s| && s[p] == '.' ::
         || (DigitPart(s[..p]) && (p + 1 == |s| || DigitPart(s[p + 1..])))
         || (p == 0 && DigitPart(s[p + 1..]))
  }

  /** `exponent` without its letter: `[sign] digitpart`. */
  predicate ExponentDigits(t: string) {
    || DigitPart(t)
    || (|t| > 0 && (t[0] == '+' || t[0] == '-') && DigitPart(t[1..]))
  }

  /** `floatnumber`: `number [exponent]`. */
  predicate FloatNumber(s: string) {
    || PointNumber(s)
    || exists q | 0 <= q < |s| && (s[q] == 'e' || s[q] == 'E') :: PointNumber(s[..q]) && ExponentDigits(s[q + 1..])
  }

  /** `s` with its ASCII capitals in lower case. */
  function AsciiLower(s: string): (t: string)
    ensures |t| == |s|
  {
    seq(|s|, i requires 0 <= i < |s| => if 'A' <= s[i] <= 'Z' then (s[i] as int + 32) as char else s[i])
  }

  /** `infinity | nan`, in any case. */
  predicate NonFinite(s: string) {
    AsciiLower(s) in ["inf", "infinity", "nan"]
  }

  /** The text `float(s)` accepts for a string `s`: surrounding whitespace,
      an optional sign, then a decimal number with optional exponent, or an
      infinity or NaN. */
  predicate FloatLiteral(s: string) {
    var t := Strip(s);
    |t| > 0 &&
      var a := if t[0] == '+' || t[0] == '-' then t[1..] else t;
      FloatNumber(a) || NonFinite(a)
  }

  // ---------------------------------------------------------------------
  // Integers

  /** The least magnitude `float(i)` refuses with `OverflowError`,
      `2^1024 - 2^970`: halfway between the largest double, `2^1024 - 2^971`,
      and `2^1024`, which round-half-even sends up to infinity. */
  const FloatOverflow: int := 179769313486231580793728971405303415079934132710037826936173778980444968292764750946649017977587207096330286416692887910946555547851940402630657488671505820681908902000708383676273854845817711531764475730270069855571366959622842914819860834936475292719074168444365510704342711559699508093042880177904174497792

  /** `2^53`: up to this magnitude every integer is a double exactly, and
      `repr` writes it in positional notation. */
  const ExactIntBound: int := 9007199254740992

  // ---------------------------------------------------------------------
  // Properties

  /** Decimal digits, without underscores, are a `digitpart`. */
  lemma {:induction false} DigitsArePart(s: string)
    requires |s| > 0 && AllDigits(s)
    ensures DigitPart(s)
    decreases |s|
  {
    if |s| > 1 {
      DigitsArePart(s[1..]);
    }
  }

  /** `float(str(i))` accepts the text of every integer, however large:
      only `float(i)` of the integer itself overflows. */
  lemma IntTextIsFloatLiteral(i: int)
    ensures FloatLiteral(IntToString(i))
  {
    var s := IntToString(i);
    var digits := NatDigits(if i < 0 then -i else i);
    DigitsArePart(digits);
    assert !IsSpace(s[0]) && !IsSpace(s[|s| - 1]);
    assert Strip(s) == s;
    if i < 0 {
      assert s[1..] == digits;
    }
  }

  /** `float("1.5")` and `float(".5")` accept a fraction. */
  lemma FractionsAccepted()
    ensures FloatLiteral("1.5") && FloatLiteral(".5")
  {
    assert DigitPart("1") && DigitPart("5");
    assert "1.5"[..1] == "1" && "1.5"[2..] == "5";
    assert PointNumber("1.5");
    assert ".5"[1..] == "5";
    assert PointNumber(".5");
  }

  /** `float(" -2e10\n")` accepts a signed exponent form between spaces. */
  lemma ExponentAccepted()
    ensures FloatLiteral(" -2e10\n")
  {
    assert Strip(" -2e10\n") == "-2e10";
    assert "-2e10"[1..] == "2e10";
    assert DigitPart("2") && DigitPart("10");
    assert "2e10"[..1] == "2" && "2e10"[2..] == "10";
    assert PointNumber("2");
    assert FloatNumber("2e10");
  }

  /** `float("Infinity")` and `float("nan")` accept the non-finite names. */
  lemma NonFiniteAccepted()
    ensures FloatLiteral("Infinity") && FloatLiteral("nan")
  {
    assert AsciiLower("Infinity") == "infinity";
    assert AsciiLower("nan") == "nan";
  }

  /** `float("x")` and `float("")` refuse text that is not a number. */
  lemma WordsRefused()
    ensures !FloatLiteral("x") && !FloatLiteral("")
  {
    assert Strip("x") == "x" && AsciiLower("x") == "x";
    NoPoint("x");
    assert !FloatNumber("x");
  }

  /** `float("1__0")` refuses a doubled underscore. */
  lemma DoubleUnderscoreRefused()
    ensures !FloatLiteral("1__0")
  {
    assert Strip("1__0") == "1__0" && AsciiLower("1__0") == "1__0";
    assert !DigitPart("__0");
    assert !DigitPart("1__0");
    NoPoint("1__0");
    assert !FloatNumber("1__0");
  }

  /** Text without a point is a `number` only as a `digitpart`. */
  lemma NoPoint(s: string)
    requires forall i | 0 <= i < |s| :: s[i] != '.'
    ensures PointNumber(s) <==> DigitPart(s)
  {
  }
}
