/**
 * The Ruby string conversions that ActiveRecord applies when a request
 * parameter is written to a column: `String#blank?` (via `presence`),
 * `String#to_i` for integer columns, `Integer#to_s` for string columns that
 * receive a number, and the numeric-text test of ActiveModel's dirty check.
 */
module RubyText {

  /** ASCII white space, as `String#to_i` and the regexp class `\s` skip it. */
  predicate IsSpace(c: char) {
    c == ' ' || c == '\t' || c == '\n' || c == '\r' || c as int == 11 || c as int == 12
  }

  /** Unicode White_Space, the class `[[:space:]]` that ActiveSupport's `blank?` matches. */
  predicate IsWhiteSpace(c: char) {
    IsSpace(c) || c as int == 0x85 || c as int == 0xA0 || c as int == 0x1680 ||
    (0x2000 <= c as int <= 0x200A) || c as int == 0x2028 || c as int == 0x2029 ||
    c as int == 0x202F || c as int == 0x205F || c as int == 0x3000
  }

  /** `String#blank?`: empty or Unicode white space only. */
  predicate Blank(s: string) {
    forall i :: 0 <= i < |s| ==> IsWhiteSpace(s[i])
  }

  predicate IsDigit(c: char) {
    '0' <= c <= '9'
  }

  predicate AllDigits(s: string) {
    forall i :: 0 <= i < |s| ==> IsDigit(s[i])
  }

  function DigitValue(c: char): (d: nat)
    requires IsDigit(c)
    ensures d < 10
  {
    c as int - '0' as int
  }

  function DigitChar(d: nat): (c: char)
    requires d < 10
    ensures IsDigit(c) && DigitValue(c) == d
  {
    ('0' as int + d) as char
  }

  /** The string after its leading ASCII white space. */
  function DropSpaces(s: string): (t: string)
    ensures |t| <= |s| && t == s[|s| - |t|..]
    ensures t == [] || !IsSpace(t[0])
    ensures forall i :: 0 <= i < |s| - |t| ==> IsSpace(s[i])
  {
    if s != [] && IsSpace(s[0]) then DropSpaces(s[1..]) else s
  }

  /**
   * The digits `String#to_i` reads at the start of `s`: a digit, then more
   * digits, each of which may follow a single underscore; the underscores
   * are dropped.
   */
  function LeadingDigits(s: string): (d: string)
    ensures AllDigits(d) && |d| <= |s|
    ensures d == [] <==> s == [] || !IsDigit(s[0])
    ensures AllDigits(s) ==> d == s
  {
    if s == [] || !IsDigit(s[0]) then [] else [s[0]] + DigitsAfter(s[1..])
  }

  /** The digits of a run that continues after its first digit. */
  function {:induction false} DigitsAfter(s: string): (d: string)
    ensures AllDigits(d) && |d| <= |s|
    ensures AllDigits(s) ==> d == s
    decreases |s|
  {
    if s != [] && IsDigit(s[0]) then
      var rest := DigitsAfter(s[1..]);
      assert AllDigits(s) ==> AllDigits(s[1..]);
      [s[0]] + rest
    else if |s| >= 2 && s[0] == '_' && IsDigit(s[1]) then [s[1]] + DigitsAfter(s[2..])
    else []
  }

  /** The number a string of decimal digits denotes, most significant first. */
  function DigitsValue(ds: string): nat
    requires AllDigits(ds)
  {
    if ds == [] then 0 else 10 * DigitsValue(ds[..|ds| - 1]) + DigitValue(ds[|ds| - 1])
  }

  /**
   * ActiveModel's `NUMERIC_REGEX`, `/\A\s*[+-]?\d/`: after ASCII white space,
   * a digit, or a sign and a digit.
   */
  predicate NumericText(s: string) {
    var t := DropSpaces(s);
    (t != [] && IsDigit(t[0])) || (|t| >= 2 && (t[0] == '-' || t[0] == '+') && IsDigit(t[1]))
  }

  /** Base 10's explicit prefix: a leading `0d` or `0D` is skipped. */
  function DropDecimalPrefix(t: string): (u: string)
    ensures u == t || (|t| >= 2 && t[0] == '0' && (t[1] == 'd' || t[1] == 'D') && u == t[2..])
    ensures AllDigits(t) ==> u == t
  {
    if |t| >= 2 && t[0] == '0' && (t[1] == 'd' || t[1] == 'D') then t[2..] else t
  }

  /**
   * `String#to_i` in base 10: leading white space is skipped, then an
   * optional sign, then an optional `0d`/`0D` prefix, then the digits
   * LeadingDigits reads; no digits give 0, so text that does not look
   * numeric reads as 0.
   */
  function ToI(s: string): (n: int)
    ensures !NumericText(s) ==> n == 0
    ensures s != [] && AllDigits(s) ==> n == DigitsValue(s)
  {
    var t := DropSpaces(s);
    if t != [] && (t[0] == '-' || t[0] == '+') then
      var n: int := DigitsValue(LeadingDigits(DropDecimalPrefix(t[1..])));
      if t[0] == '-' then -n else n
    else
      DigitsValue(LeadingDigits(DropDecimalPrefix(t)))
  }

  /** The base-10 prefix is skipped: "0d12" is 12. */
  lemma DecimalPrefixSkipped()
    ensures ToI("0d12") == 12
  {
    var s := "0d12";
    assert DropSpaces(s) == s by { assert !IsSpace(s[0]); }
    assert DropDecimalPrefix(s) == "12" by { assert s[2..] == "12"; }
    TwelveValue();
  }

  lemma TwelveValue()
    ensures LeadingDigits("12") == "12" && DigitsValue("12") == 12
  {
    assert AllDigits("12");
    assert "12"[..1] == "1" && "1"[..0] == [];
  }

  /** After spaces and a sign, the capital prefix too: " -0D7" is -7. */
  lemma SignedDecimalPrefix()
    ensures ToI(" -0D7") == -7
  {
    var s := " -0D7";
    assert s[1..] == "-0D7";
    assert DropSpaces("-0D7") == "-0D7" by { assert !IsSpace("-0D7"[0]); }
    assert "-0D7"[1..] == "0D7";
    assert DropDecimalPrefix("0D7") == "7" by { assert "0D7"[2..] == "7"; }
    assert LeadingDigits("7") == "7" by { assert AllDigits("7"); }
    assert DigitsValue("7") == 7 by { assert "7"[..0] == []; }
  }

  /** Ruby reads a single underscore between digits as nothing: "1_000" is 1000. */
  lemma UnderscoreBetweenDigits()
    ensures ToI("1_000") == 1000
  {
    var s := "1_000";
    assert DropSpaces(s) == s by { assert !IsSpace(s[0]); }
    assert DropDecimalPrefix(s) == s by { assert s[1] == '_'; }
    OneUnderscoreThousand();
    ThousandValue();
  }

  lemma OneUnderscoreThousand()
    ensures LeadingDigits("1_000") == "1000"
  {
    var s := "1_000";
    assert DigitsAfter("00") == "00" by { assert AllDigits("00"); }
    assert DigitsAfter("_000") == "000" by { assert "_000"[2..] == "00"; }
    assert s[1..] == "_000";
  }

  lemma ThousandValue()
    ensures AllDigits("1000") && DigitsValue("1000") == 1000
  {
    assert "1000"[..3] == "100" && "100"[..2] == "10" && "10"[..1] == "1" && "1"[..0] == [];
  }

  /** A doubled underscore ends the number: "1__000" is 1. */
  lemma DoubledUnderscoreStops()
    ensures ToI("1__000") == 1
  {
    var s := "1__000";
    assert DropSpaces(s) == s by { assert !IsSpace(s[0]); }
    assert DropDecimalPrefix(s) == s by { assert s[0] == '1'; }
    OneThenDoubledUnderscore();
  }

  lemma OneThenDoubledUnderscore()
    ensures LeadingDigits("1__000") == "1" && DigitsValue("1") == 1
  {
    assert "1__000"[1..] == "__000";
    assert DigitsAfter("__000") == [];
    assert "1"[..0] == [];
  }

  /** A leading underscore is not a digit: "_1" is 0. */
  lemma LeadingUnderscoreIsZero()
    ensures ToI("_1") == 0
  {
    assert DropSpaces("_1") == "_1" by { assert !IsSpace("_1"[0]); }
  }

  /** Spaces, a sign and underscores together: " -2_5x" is -25. */
  lemma SignedWithUnderscore()
    ensures ToI(" -2_5x") == -25
  {
    SpacesThenSign();
    TwoUnderscoreFive();
  }

  lemma SpacesThenSign()
    ensures DropSpaces(" -2_5x") == "-2_5x"
  {
    var s := " -2_5x";
    assert s[1..] == "-2_5x";
    assert DropSpaces("-2_5x") == "-2_5x" by { assert !IsSpace("-2_5x"[0]); }
  }

  lemma TwoUnderscoreFive()
    ensures "-2_5x"[1..] == "2_5x"
    ensures DropDecimalPrefix("2_5x") == "2_5x"
    ensures LeadingDigits("2_5x") == "25"
    ensures DigitsValue("25") == 25
  {
    var t := "2_5x";
    assert "-2_5x"[1..] == t;
    assert DropDecimalPrefix(t) == t by { assert t[0] == '2'; }
    assert DigitsAfter("x") == [];
    assert DigitsAfter("_5x") == "5" by { assert "_5x"[2..] == "x"; }
    assert LeadingDigits(t) == "25" by { assert t[1..] == "_5x"; }
    assert DigitsValue("25") == 25 by { assert "25"[..1] == "2" && "2"[..0] == []; }
  }

  /** The decimal digits of a natural number, without leading zeros. */
  function NatString(n: nat): (s: string)
    ensures s != [] && AllDigits(s)
    ensures DigitsValue(s) == n
    ensures n > 0 ==> s[0] != '0'
  {
    if n < 10 then [DigitChar(n)]
    else
      var p := NatString(n / 10);
      var s := p + [DigitChar(n % 10)];
      assert s[..|s| - 1] == p;
      s
  }

  /** `Integer#to_s`: the decimal text of an integer; `to_i` reads it back. */
  function DecimalString(n: int): (s: string)
    ensures s != [] && !Blank(s)
    ensures ToI(s) == n
  {
    if n < 0 then
      var d := NatString(-n);
      var s := "-" + d;
      assert s[0] == '-' && !IsWhiteSpace(s[0]);
      assert DropSpaces(s) == s;
      assert s[1..] == d;
      assert DropDecimalPrefix(d) == d;
      assert LeadingDigits(d) == d;
      s
    else
      var d := NatString(n);
      assert IsDigit(d[0]) && !IsWhiteSpace(d[0]);
      assert DropSpaces(d) == d;
      assert DropDecimalPrefix(d) == d;
      assert LeadingDigits(d) == d;
      d
  }
}
