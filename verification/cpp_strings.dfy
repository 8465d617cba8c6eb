/**
 * The C++ library calls the C++ variant relies on: reading one whitespace-delimited
 * token from a string stream (`iss >> t`), `std::stod` and `std::to_string(double)`,
 * and the truncation the pretty printer applies to the latter's text.
 */
module CppStrings {
  import opened Results
  import opened Text

  // ---------------------------------------------------------------------------
  // Stream extraction
  // ---------------------------------------------------------------------------

  /** `isspace` in the "C" locale. */
  predicate IsSpace(ch: char)
  {
    ch == ' ' || ch == '\t' || ch == '\n' || ch == '\U{000B}' || ch == '\U{000C}' || ch == '\r'
  }

  predicate NoSpace(s: string) { forall i :: 0 <= i < |s| ==> !IsSpace(s[i]) }

  /** What the stream skips before a token or a number: the text after the leading whitespace. */
  function SkipWhitespace(s: string): (r: string)
    ensures |r| <= |s|
  {
    if s != [] && IsSpace(s[0]) then SkipWhitespace(s[1..]) else s
  }

  /** The longest prefix of `s` without whitespace. */
  function Word(s: string): (w: string)
    ensures |w| <= |s|
  {
    if s != [] && !IsSpace(s[0]) then [s[0]] + Word(s[1..]) else []
  }

  /** What `iss >> t` leaves in a fresh string `t`: the first whitespace-delimited token, or "" when there is none. */
  function FirstToken(s: string): (t: string)
    ensures |t| <= |s|
  {
    Word(SkipWhitespace(s))
  }

  /** The stream's remaining text after `iss >> t`. */
  function AfterFirstToken(s: string): (r: string)
    ensures |r| <= |s| && (s != [] ==> |r| < |s|)
  {
    var u := SkipWhitespace(s);
    u[|Word(u)|..]
  }

  /** Every whitespace-delimited token of `s`, in order. */
  function Chunks(s: string): seq<string>
    decreases |s|
  {
    if s == [] then []
    else
      var t := FirstToken(s);
      if t == [] then [] else [t] + Chunks(AfterFirstToken(s))
  }

  /** Skipping whitespace drops a prefix made of whitespace only, and stops at a character that is not whitespace. */
  lemma {:induction false} SkipWhitespaceSuffix(s: string)
    ensures var r := SkipWhitespace(s);
      && r == s[|s| - |r|..]
      && (r != [] ==> !IsSpace(r[0]))
      && forall i :: 0 <= i < |s| - |r| ==> IsSpace(s[i])
  {
    if s != [] && IsSpace(s[0]) {
      SkipWhitespaceSuffix(s[1..]);
    }
  }

  /** A word is a whitespace-free prefix. */
  lemma {:induction false} WordPrefix(s: string)
    ensures var w := Word(s); w == s[..|w|] && NoSpace(w) && (|w| < |s| ==> IsSpace(s[|w|]))
  {
    if s != [] && !IsSpace(s[0]) {
      WordPrefix(s[1..]);
    }
  }

  /** A token read by `iss >> t` holds no whitespace. */
  lemma FirstTokenNoSpace(s: string)
    ensures NoSpace(FirstToken(s))
  {
    WordPrefix(SkipWhitespace(s));
  }

  lemma {:induction false} WordOfNoSpace(t: string)
    requires NoSpace(t)
    ensures Word(t) == t
  {
    if t != [] {
      WordOfNoSpace(t[1..]);
    }
  }

  /** A string without whitespace is read back whole by `iss >> t`. */
  lemma FirstTokenOfNoSpace(t: string)
    requires NoSpace(t)
    ensures FirstToken(t) == t
  {
    WordOfNoSpace(t);
  }

  /** A piece of a token is a token of its own. */
  lemma FirstTokenOfSlice(t: string, i: nat, j: nat)
    requires NoSpace(t) && i <= j <= |t|
    ensures FirstToken(t[i..j]) == t[i..j]
  {
    var u := t[i..j];
    forall k | 0 <= k < |u| ensures !IsSpace(u[k]) {
      assert u[k] == t[i + k];
    }
    FirstTokenOfNoSpace(u);
  }

  // ---------------------------------------------------------------------------
  // std::stod
  // ---------------------------------------------------------------------------

  predicate HasDigit(s: string) { exists i :: 0 <= i < |s| && IsDigit(s[i]) }

  /** The longest prefix of `s` made of decimal digits. */
  function LeadingDigits(s: string): (d: string)
    ensures |d| <= |s|
  {
    if s != [] && IsDigit(s[0]) then [s[0]] + LeadingDigits(s[1..]) else []
  }

  /** The digits before and after an optional '.' at the start of `body`. */
  function Mantissa(body: string): (string, string)
  {
    var whole := LeadingDigits(body);
    var rest := body[|whole|..];
    (whole, if rest != [] && rest[0] == '.' then LeadingDigits(rest[1..]) else "")
  }

  /** The text after an optional leading sign. */
  function Unsigned(u: string): (r: string)
    ensures |r| <= |u|
  {
    if u != [] && (u[0] == '-' || u[0] == '+') then u[1..] else u
  }

  /** The value of fraction digits: "25" is 0.25. */
  function FracValue(d: string): real
  {
    if d == [] then 0.0 else ((d[0] as int - '0' as int) as real + FracValue(d[1..])) / 10.0
  }

  /**
   * `std::stod` on decimal text: leading whitespace is skipped, then an optional sign,
   * digits, an optional '.' and fraction digits; conversion stops at the first character
   * that does not fit, and at least one digit must have been read (None is the
   * `std::invalid_argument` it throws otherwise). The library also reads "inf", "nan",
   * hexadecimal text and exponents; this decimal reading rejects the first two, reads
   * "0x1A" as its leading 0 and "1e5" as 1.
   */
  function Stod(s: string): Option<real>
  {
    var u := SkipWhitespace(s);
    var m := Mantissa(Unsigned(u));
    if m.0 == "" && m.1 == "" then None
    else
      var magnitude := DigitsValue(m.0) as real + FracValue(m.1);
      Some(if u != [] && u[0] == '-' then -magnitude else magnitude)
  }

  lemma {:induction false} LeadingDigitsPrefix(s: string)
    ensures var d := LeadingDigits(s); AllDigits(d) && d == s[..|d|]
  {
    if s != [] && IsDigit(s[0]) {
      LeadingDigitsPrefix(s[1..]);
    }
  }

  /** What `Mantissa` returns: digits, read from where the text says. */
  lemma MantissaDigits(body: string)
    ensures var m := Mantissa(body);
      && AllDigits(m.0) && AllDigits(m.1)
      && (m.0 != [] ==> 1 <= |body| && IsDigit(body[0]))
      && (m.0 == [] && m.1 != [] ==> 2 <= |body| && IsDigit(body[1]))
  {
    var whole := LeadingDigits(body);
    LeadingDigitsPrefix(body);
    var rest := body[|whole|..];
    if rest != [] && rest[0] == '.' {
      LeadingDigitsPrefix(rest[1..]);
      if whole == [] && LeadingDigits(rest[1..]) != [] {
        assert body[1] == rest[1..][0];
      }
    }
    if whole != [] {
      assert body[0] == whole[0];
    }
  }

  /** The decimal reading of `std::stod` fails unless the text holds at least one digit. */
  lemma StodNeedsDigit(s: string)
    requires Stod(s).Some?
    ensures HasDigit(s)
  {
    var u := SkipWhitespace(s);
    var b := Unsigned(u);
    SkipWhitespaceSuffix(s);
    MantissaDigits(b);
    var m := Mantissa(b);
    assert b == s[|s| - |b|..];
    if m.0 != [] {
      assert IsDigit(s[|s| - |b|]);
    } else {
      assert IsDigit(s[|s| - |b| + 1]);
    }
  }

  lemma {:induction false} LeadingDigitsOf(a: string, b: string)
    requires AllDigits(a)
    requires b == [] || !IsDigit(b[0])
    ensures LeadingDigits(a + b) == a
  {
    if a == [] {
      assert a + b == b;
    } else {
      assert (a + b)[1..] == a[1..] + b;
      LeadingDigitsOf(a[1..], b);
    }
  }

  lemma MantissaOfDecimal(a: string, b: string)
    requires AllDigits(a) && AllDigits(b)
    ensures Mantissa(a + "." + b) == (a, b)
  {
    var s := a + "." + b;
    LeadingDigitsOf(a, "." + b);
    assert s == a + ("." + b);
    assert s[|a|..] == "." + b;
    assert ("." + b)[1..] == b;
    LeadingDigitsOf(b, "");
    assert b + "" == b;
  }

  /**
   * Unfolding lemma: on unsigned decimal text without leading whitespace, `Stod`
   * reads its mantissa. It is one step of `Stod`, which `StodTwoDecimals` and the
   * digit examples build on, not an independent property.
   */
  lemma StodUnsigned(s: string, whole: string, frac: string)
    requires s != [] && IsDigit(s[0]) && Mantissa(s) == (whole, frac)
    ensures Stod(s) == Some(DigitsValue(whole) as real + FracValue(frac))
  {
    assert SkipWhitespace(s) == s;
    assert Unsigned(s) == s;
    assert LeadingDigits(s) != [];
  }

  /** The value of integer digits `n`, a point, and the two-digit fraction `f % 100`. */
  function Decimal(n: nat, f: nat): real
  {
    n as real + (f % 100) as real / 100.0
  }

  /** Two fraction digits are hundredths. */
  lemma FracTwoDigits(f: nat)
    ensures FracValue(Digits(f, 2)) == (f % 100) as real / 100.0
  {
    var d1, d0 := (f / 10) % 10, f % 10;
    var s := Digits(f, 2);
    assert Digits(f / 10, 1) == [] + [DigitChar(d1)];
    assert s == [DigitChar(d1), DigitChar(d0)];
    assert s[1..] == [DigitChar(d0)];
    assert s[1..][1..] == [];
    assert FracValue(s[1..]) == d0 as real / 10.0;
    DivTen(f, 10);
    assert f % 100 == d1 * 10 + d0;
  }

  /** `std::stod` reads back digits, a '.' and two fraction digits as that decimal value. */
  lemma StodTwoDecimals(n: nat, f: nat)
    ensures Stod(NatText(n) + "." + Digits(f, 2)) == Some(Decimal(n, f))
  {
    var whole, frac := NatText(n), Digits(f, 2);
    var s := whole + "." + frac;
    assert s[0] == whole[0];
    MantissaOfDecimal(whole, frac);
    StodUnsigned(s, whole, frac);
    NatTextValue(n);
    FracTwoDigits(f);
  }

  // ---------------------------------------------------------------------------
  // std::to_string(double) and the printer's truncation
  // ---------------------------------------------------------------------------

  /** A non-negative value scaled by 10^6 and rounded to the nearest integer (halves up). */
  function Round6(m: real): (q: nat)
    requires m >= 0.0
    ensures q as real <= m * 1000000.0 + 0.5 < q as real + 1.0
  {
    (m * 1000000.0 + 0.5).Floor
  }

  function Abs(x: real): real { if x < 0.0 then -x else x }

  function Sign(x: real): string { if x < 0.0 then "-" else "" }

  /** `std::to_string(double)`, i.e. `printf("%f")`: sign, integer digits, '.', six fraction digits. */
  function ToString(x: real): string
  {
    var q := Round6(Abs(x));
    Sign(x) + NatText(q / 1000000) + "." + Digits(q, 6)
  }

  /** Position of the first `ch` in `s`; None plays `std::string::npos`. */
  function IndexOf(s: string, ch: char): (r: Option<nat>)
    ensures r.Some? ==> r.value < |s| && s[r.value] == ch && forall j :: 0 <= j < r.value ==> s[j] != ch
    ensures r.None? ==> forall j :: 0 <= j < |s| ==> s[j] != ch
  {
    if s == [] then None
    else if s[0] == ch then Some(0)
    else match IndexOf(s[1..], ch)
      case Some(k) => Some(k + 1)
      case None => None
  }

  /**
   * `numStr.substr(0, numStr.find(".") + 3)`: keeps two characters after the first '.';
   * without a '.', `npos + 3` wraps around to 2. `substr` clamps the count to the length.
   */
  function TruncateAfterDot(s: string): string
  {
    var count := match IndexOf(s, '.') case Some(k) => k + 3 case None => 2;
    s[..if count < |s| then count else |s|]
  }

  /** The pretty printer's constant text: `to_string` cut to two fraction digits, truncated rather than rounded. */
  lemma TruncatedToString(x: real)
    ensures var q := Round6(Abs(x));
      TruncateAfterDot(ToString(x)) == Sign(x) + NatText(q / 1000000) + "." + Digits(q / 10000, 2)
  {
    var q := Round6(Abs(x));
    var p := Sign(x) + NatText(q / 1000000);
    var s := ToString(x);
    DigitsSplit(q, 2, 4);
    ShiftIsDiv(q, 4);
    assert Pow10(4) == 10000;
    assert s == p + "." + Digits(q / 10000, 2) + Digits(q, 4);
    assert forall j :: 0 <= j < |p| ==> p[j] != '.';
    assert s[|p|] == '.';
    var k := IndexOf(s, '.').value;
    assert k == |p|;
    assert s[..|p| + 3] == p + "." + Digits(q / 10000, 2);
  }
}
