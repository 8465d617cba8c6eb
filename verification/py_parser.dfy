/**
 * The Python `parse`: the shared splitter over Python's `int()` for the literals.
 * `int()` on text strips surrounding whitespace, takes an optional sign, and reads
 * decimal digits that may be grouped by single underscores.
 */
module PyParser {
  import opened Results
  import opened Text
  import opened Tiers
  import opened SplitParser

  /** The whitespace `int()` strips: the ASCII characters Python's `str.isspace` accepts. */
  predicate IsPySpace(ch: char)
  {
    ch == ' ' || ('\t' <= ch <= '\r') || ('\U{001C}' <= ch <= '\U{001F}')
  }

  function TrimStart(s: string): (r: string)
    ensures |r| <= |s|
  {
    if s != [] && IsPySpace(s[0]) then TrimStart(s[1..]) else s
  }

  function TrimEnd(s: string): (r: string)
    ensures |r| <= |s|
  {
    if s != [] && IsPySpace(s[|s| - 1]) then TrimEnd(s[..|s| - 1]) else s
  }

  /** Decimal digits, with single underscores allowed between two digits ("1_000"). */
  predicate Grouped(s: string)
  {
    && s != [] && IsDigit(s[0]) && IsDigit(s[|s| - 1])
    && (forall i :: 0 <= i < |s| ==> IsDigit(s[i]) || s[i] == '_')
    && (forall i :: 0 < i < |s| && s[i] == '_' ==> s[i - 1] != '_')
  }

  /** The digits of `s` with the underscores dropped. */
  function Ungrouped(s: string): string
  {
    if s == [] then [] else (if s[0] == '_' then [] else [s[0]]) + Ungrouped(s[1..])
  }

  /** `int(s)` for a `str`: None is the `ValueError` it raises. */
  function PyInt(s: string): Option<int>
  {
    var u := TrimEnd(TrimStart(s));
    var body := if u != [] && (u[0] == '+' || u[0] == '-') then u[1..] else u;
    if !Grouped(body) then None
    else
      var v := DigitsValue(Ungrouped(body));
      Some(if u != [] && u[0] == '-' then -v else v)
  }

  /** `parse(t)`. */
  function Parse(t: string): Result<Tree, ParseError>
  {
    ParseWith(t, PyInt)
  }

  // ---------------------------------------------------------------------------
  // int()
  // ---------------------------------------------------------------------------

  lemma {:induction false} TrimStartSuffix(s: string)
    ensures var r := TrimStart(s); r == s[|s| - |r|..] && forall i :: 0 <= i < |s| - |r| ==> IsPySpace(s[i])
  {
    if s != [] && IsPySpace(s[0]) {
      TrimStartSuffix(s[1..]);
    }
  }

  lemma {:induction false} TrimEndPrefix(s: string)
    ensures var r := TrimEnd(s); r == s[..|r|] && forall i :: |r| <= i < |s| ==> IsPySpace(s[i])
  {
    if s != [] && IsPySpace(s[|s| - 1]) {
      TrimEndPrefix(s[..|s| - 1]);
    }
  }

  /** What `int()` strips is whitespace, and what it reads is the rest: `TrimEnd(TrimStart(s)) == s[a..b]`. */
  lemma Trimmed(s: string) returns (a: nat, b: nat)
    ensures a <= b <= |s| && TrimEnd(TrimStart(s)) == s[a..b]
    ensures forall i :: 0 <= i < a || b <= i < |s| ==> IsPySpace(s[i])
  {
    var m := TrimStart(s);
    TrimStartSuffix(s);
    TrimEndPrefix(m);
    a := |s| - |m|;
    b := a + |TrimEnd(m)|;
    forall i | b <= i < |s| ensures IsPySpace(s[i]) {
      assert s[i] == m[i - a];
    }
  }

  lemma {:induction false} UngroupedDigits(s: string)
    requires forall i :: 0 <= i < |s| ==> IsDigit(s[i]) || s[i] == '_'
    ensures AllDigits(Ungrouped(s))
  {
    if s != [] {
      UngroupedDigits(s[1..]);
    }
  }

  lemma {:induction false} UngroupedOfDigits(s: string)
    requires AllDigits(s)
    ensures Ungrouped(s) == s
  {
    if s != [] {
      UngroupedOfDigits(s[1..]);
    }
  }

  /** `int(str(x)) == x`: the decimal text Python prints for an integer reads back as that integer. */
  lemma PyIntOfText(x: int)
    ensures PyInt(IntText(x)) == Some(x)
  {
    var n := if x < 0 then -x else x;
    var d := NatText(n);
    var s := IntText(x);
    if x < 0 {
      assert s == "-" + d;
      assert PyInt(s) == Some(-n) by {
        PyIntOfNatText(n);
        assert s[|s| - 1] == d[|d| - 1] && s[1..] == d;
        Untrimmed(s);
        PyIntNegative(s);
      }
    } else {
      assert s == d;
      assert PyInt(s) == Some(n) by {
        PyIntOfNatText(n);
        Untrimmed(d);
        PyIntUnsigned(d);
      }
    }
  }

  /** The decimal text of `n` is grouped digits that read as `n`. */
  lemma PyIntOfNatText(n: nat)
    ensures Grouped(NatText(n)) && DigitsValue(Ungrouped(NatText(n))) == n
  {
    var d := NatText(n);
    NatTextValue(n);
    DigitsGrouped(d);
    UngroupedOfDigits(d);
  }

  /** Untrimmed text that starts with '-' and continues with grouped digits is their negated value. */
  lemma PyIntNegative(s: string)
    requires s != [] && TrimEnd(TrimStart(s)) == s && s[0] == '-' && Grouped(s[1..])
    ensures PyInt(s) == Some(-DigitsValue(Ungrouped(s[1..])))
  {
  }

  /** Untrimmed grouped digits are their value. */
  lemma PyIntUnsigned(s: string)
    requires TrimEnd(TrimStart(s)) == s && Grouped(s)
    ensures PyInt(s) == Some(DigitsValue(Ungrouped(s)))
  {
  }

  /** Text that neither starts nor ends with whitespace is read whole. */
  lemma Untrimmed(s: string)
    requires s != [] && !IsPySpace(s[0]) && !IsPySpace(s[|s| - 1])
    ensures TrimEnd(TrimStart(s)) == s
  {
    assert TrimStart(s) == s;
  }

  lemma DigitsGrouped(d: string)
    requires d != [] && AllDigits(d)
    ensures Grouped(d)
  {
  }

  /** Without a sign character, `int()` returns a non-negative value. */
  lemma PyIntSignFree(s: string)
    requires OperatorFree(s) && PyInt(s).Some?
    ensures PyInt(s).value >= 0
  {
    var a, b := Trimmed(s);
    var u := TrimEnd(TrimStart(s));
    if u != [] {
      assert u[0] == s[a];
      assert !IsOperator(s[a]);
    }
    UngroupedDigits(u);
    DigitsValueNonNegative(Ungrouped(u));
  }

  /** `int()` accepts only whitespace, a sign, digits and underscores: "(1" and "2)" raise `ValueError`. */
  lemma PyIntChars(s: string)
    requires PyInt(s).Some?
    ensures forall i :: 0 <= i < |s| ==> IsPySpace(s[i]) || IsDigit(s[i]) || s[i] in "+-_"
  {
    var a, b := Trimmed(s);
    var u := TrimEnd(TrimStart(s));
    forall i | a <= i < b ensures IsDigit(s[i]) || s[i] in "+-_" {
      assert s[i] == u[i - a];
      if i > a && u[0] in "+-" {
        assert u[1..][i - a - 1] == u[i - a];
      }
    }
  }

  // ---------------------------------------------------------------------------
  // parse
  // ---------------------------------------------------------------------------

  /** Every constant `parse` builds is a non-negative integer: a sign character is always split on. */
  lemma ParseNonNegative(t: string)
    requires Parse(t).Ok?
    ensures AllConstants(Parse(t).value, NonNegative)
    ensures OperatorsOnly(Parse(t).value)
  {
    forall s | OperatorFree(s) && PyInt(s).Some? ensures NonNegative(PyInt(s).value) {
      PyIntSignFree(s);
    }
    ParseConstants(t, PyInt, NonNegative);
  }

  /** An empty operand raises `ValueError`: `int("")` fails. */
  lemma ParseEmptyFails()
    ensures Parse("") == Err(InvalidLiteral(""))
  {
    assert OperatorFree("");
    ParseLiteral("", PyInt);
  }
}
