/**
 * The Java `Parser.Parse`: the shared splitter over `Integer.parseInt` for the literals.
 * `parseInt` takes an optional sign and then only ASCII decimal digits, and rejects a
 * value outside the 32-bit `int` range; every rejection is a `NumberFormatException`.
 */
module JavaParser {
  import opened Results
  import opened Text
  import opened Tiers
  import opened SplitParser
  import PyParser

  const IntMin: int := -0x8000_0000
  const IntMax: int := 0x7FFF_FFFF

  /** `Integer.parseInt(s)`: None is the `NumberFormatException` it throws. */
  function ParseInt(s: string): (r: Option<int>)
    ensures r.Some? ==> IntMin <= r.value <= IntMax
  {
    var body := if s != [] && (s[0] == '+' || s[0] == '-') then s[1..] else s;
    if body == [] || !AllDigits(body) then None
    else
      var v := DigitsValue(body);
      var x := if s[0] == '-' then -v else v;
      if IntMin <= x <= IntMax then Some(x) else None
  }

  /** `Parser.Parse(t)`. */
  function Parse(t: string): Result<Tree, ParseError>
  {
    ParseWith(t, ParseInt)
  }

  /** A non-negative value of a Java `int`. */
  predicate NonNegativeInt(x: int)
  {
    0 <= x <= IntMax
  }

  // ---------------------------------------------------------------------------
  // Integer.parseInt
  // ---------------------------------------------------------------------------

  /** `Integer.parseInt(Integer.toString(x)) == x` for every `int` value `x`. */
  lemma ParseIntOfText(x: int)
    requires IntMin <= x <= IntMax
    ensures ParseInt(IntText(x)) == Some(x)
  {
    var n := if x < 0 then -x else x;
    var s := IntText(x);
    if x < 0 {
      assert s[1..] == NatText(n);
    }
    NatTextValue(n);
  }

  /**
   * `parseInt` accepts a sign only in front and digits elsewhere: whitespace,
   * parentheses and an empty text throw.
   */
  lemma ParseIntChars(s: string)
    requires ParseInt(s).Some?
    ensures s != [] && (IsDigit(s[0]) || s[0] == '+' || s[0] == '-')
    ensures forall i :: 0 < i < |s| ==> IsDigit(s[i])
  {
    if s[0] == '+' || s[0] == '-' {
      forall i | 0 < i < |s| ensures IsDigit(s[i]) {
        assert s[1..][i - 1] == s[i];
      }
    }
  }

  /** Digits beyond the 32-bit range throw, however they are written. */
  lemma ParseIntOutOfRange(s: string)
    requires AllDigits(s) && DigitsValue(s) > IntMax
    ensures ParseInt(s) == None
  {
  }

  /** Without a sign character, `parseInt` returns a non-negative `int`. */
  lemma ParseIntSignFree(s: string)
    requires OperatorFree(s) && ParseInt(s).Some?
    ensures NonNegativeInt(ParseInt(s).value)
  {
    assert !IsOperator(s[0]);
    DigitsValueNonNegative(s);
  }

  /**
   * Where `parseInt` accepts operator-free text, Python's `int()` accepts it too, with
   * the same value: plain digits need no trimming and contain no underscore.
   */
  lemma ParseIntIsPyInt(s: string)
    requires OperatorFree(s) && ParseInt(s).Some?
    ensures PyParser.PyInt(s) == ParseInt(s)
  {
    assert !IsOperator(s[0]);
    assert AllDigits(s);
    assert !PyParser.IsPySpace(s[0]) && !PyParser.IsPySpace(s[|s| - 1]);
    assert PyParser.TrimStart(s) == s && PyParser.TrimEnd(s) == s;
    assert PyParser.Grouped(s);
    PyParser.UngroupedOfDigits(s);
  }

  // ---------------------------------------------------------------------------
  // Parse
  // ---------------------------------------------------------------------------

  /**
   * A tree `Parse` returns holds only operators of `+ - * / ^` and constants in
   * `0 .. 2^31-1`: a sign character is always split on before `parseInt` sees it.
   */
  lemma ParseConstantsInRange(t: string)
    requires Parse(t).Ok?
    ensures AllConstants(Parse(t).value, NonNegativeInt)
    ensures OperatorsOnly(Parse(t).value)
  {
    forall s | OperatorFree(s) && ParseInt(s).Some? ensures NonNegativeInt(ParseInt(s).value) {
      ParseIntSignFree(s);
    }
    ParseConstants(t, ParseInt, NonNegativeInt);
  }

  /** Wherever the Java parser succeeds, the Python `parse` builds the same tree. */
  lemma ParseAgreesWithPython(t: string)
    requires Parse(t).Ok?
    ensures PyParser.Parse(t) == Parse(t)
  {
    forall s | OperatorFree(s) && ParseInt(s).Some? ensures PyParser.PyInt(s) == ParseInt(s) {
      ParseIntIsPyInt(s);
    }
    ParseWithAgrees(t, ParseInt, PyParser.PyInt);
  }

  /**
   * Operator-free text is one literal: it parses exactly when it is a non-empty run of
   * ASCII digits within the `int` range, and otherwise throws on that text. So an empty
   * operand ("3+"), parentheses, whitespace and "2147483648" all throw.
   */
  lemma ParseOperatorFree(s: string)
    requires OperatorFree(s)
    ensures Parse(s).Ok? <==> s != [] && AllDigits(s) && DigitsValue(s) <= IntMax
    ensures Parse(s).Ok? ==> Parse(s) == Ok(Constant(DigitsValue(s)))
    ensures Parse(s).Err? ==> Parse(s) == Err(InvalidLiteral(s))
  {
    if s != [] {
      assert !IsOperator(s[0]);
      if AllDigits(s) {
        DigitsValueNonNegative(s);
      }
    }
    ParseLiteral(s, ParseInt);
  }

  // ---------------------------------------------------------------------------
  // Examples
  // ---------------------------------------------------------------------------

  /** A one-digit slice of a text parses to that digit. */
  lemma ParseDigitAt(t: string, k: nat)
    requires k < |t| && IsDigit(t[k])
    ensures Parse(t[k..k + 1]) == Ok(Constant(DigitValue(t[k])))
  {
    var s := t[k..k + 1];
    assert s == [t[k]] && s[..0] == [];
    ParseOperatorFree(s);
  }

  /** "8-3" is the left operand of "8-3-2". */
  lemma SubtractionChainLeft(t: string)
    requires t == "8-3-2"
    ensures Parse(t[0..3]) == Ok(Op('-', Constant(8), Constant(3)))
  {
    ParseDigitAt(t, 0);
    ParseDigitAt(t, 2);
    ParseAddSubIn(t, 0, 1, 3, ParseInt);
  }

  /** Same-tier chains associate to the left: "8-3-2" is (8-3)-2. */
  lemma SubtractionChain(t: string)
    requires t == "8-3-2"
    ensures Parse(t) == Ok(Op('-', Op('-', Constant(8), Constant(3)), Constant(2)))
  {
    SubtractionChainLeft(t);
    ParseDigitAt(t, 4);
    ParseAddSubIn(t, 0, 3, 5, ParseInt);
    assert t[0..5] == t;
  }

  /** Ten digits led by a digit of 3 or more are beyond `2^31-1`: "3000000000" throws. */
  lemma ParseTenDigits(s: string)
    requires AllDigits(s) && |s| == 10 && s[0] >= '3'
    ensures Parse(s) == Err(InvalidLiteral(s))
  {
    DigitsValueLeading(s);
    assert Pow10(9) == 1_000_000_000;
    assert OperatorFree(s);
    ParseOperatorFree(s);
  }
}
