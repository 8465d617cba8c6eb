/** The Python variant on the inputs its tests and its script use. */
module PyExamples {
  import opened Results
  import opened Text
  import opened Tiers
  import opened SplitParser
  import opened PyParser
  import opened PyVisitors

  lemma PyIntDigit(d: char)
    requires IsDigit(d)
    ensures PyInt([d]) == Some(DigitValue(d))
  {
    var s := [d];
    assert TrimStart(s) == s && TrimEnd(s) == s;
    assert Grouped(s);
    assert s[1..] == [] && s[..0] == [];
    assert Ungrouped(s) == s;
    assert DigitsValue(s) == DigitValue(d);
  }

  lemma ParseDigit(d: char)
    requires IsDigit(d)
    ensures Parse([d]) == Ok(Constant(DigitValue(d)))
  {
    PyIntDigit(d);
    assert OperatorFree([d]);
    ParseLiteral([d], PyInt);
  }

  /** "8-3" is the left operand of "8-3-2". */
  lemma SubtractionChainLeft(t: string)
    requires t == "8-3-2"
    ensures Parse(t[0..3]) == Ok(Op('-', Constant(8), Constant(3)))
  {
    ParseDigitAt(t, 0);
    ParseDigitAt(t, 2);
    ParseAddSubIn(t, 0, 1, 3, PyInt);
  }

  /** Same-tier chains associate to the left: "8-3-2" is (8-3)-2. */
  lemma SubtractionChain(t: string)
    requires t == "8-3-2"
    ensures Parse(t) == Ok(Op('-', Op('-', Constant(8), Constant(3)), Constant(2)))
  {
    SubtractionChainLeft(t);
    ParseDigitAt(t, 4);
    ParseAddSubIn(t, 0, 3, 5, PyInt);
    assert t[0..5] == t;
  }

  lemma ParseTwoDigits(a: char, b: char)
    requires IsDigit(a) && IsDigit(b)
    ensures Parse([a, b]) == Ok(Constant(10 * DigitValue(a) + DigitValue(b)))
  {
    var s := [a, b];
    assert TrimStart(s) == s && TrimEnd(s) == s;
    assert Grouped(s);
    UngroupedOfDigits(s);
    assert s[..1] == [a] && [a][..0] == [];
    assert DigitsValue([a]) == DigitValue(a);
    assert DigitsValue(s) == 10 * DigitValue(a) + DigitValue(b);
    assert OperatorFree(s);
    ParseLiteral(s, PyInt);
  }

  /** A one-digit slice of a text parses to that digit. */
  lemma ParseDigitAt(t: string, k: nat)
    requires k < |t| && IsDigit(t[k])
    ensures Parse(t[k..k + 1]) == Ok(Constant(DigitValue(t[k])))
  {
    assert t[k..k + 1] == [t[k]];
    ParseDigit(t[k]);
  }

  /** A two-digit slice of a text parses to that number. */
  lemma ParseTwoDigitsAt(t: string, k: nat)
    requires k + 1 < |t| && IsDigit(t[k]) && IsDigit(t[k + 1])
    ensures Parse(t[k..k + 2]) == Ok(Constant(10 * DigitValue(t[k]) + DigitValue(t[k + 1])))
  {
    assert t[k..k + 2] == [t[k], t[k + 1]];
    ParseTwoDigits(t[k], t[k + 1]);
  }

  /** "8*3" is the first product of the tests' "8*3/4". */
  lemma ParseMulDivChainLeft(t: string)
    requires t == "8*3/4"
    ensures Parse(t[0..3]) == Ok(Op('*', Constant(8), Constant(3)))
  {
    ParseDigitAt(t, 0);
    ParseDigitAt(t, 2);
    ParseMulDivIn(t, 0, 1, 3, PyInt);
  }

  /** "8*3/4" is (8*3)/4. */
  lemma ParseMulDivChain(t: string)
    requires t == "8*3/4"
    ensures Parse(t) == Ok(Op('/', Op('*', Constant(8), Constant(3)), Constant(4)))
  {
    ParseMulDivChainLeft(t);
    ParseDigitAt(t, 4);
    ParseMulDivIn(t, 0, 3, 5, PyInt);
    assert t[0..5] == t;
  }

  /** The tests' "8*3/4" evaluates to 6: 24 // 4. */
  lemma MulDivChain(t: string)
    requires t == "8*3/4"
    ensures Parse(t).Ok? && Eval(Parse(t).value) == Ok(6)
  {
    ParseMulDivChain(t);
  }

  /** "8/4" inside the tests' "11-8/4*3+2". */
  lemma ParseMixedQuotient(t: string)
    requires t == "11-8/4*3+2"
    ensures Parse(t[3..6]) == Ok(Op('/', Constant(8), Constant(4)))
  {
    ParseDigitAt(t, 3);
    ParseDigitAt(t, 5);
    ParseMulDivIn(t, 3, 4, 6, PyInt);
  }

  /** "8/4*3" is (8/4)*3. */
  lemma ParseMixedProduct(t: string)
    requires t == "11-8/4*3+2"
    ensures Parse(t[3..8]) == Ok(Op('*', Op('/', Constant(8), Constant(4)), Constant(3)))
  {
    ParseMixedQuotient(t);
    ParseDigitAt(t, 7);
    ParseMulDivIn(t, 3, 6, 8, PyInt);
  }

  /** "11-8/4*3" is 11-((8/4)*3): the product binds tighter than '-'. */
  lemma ParseMixedDifference(t: string)
    requires t == "11-8/4*3+2"
    ensures Parse(t[0..8]) == Ok(Op('-', Constant(11), Op('*', Op('/', Constant(8), Constant(4)), Constant(3))))
  {
    ParseMixedProduct(t);
    ParseTwoDigitsAt(t, 0);
    ParseAddSubIn(t, 0, 2, 8, PyInt);
  }

  lemma ParseMixedExpression(t: string)
    requires t == "11-8/4*3+2"
    ensures Parse(t) == Ok(Op('+', Op('-', Constant(11), Op('*', Op('/', Constant(8), Constant(4)), Constant(3))), Constant(2)))
  {
    ParseMixedDifference(t);
    ParseDigitAt(t, 9);
    ParseAddSubIn(t, 0, 8, 10, PyInt);
    assert t[0..10] == t;
  }

  /** The tests' "11-8/4*3+2" evaluates to 7: 11 - (8 // 4) * 3 + 2. */
  lemma MixedExpression(t: string)
    requires t == "11-8/4*3+2"
    ensures Parse(t).Ok? && Eval(Parse(t).value) == Ok(7)
  {
    ParseMixedExpression(t);
  }

  lemma ParseDivision(t: string)
    requires t == "9/3"
    ensures Parse(t) == Ok(Op('/', Constant(9), Constant(3)))
  {
    ParseDigitAt(t, 0);
    ParseDigitAt(t, 2);
    ParseMulDivIn(t, 0, 1, 3, PyInt);
    assert t[0..3] == t;
  }

  /** The tests' "9/3" evaluates to 3. */
  lemma Division(t: string)
    requires t == "9/3"
    ensures Parse(t).Ok? && Eval(Parse(t).value) == Ok(3)
  {
    ParseDivision(t);
  }

  lemma ParseDivisionByZero(t: string)
    requires t == "1/0"
    ensures Parse(t) == Ok(Op('/', Constant(1), Constant(0)))
  {
    ParseDigitAt(t, 0);
    ParseDigitAt(t, 2);
    ParseMulDivIn(t, 0, 1, 3, PyInt);
    assert t[0..3] == t;
  }

  /** "1/0" parses, and evaluating it raises `ZeroDivisionError`. */
  lemma DivisionByZero(t: string)
    requires t == "1/0"
    ensures Parse(t).Ok? && Eval(Parse(t).value) == Err(ZeroDivisionError)
  {
    ParseDivisionByZero(t);
  }

  /** "2^3" is the left operand of "2^3^2". */
  lemma ParsePowerChainLeft(t: string)
    requires t == "2^3^2"
    ensures Parse(t[0..3]) == Ok(Op('^', Constant(2), Constant(3)))
  {
    ParseDigitAt(t, 0);
    ParseDigitAt(t, 2);
    ParsePowerIn(t, 0, 1, 3, PyInt);
  }

  /** Same-tier '^' chains associate to the left too: "2^3^2" is (2^3)^2, which is 64. */
  lemma PowerChain(t: string)
    requires t == "2^3^2"
    ensures Parse(t) == Ok(Op('^', Op('^', Constant(2), Constant(3)), Constant(2)))
    ensures Eval(Parse(t).value) == Ok(64)
  {
    ParsePowerChainLeft(t);
    ParseDigitAt(t, 4);
    ParsePowerIn(t, 0, 3, 5, PyInt);
    assert t[0..5] == t;
  }

  /** Parentheses are not understood: "(1+2)" splits at '+', and `int("(1")` raises `ValueError`. */
  lemma ParenthesesRejected(t: string)
    requires t == "(1+2)"
    ensures Parse(t) == Err(InvalidLiteral("(1"))
  {
    var s := t[..2];
    assert OperatorFree(s);
    ParseLiteral(s, PyInt);
    assert PyInt(s).None?;
    ParseAddSubRoot(t, PyInt, 2);
    assert s == "(1";
  }

  lemma ParseSum(t: string)
    requires t == "3+4"
    ensures Parse(t) == Ok(Op('+', Constant(3), Constant(4)))
  {
    ParseDigitAt(t, 0);
    ParseDigitAt(t, 2);
    ParseAddSubIn(t, 0, 1, 3, PyInt);
    assert t[0..3] == t;
  }

  /** "3+4" prints as "((3)+(4))". */
  lemma RenderSum(t: string)
    requires t == "3+4"
    ensures Parse(t).Ok? && Render(Parse(t).value) == "((3)+(4))"
  {
    ParseSum(t);
  }
}
