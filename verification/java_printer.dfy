/**
 * The Java `PrettyPrintVisitor` of the first phase: it writes the text of the subtree it
 * visited into its `output` field, building an operator's text in a `StringBuilder`.
 * A constant is a `double` and is printed with `Double.toString`; the constants it
 * prints here are the integers `Parser.Parse` produces.
 */
module JavaPrinter {
  import opened Text
  import opened SplitParser

  /** `s` without its trailing '0' characters. */
  function StripZeros(s: string): (r: string)
    ensures |r| <= |s| && r == s[..|r|]
    ensures r == [] || r[|r| - 1] != '0'
    ensures forall i :: |r| <= i < |s| ==> s[i] == '0'
  {
    if s != [] && s[|s| - 1] == '0' then StripZeros(s[..|s| - 1]) else s
  }

  /**
   * `Double.toString` of a non-negative integer-valued `double`: the digits and ".0"
   * below 10^7; from 10^7 on, one digit, a point, the remaining significant digits
   * (at least one) and the exponent after 'E'.
   */
  function NatDoubleText(n: nat): string
  {
    if n < 10_000_000 then NatText(n) + ".0"
    else
      var d := NatText(n);
      [d[0]] + "." + Significand(d) + "E" + NatText(|d| - 1)
  }

  /** The digits after the point: those after the first without trailing zeros, or "0" if none remain. */
  function Significand(d: string): string
    requires d != []
  {
    var f := StripZeros(d[1..]);
    if f == [] then "0" else f
  }

  /** `Double.toString` of an integer-valued `double`, with a '-' in front of a negative value. */
  function DoubleText(x: int): string
  {
    if x < 0 then "-" + NatDoubleText(-x) else NatDoubleText(x)
  }

  /** The `output` a visit leaves: "(" + constant + ")", or "(" + left + op + right + ")". */
  function Render(e: Tree): string
  {
    match e
    case Constant(x) => "(" + DoubleText(x) + ")"
    case Op(op, l, r) => "(" + Render(l) + [op] + Render(r) + ")"
  }

  // ---------------------------------------------------------------------------
  // Double.toString
  // ---------------------------------------------------------------------------

  /** Appending zeros multiplies the value by ten for each zero. */
  lemma {:induction false} TrailingZerosValue(a: string, z: string)
    requires forall i :: 0 <= i < |z| ==> z[i] == '0'
    ensures DigitsValue(a + z) == DigitsValue(a) * Pow10(|z|)
    decreases |z|
  {
    if z != [] {
      var y := z[..|z| - 1];
      assert (a + z)[..|a + z| - 1] == a + y;
      assert (a + z)[|a + z| - 1] == '0';
      TrailingZerosValue(a, y);
      var v, p := DigitsValue(a), Pow10(|y|);
      assert DigitsValue(a + z) == DigitsValue(a + y) * 10 == (v * p) * 10;
      assert Pow10(|z|) == 10 * p;
      assert (v * p) * 10 == v * (10 * p);
    } else {
      assert a + z == a;
    }
  }

  /** The decimal text of a positive number does not start with '0'. */
  lemma {:induction false} NatTextLeading(n: nat)
    requires n >= 1
    ensures NatText(n)[0] != '0'
  {
    if n >= 10 {
      NatTextLeading(n / 10);
    }
  }

  /** A digit string is below one more than its leading digit times that digit's place value. */
  lemma {:induction false} DigitsValueBelow(s: string)
    requires AllDigits(s) && s != []
    ensures DigitsValue(s) < (DigitValue(s[0]) + 1) * Pow10(|s| - 1)
  {
    if |s| > 1 {
      var p := s[..|s| - 1];
      DigitsValueBelow(p);
      assert p[0] == s[0];
      var b := (DigitValue(s[0]) + 1) * Pow10(|p| - 1);
      assert DigitsValue(p) <= b - 1;
      assert DigitsValue(s) <= (b - 1) * 10 + 9;
      assert (DigitValue(s[0]) + 1) * Pow10(|s| - 1) == b * 10;
    }
  }

  /** Below 10^7 the text is the integer's digits followed by ".0". */
  lemma PlainText(n: nat) returns (whole: string)
    requires n < 10_000_000
    ensures NatDoubleText(n) == whole + ".0"
    ensures AllDigits(whole) && DigitsValue(whole) == n
    ensures whole == "0" || whole[0] != '0'
  {
    whole := NatText(n);
    NatTextValue(n);
    if n >= 1 {
      NatTextLeading(n);
    } else {
      assert whole == [DigitChar(0)];
    }
  }

  /** A digit followed by "0" is ten times the digit. */
  lemma LeadingTen(lead: char, k: nat)
    requires IsDigit(lead) && k >= 1
    ensures DigitsValue([lead]) * Pow10(k) == DigitsValue([lead] + "0") * Pow10(k - 1)
  {
    var one := [lead];
    assert one[..0] == [];
    var v := DigitValue(lead);
    assert DigitsValue(one) == v;
    var two := [lead] + "0";
    assert two[..1] == one && two[1] == '0';
    assert DigitsValue(two) == v * 10;
    assert Pow10(k) == 10 * Pow10(k - 1);
    assert v * (10 * Pow10(k - 1)) == (v * 10) * Pow10(k - 1);
  }

  /** The significand is one or more digits, ending in a non-zero digit unless it is "0". */
  lemma SignificandDigits(d: string)
    requires AllDigits(d) && |d| >= 2
    ensures var f := Significand(d);
      && AllDigits(f) && 1 <= |f| <= |d| - 1
      && (f == "0" || f[|f| - 1] != '0')
  {
    var g := StripZeros(d[1..]);
    forall i | 0 <= i < |g| ensures IsDigit(g[i]) {
      assert g[i] == d[1..][i];
    }
  }

  /**
   * The significand drops only zeros: the leading digit followed by it, scaled by the
   * place value of the dropped digits, is the whole digit string again.
   */
  lemma SignificandValue(d: string)
    requires AllDigits(d) && |d| >= 2
    ensures |Significand(d)| <= |d| - 1
    ensures DigitsValue(d) == DigitsValue([d[0]] + Significand(d)) * Pow10(|d| - 1 - |Significand(d)|)
  {
    var lead := d[0];
    var g := StripZeros(d[1..]);
    var z := d[1..][|g|..];
    assert d == [lead] + g + z by {
      assert d[1..] == g + z;
    }
    TrailingZerosValue([lead] + g, z);
    if g == [] {
      LeadingTen(lead, |z|);
    }
  }

  /**
   * From 10^7 on the text is normalised scientific notation: one non-zero digit before
   * the point, the significant digits after it without trailing zeros ("0" when there
   * are none), and an exponent that puts the point back: the text denotes `n`.
   */
  lemma ScientificText(n: nat) returns (lead: char, frac: string, exp: nat)
    requires n >= 10_000_000
    ensures NatDoubleText(n) == [lead] + "." + frac + "E" + NatText(exp)
    ensures IsDigit(lead) && lead != '0' && AllDigits(frac)
    ensures frac == "0" || (frac != [] && frac[|frac| - 1] != '0')
    ensures DigitValue(lead) * Pow10(exp) <= n < (DigitValue(lead) + 1) * Pow10(exp)
    ensures |frac| <= exp && n == DigitsValue([lead] + frac) * Pow10(exp - |frac|)
  {
    var d := NatText(n);
    lead := d[0];
    exp := |d| - 1;
    frac := Significand(d);
    assert DigitsValue(d) == n by {
      NatTextValue(n);
    }
    assert lead != '0' by {
      NatTextLeading(n);
    }
    assert DigitValue(lead) * Pow10(exp) <= n < (DigitValue(lead) + 1) * Pow10(exp) by {
      DigitsValueLeading(d);
      DigitsValueBelow(d);
    }
    assert |d| >= 2;
    SignificandDigits(d);
    SignificandValue(d);
  }

  lemma SignificandParenFree(d: string)
    requires d != [] && ParenFree(d)
    ensures ParenFree(Significand(d))
  {
    var f := StripZeros(d[1..]);
    forall i | 0 <= i < |f| ensures f[i] != '(' && f[i] != ')' {
      assert f[i] == d[1..][i];
    }
  }

  /** The text of a constant holds digits, '.', 'E' and '-', but no parenthesis. */
  lemma NatDoubleTextParenFree(n: nat)
    ensures ParenFree(NatDoubleText(n))
  {
    var d := NatText(n);
    NatTextParenFree(n);
    if n >= 10_000_000 {
      NatTextParenFree(|d| - 1);
      SignificandParenFree(d);
    }
  }

  lemma DoubleTextParenFree(x: int)
    ensures ParenFree(DoubleText(x))
  {
    NatDoubleTextParenFree(if x < 0 then -x else x);
  }

  // ---------------------------------------------------------------------------
  // The printed text
  // ---------------------------------------------------------------------------

  /**
   * The output starts with '(' and ends with ')', and its parentheses are balanced with
   * the first '(' closed only by the last ')'.
   */
  lemma {:induction false} RenderSingleGroup(e: Tree)
    requires OperatorsOnly(e)
    ensures SingleGroup(Render(e))
  {
    match e
    case Constant(x) =>
      DoubleTextParenFree(x);
      ParenFreeBalanced(DoubleText(x));
      GroupOfBalanced(DoubleText(x));
    case Op(op, l, r) =>
      RenderSingleGroup(l);
      RenderSingleGroup(r);
      SingleGroupBalanced(Render(l));
      SingleGroupBalanced(Render(r));
      OpGroup(op, Render(l), Render(r));
  }

  // ---------------------------------------------------------------------------
  // The visitor class
  // ---------------------------------------------------------------------------

  /** `PrettyPrintVisitor`: the text of the last subtree visited, in `output`. */
  class PrettyPrintVisitor {
    var output: string

    /** `e.accept(this)`. */
    method Accept(e: Tree)
      modifies this
      ensures output == Render(e)
      decreases e, 1
    {
      match e
      case Constant(_) => VisitConstant(e);
      case Op(_, _, _) => VisitOp(e);
    }

    method VisitConstant(e: Tree)
      requires e.Constant?
      modifies this
      ensures output == Render(e)
    {
      output := "(" + DoubleText(e.x) + ")";
    }

    /**
     * The builder starts as "(", receives the left text and the operator, then the
     * right text and ")"; the left subtree is visited first, and `output` is
     * overwritten with the builder's text at the end.
     */
    method VisitOp(e: Tree)
      requires e.Op?
      modifies this
      ensures output == Render(e)
      decreases e, 0
    {
      var result := "(";
      Accept(e.l);
      result := result + output + [e.op];
      ghost var left := output;
      Accept(e.r);
      result := result + output + ")";
      assert result == "(" + left + [e.op] + output + ")";
      output := result;
    }
  }
}
