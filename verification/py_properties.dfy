/** What the Python `parse` and `ComputeVisitor` guarantee together. */
module PyProperties {
  import opened Results
  import opened Tiers
  import opened SplitParser
  import opened PyParser
  import opened PyVisitors

  /**
   * Below a '*', '/' or '^' root there is no '+' or '-', so both operands evaluate to
   * non-negative integers, and a '/' root with a non-zero divisor is Dafny's `/`:
   * floor division and truncating division agree there.
   */
  lemma ProductOperands(t: string)
    requires Parse(t).Ok? && Parse(t).value.Op? && !InTier(Parse(t).value.op, AddSub)
    requires Eval(Parse(t).value.l).Ok? && Eval(Parse(t).value.r).Ok?
    ensures var e := Parse(t).value;
      var a, b := Eval(e.l).value, Eval(e.r).value;
      && a >= 0 && b >= 0
      && (e.op == '/' && b != 0 ==> Eval(e) == Ok(a / b))
  {
    var e := Parse(t).value;
    ParseBelowProduct(t, PyInt);
    ParseNonNegative(t);
    EvalNonNegative(e.l);
    EvalNonNegative(e.r);
    var a, b := Eval(e.l).value, Eval(e.r).value;
    if e.op == '/' && b != 0 {
      FloorDivNonNegative(a, b);
    }
  }

  /** Every value `parse` produces and `ComputeVisitor` evaluates without a '+' or '-' root is non-negative. */
  lemma ProductValueNonNegative(t: string)
    requires Parse(t).Ok? && NoAddSub(Parse(t).value) && Eval(Parse(t).value).Ok?
    ensures Eval(Parse(t).value).value >= 0
  {
    ParseNonNegative(t);
    EvalNonNegative(Parse(t).value);
  }
}
