/** What the Java `Parser.Parse` and the first-phase `PrettyPrintVisitor` give together. */
module JavaProperties {
  import opened Results
  import opened Text
  import opened SplitParser
  import opened JavaParser
  import opened JavaPrinter

  /** Printing a parsed tree always gives one balanced parenthesised group. */
  lemma ParsedRenderSingleGroup(t: string)
    requires Parse(t).Ok?
    ensures SingleGroup(Render(Parse(t).value))
  {
    ParseConstantsInRange(t);
    RenderSingleGroup(Parse(t).value);
  }

  lemma ParseSum(t: string)
    requires t == "3+4"
    ensures Parse(t) == Ok(Op('+', Constant(3), Constant(4)))
  {
    ParseDigitAt(t, 0);
    ParseDigitAt(t, 2);
    ParseAddSubIn(t, 0, 1, 3, ParseInt);
    assert t[0..3] == t;
  }

  /** "3+4" prints as "((3.0)+(4.0))": `Double.toString` gives an integer-valued constant a ".0". */
  lemma RenderSum(t: string)
    requires t == "3+4"
    ensures Parse(t).Ok? && Render(Parse(t).value) == "((3.0)+(4.0))"
  {
    ParseSum(t);
  }
}
