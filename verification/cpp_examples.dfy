/** The C++ variant on small inputs: which tree `parse` builds, what fails, and what is printed. */
module CppExamples {
  import opened Results
  import opened Text
  import opened Tiers
  import opened CppStrings
  import opened CppParser
  import opened CppValidator
  import opened CppVisitors
  import opened CppRoundTrip
  import SplitParser

  /** The constant a digit converts to. */
  function Digit(d: char): Expr
    requires IsDigit(d)
  {
    Constant(DigitValue(d) as real)
  }

  /** A single digit is converted by `std::stod` to its value. */
  lemma ParseDigit(d: char)
    requires IsDigit(d)
    ensures Parse([d]) == Ok(Digit(d))
  {
    var s := [d];
    assert s[1..] == [] && s[..0] == [];
    ParseNumber(s);
    assert LeadingDigits(s) == s;
    assert s[|s|..] == [];
    StodUnsigned(s, s, "");
  }

  /** Text made only of digits and operator characters: no whitespace, no parentheses. */
  predicate Plain(s: string)
  {
    forall j :: 0 <= j < |s| ==> IsDigit(s[j]) || IsOperator(s[j])
  }

  lemma PlainChars(u: string)
    requires Plain(u)
    ensures NoSpace(u) && ParenFree(u)
  {
  }

  /** Without parentheses every suffix has excess 0. */
  lemma SuffixExcess(u: string)
    requires ParenFree(u)
    ensures forall j :: 0 <= j <= |u| ==> Excess(u[j..|u|]) == 0
  {
    forall j | 0 <= j <= |u|
      ensures Excess(u[j..|u|]) == 0
    {
      assert ParenFree(u[j..|u|]);
      ParenFreeExcess(u[j..|u|]);
    }
  }

  /** In plain text the counter stays 0, so the rightmost operator of a tier is the split point. */
  lemma PlainSplit(u: string, tier: Tier, k: nat)
    requires Plain(u) && k < |u| && InTier(u[k], tier) && SplitParser.NoneIn(u[k + 1..], tier)
    ensures NoSpace(u) && Excess(u) == 0 && RightmostSplit(u, tier, 0, k)
  {
    PlainChars(u);
    ParenFreeExcess(u);
    SuffixExcess(u);
    forall j | k < j < |u|
      ensures !InTier(u[j], tier)
    {
      assert u[j] == u[k + 1..][j - k - 1];
    }
  }

  /** Plain text splits at its last `+` or `-`. */
  lemma SplitAddSub(u: string, k: nat)
    requires Plain(u) && k < |u| && InTier(u[k], AddSub) && SplitParser.NoneIn(u[k + 1..], AddSub)
    ensures Parse(u) == Combine(u[k], Parse(u[..k]), Parse(u[k + 1..]))
  {
    PlainSplit(u, AddSub, k);
    FirstTokenOfNoSpace(u);
    ActionAddSub(u, k);
    UnfoldSplit(u, k);
  }

  /** Plain text without `+` and `-` splits at its last `*` or `/`. */
  lemma SplitMulDiv(u: string, k: nat)
    requires Plain(u) && SplitParser.NoneIn(u, AddSub)
    requires k < |u| && InTier(u[k], MulDiv) && SplitParser.NoneIn(u[k + 1..], MulDiv)
    ensures Parse(u) == Combine(u[k], Parse(u[..k]), Parse(u[k + 1..]))
  {
    PlainSplit(u, MulDiv, k);
    FirstTokenOfNoSpace(u);
    ActionMulDiv(u, k);
    UnfoldSplit(u, k);
  }

  /** Plain text without `+ - * /` splits at its last '^'. */
  lemma SplitPower(u: string, k: nat)
    requires Plain(u) && SplitParser.NoneIn(u, AddSub) && SplitParser.NoneIn(u, MulDiv)
    requires k < |u| && u[k] == '^' && SplitParser.NoneIn(u[k + 1..], Power)
    ensures Parse(u) == Combine('^', Parse(u[..k]), Parse(u[k + 1..]))
  {
    PlainSplit(u, Power, k);
    FirstTokenOfNoSpace(u);
    ActionPower(u, k);
    UnfoldSplit(u, k);
  }

  // ---------------------------------------------------------------------------
  // Trees
  // ---------------------------------------------------------------------------

  /** Digit, operator, digit. */
  predicate Pair(v: string)
  {
    |v| == 3 && IsDigit(v[0]) && IsOperator(v[1]) && IsDigit(v[2])
  }

  lemma PairFacts(v: string)
    requires Pair(v)
    ensures Plain(v) && v[..1] == [v[0]] && v[2..] == [v[2]]
    ensures forall tier :: SplitParser.NoneIn(v[2..], tier)
    ensures !InTier(v[1], AddSub) ==> SplitParser.NoneIn(v, AddSub)
    ensures !InTier(v[1], AddSub) && !InTier(v[1], MulDiv) ==> SplitParser.NoneIn(v, MulDiv)
  {
  }

  /** Any one operator between two digits makes one `Op` over the two constants. */
  lemma ParsePair(v: string)
    requires Pair(v)
    ensures Parse(v) == Ok(Op(v[1], Digit(v[0]), Digit(v[2])))
  {
    PairFacts(v);
    ParseDigit(v[0]);
    ParseDigit(v[2]);
    if InTier(v[1], AddSub) {
      SplitAddSub(v, 1);
    } else if InTier(v[1], MulDiv) {
      SplitMulDiv(v, 1);
    } else {
      SplitPower(v, 1);
    }
  }

  /** Digit, operator, digit, operator, digit, the operators of the tiers given. */
  predicate ChainShape(u: string, first: Tier, second: Tier)
  {
    && |u| == 5 && IsDigit(u[0]) && IsDigit(u[2]) && IsDigit(u[4])
    && InTier(u[1], first) && InTier(u[3], second)
  }

  /** The pieces a chain splits into: its first three characters and its last one. */
  lemma LeftPieces(u: string, first: Tier, second: Tier)
    requires ChainShape(u, first, second)
    ensures Plain(u) && Pair(u[..3]) && u[4..] == [u[4]] && SplitParser.NoneIn(u[4..], second)
    ensures u[..3][0] == u[0] && u[..3][1] == u[1] && u[..3][2] == u[2]
  {
  }

  /** The pieces "3+5/2" splits into: its first character and its last three. */
  lemma RightPieces(u: string)
    requires ChainShape(u, AddSub, MulDiv)
    ensures Plain(u) && Pair(u[2..]) && u[..1] == [u[0]] && SplitParser.NoneIn(u[2..], AddSub)
    ensures u[2..][0] == u[2] && u[2..][1] == u[3] && u[2..][2] == u[4]
  {
  }

  lemma NoLowerTiers(u: string)
    requires ChainShape(u, Power, Power)
    ensures SplitParser.NoneIn(u, AddSub) && SplitParser.NoneIn(u, MulDiv)
  {
  }

  /** `+` and `-` associate to the left: the split is at the second operator. */
  lemma AddSubChain(u: string)
    requires ChainShape(u, AddSub, AddSub)
    ensures Parse(u) == Ok(Op(u[3], Op(u[1], Digit(u[0]), Digit(u[2])), Digit(u[4])))
  {
    LeftPieces(u, AddSub, AddSub);
    ParsePair(u[..3]);
    ParseDigit(u[4]);
    SplitAddSub(u, 3);
  }

  /** `^` associates to the left as well: the split is at the last '^'. */
  lemma PowerChain(u: string)
    requires ChainShape(u, Power, Power)
    ensures Parse(u) == Ok(Op('^', Op('^', Digit(u[0]), Digit(u[2])), Digit(u[4])))
  {
    LeftPieces(u, Power, Power);
    NoLowerTiers(u);
    ParsePair(u[..3]);
    ParseDigit(u[4]);
    SplitPower(u, 3);
  }

  /** `*` and `/` bind tighter than `+` and `-`: the root is the `+`/`-` even though it comes first. */
  lemma Precedence(u: string)
    requires ChainShape(u, AddSub, MulDiv)
    ensures Parse(u) == Ok(Op(u[1], Digit(u[0]), Op(u[3], Digit(u[2]), Digit(u[4]))))
  {
    RightPieces(u);
    ParseDigit(u[0]);
    ParsePair(u[2..]);
    SplitAddSub(u, 1);
  }

  /** "8-3-2" is (8-3)-2. */
  lemma SubtractionChain(t: string)
    requires t == "8-3-2"
    ensures Parse(t) == Ok(Op('-', Op('-', Constant(8.0), Constant(3.0)), Constant(2.0)))
  {
    AddSubChain(t);
  }

  /** "2^3^2" is (2^3)^2. */
  lemma PowerChainExample(t: string)
    requires t == "2^3^2"
    ensures Parse(t) == Ok(Op('^', Op('^', Constant(2.0), Constant(3.0)), Constant(2.0)))
  {
    PowerChain(t);
  }

  /** "3+5/2" is 3+(5/2), and with exact arithmetic it evaluates to 5.5. */
  lemma PrecedenceExample(t: string, arith: (char, real, real) -> real)
    requires t == "3+5/2" && ExactArith(arith)
    ensures Parse(t) == Ok(Op('+', Constant(3.0), Op('/', Constant(5.0), Constant(2.0))))
    ensures Eval(Parse(t).value, map[], arith) == 5.5
  {
    Precedence(t);
  }

  /** A group followed by `*` or `/` and a digit splits at that operator: the group is not looked into. */
  lemma GroupThenDigit(g: string, op: char, d: char)
    requires SingleGroup(g) && NoSpace(g) && InTier(op, MulDiv) && IsDigit(d)
    ensures Parse(g + [op] + [d]) == Combine(op, Parse(g), Parse([d]))
  {
    var s := g + [op] + [d];
    var i := |g|;
    assert Excess([d]) == 0 by {
      assert [d][..0] == [];
    }
    forall k | 0 <= k < |s| ensures !IsSpace(s[k]) {
      if k < |g| {
        assert s[k] == g[k];
      }
    }
    FirstTokenOfNoSpace(s);
    assert Excess(s) == 0 by {
      ExcessConcat(g + [op], [d]);
      ExcessConcat(g, [op]);
      assert [op][..0] == [];
    }
    forall tier: Tier, j | 0 <= j < |s| && j != i
      ensures !SplitPoint(s, tier, |s|, 0, j)
    {
      assert s[j + 1..|s|] == s[j + 1..];
      JoinSuffixExcess(g, op, [d], j);
      if j + 1 < |g| {
        assert Excess(g[j + 1..]) >= 1;
      } else if j + 1 == |g| {
        assert s[j] == g[|g| - 1] == ')';
      } else {
        assert s[j] == d;
      }
    }
    assert s[i + 1..|s|] == [d];
    ActionMulDiv(s, i);
    assert s[..i] == g && s[i + 1..] == [d];
    UnfoldSplit(s, i);
  }

  /** The pieces of "(3+5)/2": a group around a digit pair, then the operator and a digit. */
  lemma GroupPieces(u: string)
    requires |u| == 7 && u[0] == '(' && Pair(u[1..4]) && u[4] == ')' && InTier(u[5], MulDiv) && IsDigit(u[6])
    ensures u == u[..5] + [u[5]] + [u[6]] && NoSpace(u[..5]) && SingleGroup(u[..5])
    ensures var g, v := u[..5], u[1..4];
      |g| == |v| + 2 && g[0] == '(' && g[|g| - 1] == ')' && g[1..|g| - 1] == v && Balanced(v) && NoSpace(v)
    ensures u[1..4][0] == u[1] && u[1..4][1] == u[2] && u[1..4][2] == u[3]
  {
    var g, v := u[..5], u[1..4];
    PairFacts(v);
    PlainChars(v);
    ParenFreeBalanced(v);
    assert g == "(" + v + ")";
    GroupOfBalanced(v);
    forall k | 0 <= k < |g| ensures !IsSpace(g[k]) {
      if 0 < k < 4 {
        assert g[k] == v[k - 1];
      }
    }
  }

  /** Parentheses override the tiers: the group's '+' sits below the '/' that follows it. */
  lemma GroupQuotient(u: string)
    requires |u| == 7 && u[0] == '(' && Pair(u[1..4]) && u[4] == ')' && InTier(u[5], MulDiv) && IsDigit(u[6])
    ensures Parse(u) == Ok(Op(u[5], Op(u[2], Digit(u[1]), Digit(u[3])), Digit(u[6])))
  {
    GroupPieces(u);
    GroupThenDigit(u[..5], u[5], u[6]);
    ParseWrapped(u[..5], u[1..4]);
    ParsePair(u[1..4]);
    ParseDigit(u[6]);
  }

  /** "(3+5)/2" is (3+5)/2, which is 4 with exact arithmetic. */
  lemma ParenthesisedQuotient(t: string, arith: (char, real, real) -> real)
    requires t == "(3+5)/2" && ExactArith(arith)
    ensures Parse(t) == Ok(Op('/', Op('+', Constant(3.0), Constant(5.0)), Constant(2.0)))
    ensures Eval(Parse(t).value, map[], arith) == 4.0
  {
    assert t[1..4] == "3+5";
    GroupQuotient(t);
  }

  // ---------------------------------------------------------------------------
  // Failures
  // ---------------------------------------------------------------------------

  /** An operand missing on the right of '+' throws: "3+". */
  lemma MissingRightOperand(t: string)
    requires t == "3+"
    ensures Parse(t).Err?
  {
    assert NoSpace(t) && ParenFree(t[2..]);
    FirstTokenOfNoSpace(t);
    ParenFreeExcess(t[2..]);
    assert RightmostSplit(t, AddSub, 0, 1) by {
      assert t[2..|t|] == t[2..];
    }
    EmptyOperandFails(t, 1);
  }

  /** An operand missing on the left of '+' throws: "+3". */
  lemma MissingLeftOperand(t: string)
    requires t == "+3"
    ensures Parse(t).Err?
  {
    assert NoSpace(t) && ParenFree(t[1..]);
    FirstTokenOfNoSpace(t);
    ParenFreeExcess(t[1..]);
    assert RightmostSplit(t, AddSub, 0, 0) by {
      assert t[1..|t|] == t[1..];
    }
    EmptyOperandFails(t, 0);
  }

  /** Text without a digit throws: "abc". */
  lemma NoDigits(t: string)
    requires t == "abc"
    ensures Parse(t).Err?
  {
    assert NoSpace(t);
    FirstTokenOfNoSpace(t);
    if Parse(t).Ok? {
      ParseNeedsDigit(t);
    }
  }

  // ---------------------------------------------------------------------------
  // is_valid_expression
  // ---------------------------------------------------------------------------

  /** A single blank and the empty string are rejected outright; two blanks hold no token and pass. */
  lemma BlankInputs(t: string)
    requires t == "  "
    ensures !IsValid("") && !IsValid(" ") && IsValid(t)
  {
    assert SkipWhitespace(t[1..]) == [];
    assert FirstToken(t) == [];
  }

  /** "abc" is rejected: `std::stod` finds no number at its start. */
  lemma InvalidWord(t: string)
    requires t == "abc"
    ensures !IsValid(t)
  {
    assert NoSpace(t);
    FirstTokenOfNoSpace(t);
    assert Unsigned(t) == t && LeadingDigits(t) == [];
    assert Stod(t) == None;
  }

  /** "3+" passes the validator, since `std::stod` reads its leading "3", yet `parse` throws on it. */
  lemma ValidButUnparsable(t: string)
    requires t == "3+"
    ensures IsValid(t) && Parse(t).Err?
  {
    MissingRightOperand(t);
    assert NoSpace(t);
    FirstTokenOfNoSpace(t);
    var rest := AfterFirstToken(t);
    assert SkipWhitespace(t) == t;
    assert rest == [];
    assert LeadingDigits(t[1..]) == [];
    assert LeadingDigits(t) == "3";
    assert Stod(t).Some?;
  }

  /** "3+5/2" passes the validator, since `std::stod` reads its leading "3". */
  lemma ValidExpression(t: string)
    requires t == "3+5/2"
    ensures IsValid(t)
  {
    assert NoSpace(t);
    FirstTokenOfNoSpace(t);
    assert SkipWhitespace(t) == t;
    assert AfterFirstToken(t) == [];
    assert LeadingDigits(t[1..]) == [];
    assert LeadingDigits(t) == "3";
    assert Stod(t).Some?;
  }

  /** "(3+5)/2" fails the validator, because `std::stod` reads no number at '(', although `parse` accepts it. */
  lemma ParenthesisedInvalid(t: string)
    requires t == "(3+5)/2"
    ensures !IsValid(t)
  {
    assert NoSpace(t);
    FirstTokenOfNoSpace(t);
    assert Unsigned(t) == t && LeadingDigits(t) == [];
    assert Stod(t) == None;
  }

  /**
   * Input made only of whitespace holds no token, so it passes unless it is "" or " ":
   * "  " and a single tab are valid.
   */
  lemma BlankValid(s: string)
    requires forall i :: 0 <= i < |s| ==> IsSpace(s[i])
    ensures IsValid(s) <==> s != "" && s != " "
  {
    SkipAllSpace(s);
    assert FirstToken(s) == [];
  }

  /** Skipping whitespace consumes text made only of whitespace. */
  lemma {:induction false} SkipAllSpace(s: string)
    requires forall i :: 0 <= i < |s| ==> IsSpace(s[i])
    ensures SkipWhitespace(s) == []
  {
    if s != [] {
      assert forall i :: 0 <= i < |s[1..]| ==> s[1..][i] == s[i + 1];
      SkipAllSpace(s[1..]);
    }
  }

  // ---------------------------------------------------------------------------
  // Printing
  // ---------------------------------------------------------------------------

  /** A whole number scaled by 10^6 needs no rounding. */
  lemma WholeRound6(n: nat)
    ensures Round6(n as real) == n * 1000000
  {
    assert n as real * 1000000.0 + 0.5 == (n * 1000000) as real + 0.5;
  }

  /** The two fraction digits of a whole number are "00". */
  lemma TwoZeros(m: nat)
    ensures Digits(m * 100, 2) == "00"
  {
    assert (m * 100) / 10 == m * 10 && (m * 100) % 10 == 0;
    assert (m * 10) / 10 == m && (m * 10) % 10 == 0;
    assert DigitChar(0) == '0';
  }

  /** A digit's constant is printed as that digit and ".00": `to_string(1.0)` cut after two decimals is "1.00". */
  lemma ConstantText(d: char)
    requires IsDigit(d)
    ensures Render(Digit(d)) == "(" + [d] + ".00)"
  {
    var v := DigitValue(d);
    ConstantBody(v as real);
    WholeRound6(v);
    var q := v * 1000000;
    assert q / 1000000 == v && q / 10000 == v * 100;
    assert NatText(v) == [d];
    TwoZeros(v);
  }

  /** An `Op` over two digit constants prints each with two decimals, inside one more pair. */
  lemma RenderDigitOp(op: char, a: char, b: char)
    requires IsDigit(a) && IsDigit(b)
    ensures Render(Op(op, Digit(a), Digit(b))) == "((" + [a] + ".00)" + [op] + "(" + [b] + ".00))"
  {
    ConstantText(a);
    ConstantText(b);
  }

  /** "1+2" is printed back as "((1.00)+(2.00))". */
  lemma RenderSum(t: string)
    requires t == "1+2"
    ensures Parse(t).Ok? && Render(Parse(t).value) == "((1.00)+(2.00))"
  {
    ParsePair(t);
    RenderDigitOp(t[1], t[0], t[2]);
    SumText(t[0], t[1], t[2]);
  }

  lemma SumText(a: char, op: char, b: char)
    requires a == '1' && op == '+' && b == '2'
    ensures "((" + [a] + ".00)" + [op] + "(" + [b] + ".00))" == "((1.00)+(2.00))"
  {
  }
}
