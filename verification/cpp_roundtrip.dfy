/**
 * What the C++ parser makes of the C++ printer's output. Every operation is printed in
 * its own pair of parentheses, so the carried depth counter stays 0 at the top level of
 * each group and the parser finds exactly the operator the printer wrote; a
 * non-negative constant comes back with its value cut to two decimals. A negative
 * constant is printed with a leading '-' that the parser takes for a subtraction with
 * an empty left side, so its text does not parse.
 */
module CppRoundTrip {
  import opened Results
  import opened Text
  import opened Tiers
  import opened CppStrings
  import opened CppParser
  import opened CppVisitors

  /** Trees whose printed text parses back: no variables, only the five operators, no negative constants. */
  predicate Reparseable(e: Expr)
  {
    match e
    case Constant(x) => x >= 0.0
    case Variable(_) => false
    case Op(op, l, r) => op in Operators && Reparseable(l) && Reparseable(r)
    case Parentheses(inner) => Reparseable(inner)
  }

  /** The value `std::stod` reads from a printed non-negative constant: `to_string`'s digits cut after two decimals. */
  function TwoPlaces(x: real): real
    requires x >= 0.0
  {
    var q := Round6(x);
    Decimal(q / 1000000, q / 10000)
  }

  /** The tree the parser builds from the printed text of `e`. */
  function Reparsed(e: Expr): (r: Expr)
    requires Reparseable(e)
    ensures ParserShaped(r)
  {
    match e
    case Constant(x) => Constant(TwoPlaces(x))
    case Op(op, l, r) => Op(op, Reparsed(l), Reparsed(r))
    case Parentheses(inner) => Reparsed(inner)
  }

  // ---------------------------------------------------------------------------
  // Shape of the printed text
  // ---------------------------------------------------------------------------

  lemma {:induction false} ReparseablePrintable(e: Expr)
    requires Reparseable(e)
    ensures Printable(e)
  {
    match e
    case Constant(_) =>
    case Op(_, l, r) =>
      ReparseablePrintable(l);
      ReparseablePrintable(r);
    case Parentheses(inner) =>
      ReparseablePrintable(inner);
  }

  /** The printed text of a non-negative constant, inside its parentheses: digits, '.', two digits. */
  lemma ConstantBody(x: real)
    requires x >= 0.0
    ensures var q := Round6(x);
      && Render(Constant(x)) == "(" + NatText(q / 1000000) + "." + Digits(q / 10000, 2) + ")"
      && TruncateAfterDot(ToString(x)) == NatText(q / 1000000) + "." + Digits(q / 10000, 2)
  {
    TruncatedToString(x);
    var q := Round6(x);
    var n := NatText(q / 1000000);
    assert Abs(x) == x;
    assert Sign(x) + n == n;
  }

  /** The printed text of a tree with no negative constants holds no whitespace. */
  lemma {:induction false} RenderNoSpace(e: Expr)
    requires Reparseable(e)
    ensures NoSpace(Render(e))
  {
    match e
    case Constant(x) =>
      var body := TruncateAfterDot(ToString(x));
      ConstantTextChars(x);
      var s := "(" + body + ")";
      forall i | 0 <= i < |s| ensures !IsSpace(s[i]) {
        if 0 < i < |s| - 1 {
          assert s[i] == body[i - 1];
        }
      }
    case Op(op, l, r) =>
      RenderNoSpace(l);
      RenderNoSpace(r);
      var a, b := Render(l), Render(r);
      var s := "(" + a + [op] + b + ")";
      forall i | 0 <= i < |s| ensures !IsSpace(s[i]) {
        if 1 <= i <= |a| {
          assert s[i] == a[i - 1];
        } else if |a| + 2 <= i < |s| - 1 {
          assert s[i] == b[i - |a| - 2];
        }
      }
    case Parentheses(inner) =>
      RenderNoSpace(inner);
  }

  // ---------------------------------------------------------------------------
  // Where the scans split printed text
  // ---------------------------------------------------------------------------

  /** With the counter at 0, one parenthesised group has no split point in any tier. */
  lemma GroupNoSplit(t: string, tier: Tier)
    requires SingleGroup(t)
    ensures NoSplit(t, tier, 0)
  {
    forall j | 0 <= j < |t| ensures !SplitPoint(t, tier, |t|, 0, j) {
      assert t[j + 1..|t|] == t[j + 1..];
    }
  }

  /** Nothing in one parenthesised group splits, so the parser removes its outer pair. */
  lemma GroupUnsplittable(t: string)
    requires SingleGroup(t)
    ensures Unsplittable(t)
  {
    GroupNoSplit(t, AddSub);
    GroupNoSplit(t, MulDiv);
    GroupNoSplit(t, Power);
  }

  /** Text without operators or parentheses has no split point in any tier, whatever the counter. */
  lemma NumberUnsplittable(t: string)
    requires forall i :: 0 <= i < |t| ==> NumberChar(t[i])
    ensures Unsplittable(t)
  {
  }

  /** The excess of a suffix of `a + [op] + b`, from the pieces. */
  lemma JoinSuffixExcess(a: string, op: char, b: string, j: nat)
    requires op != '(' && op != ')' && j < |a + [op] + b|
    ensures var s := a + [op] + b;
      && (j < |a| ==> Excess(s[j + 1..]) == Excess(a[j + 1..]) + Excess(b))
      && (j == |a| ==> Excess(s[j + 1..]) == Excess(b))
      && (j > |a| ==> s[j + 1..] == b[j - |a|..])
  {
    var s := a + [op] + b;
    if j < |a| {
      assert s[j + 1..] == a[j + 1..] + ([op] + b);
      ExcessConcat(a[j + 1..], [op] + b);
      ExcessConcat([op], b);
      assert [op][..0] == [];
    } else if j == |a| {
      assert s[j + 1..] == b;
    } else {
      assert s[j + 1..] == b[j - |a|..];
    }
  }

  /**
   * In `a + [op] + b` with both sides one parenthesised group, the only index where the
   * counter, started at 0, is 0 on an operator is the index of `op`.
   */
  lemma JoinSplitPoints(a: string, op: char, b: string, tier: Tier)
    requires SingleGroup(a) && SingleGroup(b) && op != '(' && op != ')'
    ensures var s := a + [op] + b;
      forall j :: 0 <= j < |s| ==> (SplitPoint(s, tier, |s|, 0, j) <==> j == |a| && InTier(op, tier))
  {
    var s := a + [op] + b;
    forall j | 0 <= j < |s|
      ensures SplitPoint(s, tier, |s|, 0, j) <==> j == |a| && InTier(op, tier)
    {
      assert s[j + 1..|s|] == s[j + 1..];
      JoinSuffixExcess(a, op, b, j);
      if j < |a| {
        assert s[j] == a[j];
        if j + 1 == |a| {
          assert a[j + 1..] == [];
        }
      } else if j > |a| {
        assert s[j] == b[j - |a| - 1];
        if j + 1 == |s| {
          assert b[j - |a|..] == [];
        }
      }
    }
  }

  lemma JoinExcess(a: string, op: char, b: string)
    requires SingleGroup(a) && SingleGroup(b) && op != '(' && op != ')'
    ensures Excess(a + [op] + b) == 0
  {
    ExcessConcat(a + [op], b);
    ExcessConcat(a, [op]);
    assert [op][..0] == [];
  }

  /** The parser splits `a + [op] + b` at `op`, over exactly `a` and `b`. */
  lemma ParseJoin(a: string, op: char, b: string)
    requires SingleGroup(a) && SingleGroup(b) && op in Operators
    requires NoSpace(a) && NoSpace(b)
    ensures Parse(a + [op] + b) == Combine(op, Parse(a), Parse(b))
  {
    var s := a + [op] + b;
    var i := |a|;
    forall k | 0 <= k < |s| ensures !IsSpace(s[k]) {
      if k < |a| {
        assert s[k] == a[k];
      } else if k > |a| {
        assert s[k] == b[k - |a| - 1];
      }
    }
    FirstTokenOfNoSpace(s);
    JoinExcess(a, op, b);
    JoinSplitPoints(a, op, b, AddSub);
    JoinSplitPoints(a, op, b, MulDiv);
    JoinSplitPoints(a, op, b, Power);
    if InTier(op, AddSub) {
      ActionAddSub(s, i);
    } else if InTier(op, MulDiv) {
      ActionMulDiv(s, i);
    } else {
      ActionPower(s, i);
    }
    assert s[..i] == a && s[i + 1..] == b;
    UnfoldSplit(s, i);
  }

  /** A parenthesised group without whitespace parses as its inside. */
  lemma ParseGroup(t: string)
    requires SingleGroup(t) && NoSpace(t)
    ensures Parse(t) == Parse(t[1..|t| - 1])
  {
    FirstTokenOfNoSpace(t);
    GroupUnsplittable(t);
    ParseStripsOuterPair(t);
  }

  /** Text in parentheses, around balanced text without whitespace, parses as that text. */
  lemma ParseWrapped(t: string, x: string)
    requires Balanced(x) && NoSpace(x)
    requires |t| == |x| + 2 && t[0] == '(' && t[|t| - 1] == ')' && t[1..|t| - 1] == x
    ensures Parse(t) == Parse(x)
  {
    assert t == "(" + x + ")";
    GroupOfBalanced(x);
    forall k | 0 <= k < |t| ensures !IsSpace(t[k]) {
      if 0 < k < |t| - 1 {
        assert t[k] == x[k - 1];
      }
    }
    ParseGroup(t);
  }

  /** The inside of a printed operation. */
  lemma InsideOfJoin(a: string, op: char, b: string)
    ensures var t := "(" + a + [op] + b + ")";
      |t| == |a + [op] + b| + 2 && t[0] == '(' && t[|t| - 1] == ')' && t[1..|t| - 1] == a + [op] + b
  {
  }

  /** The inside of a printed constant. */
  lemma InsideOfNumber(n: string, d: string)
    ensures var t := "(" + n + "." + d + ")";
      |t| == |n + "." + d| + 2 && t[0] == '(' && t[|t| - 1] == ')' && t[1..|t| - 1] == n + "." + d
  {
  }

  // ---------------------------------------------------------------------------
  // The round trip
  // ---------------------------------------------------------------------------

  /** Digits, '.', two digits: no whitespace, no parentheses, no operators. */
  lemma NumberTextChars(n: nat, f: nat)
    ensures var body := NatText(n) + "." + Digits(f, 2);
      && (forall i :: 0 <= i < |body| ==> NumberChar(body[i]))
      && NoSpace(body) && Balanced(body)
  {
    var a, d := NatText(n), Digits(f, 2);
    var body := a + "." + d;
    forall i | 0 <= i < |body| ensures NumberChar(body[i]) {
      if i < |a| {
        assert body[i] == a[i];
      } else if i > |a| {
        assert body[i] == d[i - |a| - 1];
      }
    }
    ParenFreeBalanced(body);
  }

  /** Text of digits and points only is converted whole by `std::stod`, without a split. */
  lemma ParseNumber(body: string)
    requires forall i :: 0 <= i < |body| ==> NumberChar(body[i])
    ensures Parse(body).Ok? <==> Stod(body).Some?
    ensures Stod(body).Some? ==> Parse(body) == Ok(Constant(Stod(body).value))
  {
    assert NoSpace(body);
    NumberUnsplittable(body);
    FirstTokenOfNoSpace(body);
    ParseLiteral(body);
  }

  lemma StodOfConstant(x: real)
    requires x >= 0.0
    ensures var q := Round6(x); Stod(NatText(q / 1000000) + "." + Digits(q / 10000, 2)) == Some(TwoPlaces(x))
  {
    var q := Round6(x);
    StodTwoDecimals(q / 1000000, q / 10000);
  }

  /** The printed text of a non-negative constant is its number text in parentheses, and that text reads back as `TwoPlaces`. */
  lemma ConstantPieces(x: real) returns (body: string)
    requires x >= 0.0
    ensures forall i :: 0 <= i < |body| ==> NumberChar(body[i])
    ensures Balanced(body) && NoSpace(body)
    ensures Stod(body) == Some(TwoPlaces(x))
    ensures var t := Render(Constant(x));
      |t| == |body| + 2 && t[0] == '(' && t[|t| - 1] == ')' && t[1..|t| - 1] == body
  {
    var q := Round6(x);
    var n, f := q / 1000000, q / 10000;
    body := NatText(n) + "." + Digits(f, 2);
    NumberTextChars(n, f);
    StodOfConstant(x);
    var t := Render(Constant(x));
    assert t == "(" + NatText(n) + "." + Digits(f, 2) + ")" by {
      ConstantBody(x);
    }
    InsideOfNumber(NatText(n), Digits(f, 2));
  }

  /** A printed non-negative constant reads back as its value cut to two decimals. */
  lemma ParseRenderedConstant(x: real)
    requires x >= 0.0
    ensures Parse(Render(Constant(x))) == Ok(Constant(TwoPlaces(x)))
  {
    var body := ConstantPieces(x);
    ParseWrapped(Render(Constant(x)), body);
    ParseNumber(body);
  }

  /** A printed operation reads back as the operation over what its two sides read back as. */
  lemma ParseRenderedOp(op: char, l: Expr, r: Expr)
    requires Reparseable(Op(op, l, r))
    ensures Parse(Render(Op(op, l, r))) == Combine(op, Parse(Render(l)), Parse(Render(r)))
  {
    var a, b := Render(l), Render(r);
    ReparseablePrintable(l);
    ReparseablePrintable(r);
    RenderSingleGroup(l);
    RenderSingleGroup(r);
    RenderNoSpace(l);
    RenderNoSpace(r);
    ParseRenderedJoin(a, op, b);
  }

  lemma ParseRenderedJoin(a: string, op: char, b: string)
    requires SingleGroup(a) && SingleGroup(b) && op in Operators && NoSpace(a) && NoSpace(b)
    ensures Parse("(" + a + [op] + b + ")") == Combine(op, Parse(a), Parse(b))
  {
    var x := a + [op] + b;
    SingleGroupBalanced(a);
    SingleGroupBalanced(b);
    ParenFreeBalanced([op]);
    ConcatBalanced(a, [op]);
    ConcatBalanced(a + [op], b);
    forall k | 0 <= k < |x| ensures !IsSpace(x[k]) {
      if k < |a| {
        assert x[k] == a[k];
      } else if k > |a| {
        assert x[k] == b[k - |a| - 1];
      }
    }
    InsideOfJoin(a, op, b);
    ParseWrapped("(" + a + [op] + b + ")", x);
    ParseJoin(a, op, b);
  }

  /**
   * Parsing the printed text of a tree gives the tree back, without its `Parentheses`
   * nodes and with every constant cut to two decimals.
   */
  lemma {:induction false} RenderReparses(e: Expr)
    requires Reparseable(e)
    ensures Parse(Render(e)) == Ok(Reparsed(e))
  {
    match e
    case Constant(x) =>
      ParseRenderedConstant(x);
    case Op(op, l, r) =>
      RenderReparses(l);
      RenderReparses(r);
      ParseRenderedOp(op, l, r);
    case Parentheses(inner) =>
      RenderReparses(inner);
  }

  /** Text that starts with '-' followed by digits and '.' only is a subtraction with an empty left side. */
  lemma ParseLeadingMinus(body: string)
    requires 1 <= |body| && body[0] == '-'
    requires forall i :: 1 <= i < |body| ==> NumberChar(body[i])
    ensures Parse(body).Err?
  {
    var tail := body[1..];
    assert NoSpace(body) && ParenFree(tail) by {
      forall i | 0 <= i < |tail| ensures NumberChar(tail[i]) {
        assert tail[i] == body[i + 1];
      }
    }
    ParenFreeExcess(tail);
    assert RightmostSplit(body, AddSub, 0, 0) by {
      assert body[1..|body|] == tail;
      forall j | 0 < j < |body| ensures !SplitPoint(body, AddSub, |body|, 0, j) {
        assert NumberChar(body[j]);
      }
    }
    FirstTokenOfNoSpace(body);
    EmptyOperandFails(body, 0);
  }

  /** A negative constant is printed with a leading '-', which the parser reads as a subtraction with nothing on its left. */
  lemma NegativeConstantDoesNotReparse(x: real)
    requires x < 0.0
    ensures Parse(Render(Constant(x))).Err?
  {
    var t := Render(Constant(x));
    var body := TruncateAfterDot(ToString(x));
    ConstantTextChars(x);
    ConstantTextParenFree(x);
    ParenFreeBalanced(body);
    GroupOfBalanced(body);
    TruncatedToString(x);
    assert body[0] == '-';
    forall i | 0 <= i < |t| ensures !IsSpace(t[i]) {
      if 0 < i < |t| - 1 {
        assert t[i] == body[i - 1];
      }
    }
    assert t[1..|t| - 1] == body;
    ParseGroup(t);
    ParseLeadingMinus(body);
  }
}
