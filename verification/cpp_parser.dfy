/**
 * The C++ splitter: a right-to-left scan in three precedence tiers with a parenthesis
 * depth counter that is declared once and carried from tier to tier, then stripping of
 * one outer pair of parentheses, then `std::stod` on what is left.
 */
module CppParser {
  import opened Results
  import opened Text
  import opened Tiers
  import opened CppStrings

  /** The node classes `Constant`, `Variable`, `Op` and `Parentheses`; each node owns its children. */
  datatype Expr =
    | Constant(x: real)
    | Variable(name: string)
    | Op(op: char, l: Expr, r: Expr)
    | Parentheses(expr: Expr)

  /** `std::invalid_argument`, thrown by `std::stod` on text that does not start with a number. */
  datatype ParseError = InvalidArgument

  /** Trees the parser can build: only `Constant` and `Op` nodes, and only the five operators. */
  predicate ParserShaped(e: Expr)
  {
    match e
    case Constant(_) => true
    case Op(op, l, r) => IsOperator(op) && ParserShaped(l) && ParserShaped(r)
    case Variable(_) => false
    case Parentheses(_) => false
  }

  // ---------------------------------------------------------------------------
  // One tier's scan
  // ---------------------------------------------------------------------------

  /** How a scan ends: at the index where it returns, or after index 0 with the counter's final value. */
  datatype Scan = Found(index: nat) | Exhausted(depth: int)

  /** The scan of one tier over `t[..n]`, from index n-1 down to 0, with the counter at `c`. */
  function ScanTier(t: string, tier: Tier, n: nat, c: int): (r: Scan)
    requires n <= |t|
    ensures r.Found? ==> r.index < n && InTier(t[r.index], tier)
    decreases n
  {
    if n == 0 then Exhausted(c)
    else if t[n - 1] == ')' then ScanTier(t, tier, n - 1, c + 1)
    else if t[n - 1] == '(' then ScanTier(t, tier, n - 1, c - 1)
    else if c == 0 && InTier(t[n - 1], tier) then Found(n - 1)
    else ScanTier(t, tier, n - 1, c)
  }

  /**
   * Index `i` of `t[..n]` holds an operator of `tier` and the counter, started at `c`
   * before index n-1, is 0 when the scan reaches `i`.
   */
  ghost predicate SplitPoint(t: string, tier: Tier, n: int, c: int, i: int)
  {
    0 <= i < n <= |t| && InTier(t[i], tier) && c + Excess(t[i + 1..n]) == 0
  }

  /** `i` is the rightmost split point of the whole of `t`. */
  ghost predicate RightmostSplit(t: string, tier: Tier, c: int, i: int)
  {
    SplitPoint(t, tier, |t|, c, i) && forall j :: i < j < |t| ==> !SplitPoint(t, tier, |t|, c, j)
  }

  ghost predicate NoSplit(t: string, tier: Tier, c: int)
  {
    forall j :: 0 <= j < |t| ==> !SplitPoint(t, tier, |t|, c, j)
  }

  /** The excess of `t[i..n]` counts `t[n-1]` last. */
  lemma ExcessDropLast(t: string, i: nat, n: nat)
    requires i < n <= |t|
    ensures Excess(t[i..n]) == Excess(t[i..n - 1]) + Weight(t[n - 1])
  {
    assert t[i..n][..n - 1 - i] == t[i..n - 1];
  }

  /** Below index n-1, a split point of `t[..n]` from counter `c` is one of `t[..n-1]` from the counter moved by `t[n-1]`. */
  lemma SplitPointDropLast(t: string, tier: Tier, n: nat, c: int, j: int)
    requires 0 <= j < n - 1 && n <= |t|
    ensures SplitPoint(t, tier, n, c, j) <==> SplitPoint(t, tier, n - 1, c + Weight(t[n - 1]), j)
  {
    ExcessDropLast(t, j + 1, n);
  }

  /** What a scan's outcome promises about `t[..n]` and the counter `c`. */
  ghost predicate ScanMeets(t: string, tier: Tier, n: nat, c: int, r: Scan)
    requires n <= |t|
  {
    && (r.Found? ==>
          SplitPoint(t, tier, n, c, r.index) && forall j :: r.index < j < n ==> !SplitPoint(t, tier, n, c, j))
    && (r.Exhausted? ==>
          r.depth == c + Excess(t[..n]) && forall j :: 0 <= j < n ==> !SplitPoint(t, tier, n, c, j))
  }

  /** A character the scan passes over keeps the promise of the rest of the scan. */
  lemma ScanStep(t: string, tier: Tier, n: nat, c: int, r: Scan)
    requires 0 < n <= |t|
    requires !(t[n - 1] != ')' && t[n - 1] != '(' && c == 0 && InTier(t[n - 1], tier))
    requires ScanMeets(t, tier, n - 1, c + Weight(t[n - 1]), r)
    ensures ScanMeets(t, tier, n, c, r)
  {
    assert t[n..n] == [];
    assert !SplitPoint(t, tier, n, c, n - 1);
    if r.Found? {
      SplitPointDropLast(t, tier, n, c, r.index);
      forall j | r.index < j < n ensures !SplitPoint(t, tier, n, c, j) {
        if j < n - 1 {
          SplitPointDropLast(t, tier, n, c, j);
        }
      }
    } else {
      ExcessDropLast(t, 0, n);
      assert t[0..n] == t[..n] && t[0..n - 1] == t[..n - 1];
      forall j | 0 <= j < n ensures !SplitPoint(t, tier, n, c, j) {
        if j < n - 1 {
          SplitPointDropLast(t, tier, n, c, j);
        }
      }
    }
  }

  /** A scan returns at the rightmost split point, or runs out with the counter moved by the excess of ')' over '('. */
  lemma {:induction false} ScanTierSpec(t: string, tier: Tier, n: nat, c: int)
    requires n <= |t|
    ensures ScanMeets(t, tier, n, c, ScanTier(t, tier, n, c))
  {
    if n > 0 {
      var ch := t[n - 1];
      if ch != ')' && ch != '(' && c == 0 && InTier(ch, tier) {
        assert t[n..n] == [];
      } else {
        var c' := c + Weight(ch);
        ScanTierSpec(t, tier, n - 1, c');
        ScanStep(t, tier, n, c, ScanTier(t, tier, n - 1, c'));
      }
    }
  }

  lemma ScanFindsRightmost(t: string, tier: Tier, c: int, i: int)
    requires RightmostSplit(t, tier, c, i)
    ensures ScanTier(t, tier, |t|, c) == Found(i)
  {
    ScanTierSpec(t, tier, |t|, c);
  }

  lemma ScanFindsNothing(t: string, tier: Tier, c: int)
    requires NoSplit(t, tier, c)
    ensures ScanTier(t, tier, |t|, c) == Exhausted(c + Excess(t))
  {
    ScanTierSpec(t, tier, |t|, c);
    assert t[..|t|] == t;
  }

  // ---------------------------------------------------------------------------
  // The parser
  // ---------------------------------------------------------------------------

  /** `new Op(op, parse(left), parse(right))`: an exception from either side propagates. */
  function Combine(op: char, l: Result<Expr, ParseError>, r: Result<Expr, ParseError>): Result<Expr, ParseError>
  {
    if l.Err? then Err(l.error) else if r.Err? then Err(r.error) else Ok(Op(op, l.value, r.value))
  }

  /** What `parse` does with a token once its loops and the parenthesis test have run. */
  datatype Action = SplitAt(index: nat) | StripParens | Convert

  /**
   * The three tier scans over token `t`, one counter carried through all of them,
   * then the test for an outer pair of parentheses (`t[0]` on an empty string is the
   * terminating '\0', so the test is simply false there).
   */
  function NextAction(t: string): (a: Action)
    ensures a.SplitAt? ==> a.index < |t| && IsOperator(t[a.index])
    ensures a.StripParens? ==> 2 <= |t| && t[0] == '(' && t[|t| - 1] == ')'
  {
    match ScanTier(t, AddSub, |t|, 0)
    case Found(i) => SplitAt(i)
    case Exhausted(c1) =>
      match ScanTier(t, MulDiv, |t|, c1)
      case Found(i) => SplitAt(i)
      case Exhausted(c2) =>
        match ScanTier(t, Power, |t|, c2)
        case Found(i) => SplitAt(i)
        case Exhausted(_) =>
          if t != [] && t[0] == '(' && t[|t| - 1] == ')' then StripParens else Convert
  }

  /** The action taken once the scans have ended as they did (one step of `NextAction` each, for the loops below). */
  lemma ActionAfterAddSub(t: string, i: nat)
    requires ScanTier(t, AddSub, |t|, 0) == Found(i)
    ensures NextAction(t) == SplitAt(i)
  {
  }

  lemma ActionAfterMulDiv(t: string, c1: int, i: nat)
    requires ScanTier(t, AddSub, |t|, 0) == Exhausted(c1)
    requires ScanTier(t, MulDiv, |t|, c1) == Found(i)
    ensures NextAction(t) == SplitAt(i)
  {
  }

  lemma ActionAfterPower(t: string, c1: int, c2: int, i: nat)
    requires ScanTier(t, AddSub, |t|, 0) == Exhausted(c1)
    requires ScanTier(t, MulDiv, |t|, c1) == Exhausted(c2)
    requires ScanTier(t, Power, |t|, c2) == Found(i)
    ensures NextAction(t) == SplitAt(i)
  {
  }

  lemma ActionAfterScans(t: string, c1: int, c2: int, c3: int)
    requires ScanTier(t, AddSub, |t|, 0) == Exhausted(c1)
    requires ScanTier(t, MulDiv, |t|, c1) == Exhausted(c2)
    requires ScanTier(t, Power, |t|, c2) == Exhausted(c3)
    ensures NextAction(t) == if t != [] && t[0] == '(' && t[|t| - 1] == ')' then StripParens else Convert
  {
  }

  /**
   * `parse(s)`: reads the first token `t` of `s`, scans its tiers with one counter that
   * is never reset, strips one outer pair of parentheses when no tier splits, and
   * otherwise converts `t` with `std::stod`. Every recursive call is on a strictly
   * shorter string, so parsing terminates; the parser builds only `Constant` and `Op` nodes.
   */
  function Parse(s: string): Result<Expr, ParseError>
    decreases |s|
  {
    var t := FirstToken(s);
    match NextAction(t)
    case SplitAt(i) => Combine(t[i], Parse(t[..i]), Parse(t[i + 1..]))
    case StripParens => Parse(t[1..|t| - 1])
    case Convert =>
      match Stod(t)
      case Some(x) => Ok(Constant(x))
      case None => Err(InvalidArgument)
  }

  /**
   * One of `parse`'s three index loops: from the last index down to 0, ')' raises the
   * counter, '(' lowers it, and an operator of the tier met with the counter at 0 ends
   * the loop there. The counter's final value is handed on to the next loop.
   */
  method ScanLoop(t: string, tier: Tier, c0: int) returns (r: Scan)
    ensures r == ScanTier(t, tier, |t|, c0)
  {
    var c := c0;
    var i := |t| - 1;
    while i >= 0
      invariant -1 <= i < |t|
      invariant ScanTier(t, tier, |t|, c0) == ScanTier(t, tier, i + 1, c)
    {
      if t[i] == ')' {
        c := c + 1;
      } else if t[i] == '(' {
        c := c - 1;
      } else if c == 0 && InTier(t[i], tier) {
        return Found(i);
      }
      i := i - 1;
    }
    return Exhausted(c);
  }

  /** The C++ `parse`: the three loops sharing the counter, the recursive calls, the unwrapping and `std::stod`. */
  method ParseStream(s: string) returns (r: Result<Expr, ParseError>)
    ensures r == Parse(s)
    decreases |s|
  {
    var t := FirstToken(s);
    var scan := ScanLoop(t, AddSub, 0);
    if scan.Exhausted? {
      ghost var c1 := scan.depth;
      scan := ScanLoop(t, MulDiv, scan.depth);
      if scan.Exhausted? {
        ghost var c2 := scan.depth;
        scan := ScanLoop(t, Power, scan.depth);
        if scan.Exhausted? {
          ActionAfterScans(t, c1, c2, scan.depth);
        } else {
          ActionAfterPower(t, c1, c2, scan.index);
        }
      } else {
        ActionAfterMulDiv(t, c1, scan.index);
      }
    } else {
      ActionAfterAddSub(t, scan.index);
    }

    if scan.Found? {
      var i := scan.index;
      UnfoldSplit(s, i);
      var left := ParseStream(t[..i]);
      var right := ParseStream(t[i + 1..]);
      return Combine(t[i], left, right);
    }
    if t != [] && t[0] == '(' && t[|t| - 1] == ')' {
      r := ParseStream(t[1..|t| - 1]);
      return;
    }
    match Stod(t) {
      case Some(x) => r := Ok(Constant(x));
      case None => r := Err(InvalidArgument);
    }
  }

  // ---------------------------------------------------------------------------
  // Which action a token gets, stated against split points
  // ---------------------------------------------------------------------------

  /** No tier splits the token (the counter having been carried from tier to tier). */
  ghost predicate Unsplittable(t: string)
  {
    NoSplit(t, AddSub, 0) && NoSplit(t, MulDiv, Excess(t)) && NoSplit(t, Power, 2 * Excess(t))
  }

  lemma ActionAddSub(t: string, i: int)
    requires RightmostSplit(t, AddSub, 0, i)
    ensures NextAction(t) == SplitAt(i)
  {
    ScanFindsRightmost(t, AddSub, 0, i);
  }

  lemma ActionMulDiv(t: string, i: int)
    requires NoSplit(t, AddSub, 0)
    requires RightmostSplit(t, MulDiv, Excess(t), i)
    ensures NextAction(t) == SplitAt(i)
  {
    ScanFindsNothing(t, AddSub, 0);
    ScanFindsRightmost(t, MulDiv, Excess(t), i);
  }

  lemma ActionPower(t: string, i: int)
    requires NoSplit(t, AddSub, 0) && NoSplit(t, MulDiv, Excess(t))
    requires RightmostSplit(t, Power, 2 * Excess(t), i)
    ensures NextAction(t) == SplitAt(i)
  {
    ScanFindsNothing(t, AddSub, 0);
    ScanFindsNothing(t, MulDiv, Excess(t));
    ScanFindsRightmost(t, Power, 2 * Excess(t), i);
  }

  /** Without a split, the token is unwrapped when it starts with '(' and ends with ')', and converted otherwise. */
  lemma ActionUnsplittable(t: string)
    requires Unsplittable(t)
    ensures NextAction(t) == if t != [] && t[0] == '(' && t[|t| - 1] == ')' then StripParens else Convert
  {
    ScanFindsNothing(t, AddSub, 0);
    ScanFindsNothing(t, MulDiv, Excess(t));
    ScanFindsNothing(t, Power, 2 * Excess(t));
  }

  /**
   * The converse: a split is made only at a split point of its tier, and a lower tier
   * only when every higher one has none; stripping and converting only when nothing splits.
   */
  lemma ActionCharacterised(t: string)
    ensures NextAction(t).SplitAt? ==> var i := NextAction(t).index;
      || RightmostSplit(t, AddSub, 0, i)
      || (NoSplit(t, AddSub, 0) && RightmostSplit(t, MulDiv, Excess(t), i))
      || (NoSplit(t, AddSub, 0) && NoSplit(t, MulDiv, Excess(t)) && RightmostSplit(t, Power, 2 * Excess(t), i))
    ensures !NextAction(t).SplitAt? ==> Unsplittable(t)
  {
    assert t[..|t|] == t;
    ScanTierSpec(t, AddSub, |t|, 0);
    match ScanTier(t, AddSub, |t|, 0)
    case Found(_) =>
    case Exhausted(c1) =>
      ScanTierSpec(t, MulDiv, |t|, c1);
      match ScanTier(t, MulDiv, |t|, c1)
      case Found(_) =>
      case Exhausted(c2) =>
        ScanTierSpec(t, Power, |t|, c2);
  }

  // ---------------------------------------------------------------------------
  // What the parser does with each action
  // ---------------------------------------------------------------------------

  /** `parse` on a token that is split at `i`: the two recursive calls, combined. */
  lemma UnfoldSplit(s: string, i: nat)
    requires NextAction(FirstToken(s)) == SplitAt(i)
    ensures var t := FirstToken(s); Parse(s) == Combine(t[i], Parse(t[..i]), Parse(t[i + 1..]))
  {
  }

  /** Splitting at `i` builds an `Op` over the exact prefix and suffix; an exception on either side propagates. */
  lemma ParseSplitAt(s: string, i: nat)
    requires NextAction(FirstToken(s)) == SplitAt(i)
    ensures var t := FirstToken(s);
      && (Parse(s).Ok? <==> Parse(t[..i]).Ok? && Parse(t[i + 1..]).Ok?)
      && (Parse(s).Ok? ==> Parse(s).value == Op(t[i], Parse(t[..i]).value, Parse(t[i + 1..]).value))
  {
    var t := FirstToken(s);
    var l, r := Parse(t[..i]), Parse(t[i + 1..]);
    assert Parse(s) == Combine(t[i], l, r);
  }

  lemma ParseStripAction(s: string)
    requires NextAction(FirstToken(s)) == StripParens
    ensures var t := FirstToken(s); 2 <= |t| && Parse(s) == Parse(t[1..|t| - 1])
  {
  }

  lemma ParseConvertAction(s: string)
    requires NextAction(FirstToken(s)) == Convert
    ensures Parse(s).Ok? <==> Stod(FirstToken(s)).Some?
    ensures Parse(s).Ok? ==> Parse(s) == Ok(Constant(Stod(FirstToken(s)).value))
  {
  }

  /** Only the first whitespace-delimited chunk of the input is parsed. */
  lemma ParseFirstChunkOnly(s: string)
    ensures Parse(s) == Parse(FirstToken(s))
  {
    var t := FirstToken(s);
    FirstTokenNoSpace(s);
    FirstTokenOfNoSpace(t);
    match NextAction(t)
    case SplitAt(i) =>
      UnfoldSplit(s, i);
      UnfoldSplit(t, i);
    case StripParens =>
      ParseStripAction(s);
      ParseStripAction(t);
    case Convert =>
      ParseConvertAction(s);
      ParseConvertAction(t);
  }

  /** A tree `parse` returns holds only numbers and the five operators. */
  lemma {:induction false} ParseShaped(s: string)
    requires Parse(s).Ok?
    ensures ParserShaped(Parse(s).value)
    decreases |s|
  {
    var t := FirstToken(s);
    match NextAction(t)
    case SplitAt(i) =>
      ParseSplitAt(s, i);
      ParseShaped(t[..i]);
      ParseShaped(t[i + 1..]);
    case StripParens =>
      ParseStripAction(s);
      ParseShaped(t[1..|t| - 1]);
    case Convert =>
      ParseConvertAction(s);
  }

  /** A depth-0 `+` or `-` makes the root an `Op` at the rightmost one, over the exact prefix and suffix. */
  lemma ParseAddSubRoot(s: string, i: int)
    requires RightmostSplit(FirstToken(s), AddSub, 0, i)
    ensures var t := FirstToken(s);
      && (Parse(s).Ok? <==> Parse(t[..i]).Ok? && Parse(t[i + 1..]).Ok?)
      && (Parse(s).Ok? ==> Parse(s).value == Op(t[i], Parse(t[..i]).value, Parse(t[i + 1..]).value))
  {
    ActionAddSub(FirstToken(s), i);
    ParseSplitAt(s, i);
  }

  /**
   * Without a depth-0 `+`/`-`, the root is the rightmost `*`/`/` whose depth, counted
   * from the value the first scan left in the counter (the excess of ')' over '('), is 0.
   */
  lemma ParseMulDivRoot(s: string, i: int)
    requires NoSplit(FirstToken(s), AddSub, 0)
    requires RightmostSplit(FirstToken(s), MulDiv, Excess(FirstToken(s)), i)
    ensures var t := FirstToken(s);
      && (Parse(s).Ok? <==> Parse(t[..i]).Ok? && Parse(t[i + 1..]).Ok?)
      && (Parse(s).Ok? ==> Parse(s).value == Op(t[i], Parse(t[..i]).value, Parse(t[i + 1..]).value))
  {
    ActionMulDiv(FirstToken(s), i);
    ParseSplitAt(s, i);
  }

  /** Without depth-0 `+ - * /`, the root is the rightmost `^` at depth 0, the counter having been carried through two scans. */
  lemma ParsePowerRoot(s: string, i: int)
    requires NoSplit(FirstToken(s), AddSub, 0)
    requires NoSplit(FirstToken(s), MulDiv, Excess(FirstToken(s)))
    requires RightmostSplit(FirstToken(s), Power, 2 * Excess(FirstToken(s)), i)
    ensures var t := FirstToken(s);
      && (Parse(s).Ok? <==> Parse(t[..i]).Ok? && Parse(t[i + 1..]).Ok?)
      && (Parse(s).Ok? ==> Parse(s).value == Op(t[i], Parse(t[..i]).value, Parse(t[i + 1..]).value))
  {
    ActionPower(FirstToken(s), i);
    ParseSplitAt(s, i);
  }

  /** When no tier splits and the token is wrapped in parentheses, exactly one outer pair is removed and no node is made. */
  lemma ParseStripsOuterPair(s: string)
    requires Unsplittable(FirstToken(s))
    requires var t := FirstToken(s); t != [] && t[0] == '(' && t[|t| - 1] == ')'
    ensures var t := FirstToken(s); 2 <= |t| && Parse(s) == Parse(t[1..|t| - 1])
  {
    ActionUnsplittable(FirstToken(s));
    ParseStripAction(s);
  }

  /** Otherwise the token must convert with `std::stod`; a failed conversion is the parse error. */
  lemma ParseLiteral(s: string)
    requires Unsplittable(FirstToken(s))
    requires var t := FirstToken(s); !(t != [] && t[0] == '(' && t[|t| - 1] == ')')
    ensures Parse(s).Ok? <==> Stod(FirstToken(s)).Some?
    ensures Parse(s).Ok? ==> Parse(s) == Ok(Constant(Stod(FirstToken(s)).value))
  {
    ActionUnsplittable(FirstToken(s));
    ParseConvertAction(s);
  }

  /** The operator a split is made at obeys the tier order. */
  lemma ActionPrecedence(t: string)
    ensures NextAction(t).SplitAt? ==> var o := t[NextAction(t).index];
      && (InTier(o, MulDiv) || InTier(o, Power) ==> NoSplit(t, AddSub, 0))
      && (InTier(o, Power) ==> NoSplit(t, MulDiv, Excess(t)))
    ensures !NextAction(t).SplitAt? ==> Unsplittable(t)
  {
    ActionCharacterised(t);
  }

  /**
   * Tier precedence: a `*` or `/` root only when no `+`/`-` lies at depth 0, a `^` root
   * only when, in addition, no `*`/`/` lies at the depth the carried counter gives.
   */
  lemma ParseRootPrecedence(s: string)
    requires Parse(s).Ok? && Parse(s).value.Op?
    ensures var t := FirstToken(s); var o := Parse(s).value.op;
      && IsOperator(o)
      && (InTier(o, MulDiv) || InTier(o, Power) ==> NoSplit(t, AddSub, 0))
      && (InTier(o, Power) ==> NoSplit(t, MulDiv, Excess(t)))
  {
    var t := FirstToken(s);
    var a := NextAction(t);
    ActionPrecedence(t);
    ParseShaped(s);
    if a.SplitAt? {
      ParseSplitAt(s, a.index);
      assert Parse(s).value.op == t[a.index];
    }
  }

  /**
   * With the decimal reading of `std::stod`, a successful parse needs a digit in the
   * token, so an empty or digit-free operand (`"3+"`, `"+3"`, `"abc"`) fails.
   */
  lemma {:induction false} ParseNeedsDigit(s: string)
    requires Parse(s).Ok?
    ensures HasDigit(FirstToken(s))
    decreases |s|, 1
  {
    var t := FirstToken(s);
    match NextAction(t)
    case SplitAt(i) =>
      SplitNeedsDigit(s, i);
    case StripParens =>
      StripNeedsDigit(s);
    case Convert =>
      ParseConvertAction(s);
      StodNeedsDigit(t);
  }

  lemma {:induction false} SplitNeedsDigit(s: string, i: nat)
    requires NextAction(FirstToken(s)) == SplitAt(i) && Parse(s).Ok?
    ensures HasDigit(FirstToken(s))
    decreases |s|, 0
  {
    var t := FirstToken(s);
    ParseSplitAt(s, i);
    ParseNeedsDigit(t[..i]);
    FirstTokenNoSpace(s);
    DigitOfPrefix(t, i);
  }

  lemma {:induction false} StripNeedsDigit(s: string)
    requires NextAction(FirstToken(s)) == StripParens && Parse(s).Ok?
    ensures HasDigit(FirstToken(s))
    decreases |s|, 0
  {
    var t := FirstToken(s);
    ParseStripAction(s);
    ParseNeedsDigit(t[1..|t| - 1]);
    FirstTokenNoSpace(s);
    DigitOfInner(t);
  }

  /** A digit in the token read from a prefix of `t` is a digit of `t`. */
  lemma DigitOfPrefix(t: string, i: nat)
    requires NoSpace(t) && i <= |t| && HasDigit(FirstToken(t[..i]))
    ensures HasDigit(t)
  {
    FirstTokenOfSlice(t, 0, i);
    assert t[0..i] == t[..i];
    var k :| 0 <= k < i && IsDigit(t[..i][k]);
    assert IsDigit(t[k]);
  }

  /** A digit in the token read from the inside of `t` is a digit of `t`. */
  lemma DigitOfInner(t: string)
    requires NoSpace(t) && 2 <= |t| && HasDigit(FirstToken(t[1..|t| - 1]))
    ensures HasDigit(t)
  {
    var u := t[1..|t| - 1];
    FirstTokenOfSlice(t, 1, |t| - 1);
    var k :| 0 <= k < |u| && IsDigit(u[k]);
    assert IsDigit(t[k + 1]);
  }

  /** An empty operand on either side of the root `+`/`-` makes the parse fail. */
  lemma EmptyOperandFails(s: string, i: int)
    requires RightmostSplit(FirstToken(s), AddSub, 0, i)
    requires i == 0 || i == |FirstToken(s)| - 1
    ensures Parse(s).Err?
  {
    var t := FirstToken(s);
    ParseAddSubRoot(s, i);
    if Parse(s).Ok? {
      var empty := if i == 0 then t[..i] else t[i + 1..];
      assert empty == [];
      ParseNeedsDigit(empty);
    }
  }
}
