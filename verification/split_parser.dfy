/**
 * The splitter shared by the Python `parse` and the Java `Parser.Parse`. The rightmost
 * '+' or '-' anywhere in the text becomes the root; failing that the rightmost '*' or
 * '/'; failing that the rightmost '^'. Text with none of them goes to the language's
 * integer conversion. Neither variant tracks parentheses or whitespace: both are left
 * to the conversion, which rejects them (Java) or strips surrounding whitespace (Python).
 */
module SplitParser {
  import opened Results
  import opened Tiers

  /** The tree both variants build: `Constant` holding an integer, `Op` holding an operator character. */
  datatype Tree = Constant(x: int) | Op(op: char, l: Tree, r: Tree)

  /** The exception the integer conversion throws (`ValueError`, `NumberFormatException`), with the text it was given. */
  datatype ParseError = InvalidLiteral(text: string)

  /** No character of `t` belongs to `tier`. */
  predicate NoneIn(t: string, tier: Tier)
  {
    forall j :: 0 <= j < |t| ==> !InTier(t[j], tier)
  }

  /** No operator character at all: the text goes to the integer conversion. */
  predicate OperatorFree(t: string)
  {
    forall j :: 0 <= j < |t| ==> !IsOperator(t[j])
  }

  /** Where a loop `for i from n-1 down to 0` over `t` returns: the rightmost index below `n` holding an operator of `tier`. */
  function RightmostBelow(t: string, tier: Tier, n: nat): (r: Option<nat>)
    requires n <= |t|
    ensures r.Some? ==> r.value < n && InTier(t[r.value], tier) && forall j :: r.value < j < n ==> !InTier(t[j], tier)
    ensures r.None? ==> forall j :: 0 <= j < n ==> !InTier(t[j], tier)
  {
    if n == 0 then None
    else if InTier(t[n - 1], tier) then Some(n - 1)
    else RightmostBelow(t, tier, n - 1)
  }

  /** One of the three index loops, over the whole text. */
  function Rightmost(t: string, tier: Tier): (r: Option<nat>)
    ensures r.None? <==> NoneIn(t, tier)
  {
    RightmostBelow(t, tier, |t|)
  }

  /** The index the text is split at: the first of the three loops that finds something. */
  function SplitIndex(t: string): (r: Option<nat>)
    ensures r.Some? ==> r.value < |t| && IsOperator(t[r.value])
    ensures r.None? <==> OperatorFree(t)
  {
    match Rightmost(t, AddSub)
    case Some(i) => Some(i)
    case None =>
      (match Rightmost(t, MulDiv)
       case Some(i) => Some(i)
       case None => Rightmost(t, Power))
  }

  /**
   * `parse(t)` / `Parser.Parse(t)`: split at `SplitIndex`, parse the prefix, then the suffix
   * (arguments are evaluated left to right, so an exception in the prefix wins), or
   * convert the whole text with `literal`.
   */
  function ParseWith(t: string, literal: string -> Option<int>): Result<Tree, ParseError>
    decreases |t|
  {
    match SplitIndex(t)
    case Some(i) =>
      (match ParseWith(t[..i], literal)
       case Err(e) => Err(e)
       case Ok(l) =>
         (match ParseWith(t[i + 1..], literal)
          case Err(e) => Err(e)
          case Ok(r) => Ok(Op(t[i], l, r))))
    case None =>
      (match literal(t)
       case Some(x) => Ok(Constant(x))
       case None => Err(InvalidLiteral(t)))
  }

  // ---------------------------------------------------------------------------
  // Which operator becomes the root
  // ---------------------------------------------------------------------------

  /** The loop returns at the rightmost operator of the tier and nowhere else. */
  lemma RightmostIs(t: string, tier: Tier, i: nat)
    requires i < |t| && InTier(t[i], tier)
    requires forall j :: i < j < |t| ==> !InTier(t[j], tier)
    ensures Rightmost(t, tier) == Some(i)
  {
  }

  /** A split builds an `Op` over the exact prefix and suffix; the prefix's exception comes first. */
  lemma ParseSplit(t: string, literal: string -> Option<int>, i: nat)
    requires SplitIndex(t) == Some(i)
    ensures var p, l, r := ParseWith(t, literal), ParseWith(t[..i], literal), ParseWith(t[i + 1..], literal);
      && (p.Ok? <==> l.Ok? && r.Ok?)
      && (p.Ok? ==> p.value == Op(t[i], l.value, r.value))
      && (l.Err? ==> p == l)
      && (l.Ok? && r.Err? ==> p == r)
  {
  }

  /** Text without operators is handed whole to the integer conversion. */
  lemma ParseLiteral(t: string, literal: string -> Option<int>)
    requires OperatorFree(t)
    ensures ParseWith(t, literal).Ok? <==> literal(t).Some?
    ensures ParseWith(t, literal).Ok? ==> ParseWith(t, literal).value == Constant(literal(t).value)
    ensures ParseWith(t, literal).Err? ==> ParseWith(t, literal).error == InvalidLiteral(t)
  {
  }

  /** The rightmost '+' or '-' of the text, wherever it is, is the root. */
  lemma ParseAddSubRoot(t: string, literal: string -> Option<int>, i: nat)
    requires i < |t| && InTier(t[i], AddSub)
    requires forall j :: i < j < |t| ==> !InTier(t[j], AddSub)
    ensures var p, l, r := ParseWith(t, literal), ParseWith(t[..i], literal), ParseWith(t[i + 1..], literal);
      && (p.Ok? <==> l.Ok? && r.Ok?)
      && (p.Ok? ==> p.value == Op(t[i], l.value, r.value))
      && (l.Err? ==> p == l)
      && (l.Ok? && r.Err? ==> p == r)
  {
    RightmostIs(t, AddSub, i);
    ParseSplit(t, literal, i);
  }

  /** Without '+' and '-', the rightmost '*' or '/' is the root. */
  lemma ParseMulDivRoot(t: string, literal: string -> Option<int>, i: nat)
    requires NoneIn(t, AddSub)
    requires i < |t| && InTier(t[i], MulDiv)
    requires forall j :: i < j < |t| ==> !InTier(t[j], MulDiv)
    ensures var p, l, r := ParseWith(t, literal), ParseWith(t[..i], literal), ParseWith(t[i + 1..], literal);
      && (p.Ok? <==> l.Ok? && r.Ok?)
      && (p.Ok? ==> p.value == Op(t[i], l.value, r.value))
      && (l.Err? ==> p == l)
      && (l.Ok? && r.Err? ==> p == r)
  {
    RightmostIs(t, MulDiv, i);
    ParseSplit(t, literal, i);
  }

  /** Without '+', '-', '*' and '/', the rightmost '^' is the root. */
  lemma ParsePowerRoot(t: string, literal: string -> Option<int>, i: nat)
    requires NoneIn(t, AddSub) && NoneIn(t, MulDiv)
    requires i < |t| && t[i] == '^'
    requires forall j :: i < j < |t| ==> t[j] != '^'
    ensures var p, l, r := ParseWith(t, literal), ParseWith(t[..i], literal), ParseWith(t[i + 1..], literal);
      && (p.Ok? <==> l.Ok? && r.Ok?)
      && (p.Ok? ==> p.value == Op(t[i], l.value, r.value))
      && (l.Err? ==> p == l)
      && (l.Ok? && r.Err? ==> p == r)
  {
    RightmostIs(t, Power, i);
    ParseSplit(t, literal, i);
  }

  /** Joined around `op`, the text `p + [op] + q` is split at `op`. */
  lemma JoinedAt(p: string, op: char, q: string) returns (t: string)
    ensures t == p + [op] + q && t[..|p|] == p && t[|p|] == op && t[|p| + 1..] == q
    ensures forall j :: |p| < j < |t| ==> t[j] == q[j - |p| - 1]
  {
    t := p + [op] + q;
  }

  /** Left associativity: `p - q` with no '+' or '-' in `q` is `Op('-', parse(p), parse(q))`. */
  lemma ParseJoinAddSub(p: string, op: char, q: string, literal: string -> Option<int>)
    requires InTier(op, AddSub) && NoneIn(q, AddSub)
    ensures var t, l, r := ParseWith(p + [op] + q, literal), ParseWith(p, literal), ParseWith(q, literal);
      && (t.Ok? <==> l.Ok? && r.Ok?)
      && (t.Ok? ==> t.value == Op(op, l.value, r.value))
  {
    var t := JoinedAt(p, op, q);
    ParseAddSubRoot(t, literal, |p|);
  }

  /** `p * q` with no '+' or '-' anywhere and no '*' or '/' in `q` is `Op('*', parse(p), parse(q))`. */
  lemma ParseJoinMulDiv(p: string, op: char, q: string, literal: string -> Option<int>)
    requires InTier(op, MulDiv) && NoneIn(p, AddSub) && NoneIn(q, AddSub) && NoneIn(q, MulDiv)
    ensures var t, l, r := ParseWith(p + [op] + q, literal), ParseWith(p, literal), ParseWith(q, literal);
      && (t.Ok? <==> l.Ok? && r.Ok?)
      && (t.Ok? ==> t.value == Op(op, l.value, r.value))
  {
    var t := JoinedAt(p, op, q);
    forall j | 0 <= j < |t| ensures !InTier(t[j], AddSub) {
      if j < |p| {
        assert t[j] == p[j];
      }
    }
    ParseMulDivRoot(t, literal, |p|);
  }

  /** `p ^ q` with only '^' operators in `p` and none in `q` is `Op('^', parse(p), parse(q))`. */
  lemma ParseJoinPower(p: string, q: string, literal: string -> Option<int>)
    requires NoneIn(p, AddSub) && NoneIn(p, MulDiv) && OperatorFree(q)
    ensures var t, l, r := ParseWith(p + ['^'] + q, literal), ParseWith(p, literal), ParseWith(q, literal);
      && (t.Ok? <==> l.Ok? && r.Ok?)
      && (t.Ok? ==> t.value == Op('^', l.value, r.value))
  {
    var t := JoinedAt(p, '^', q);
    forall j | 0 <= j < |t| ensures !InTier(t[j], AddSub) && !InTier(t[j], MulDiv) {
      if j < |p| {
        assert t[j] == p[j];
      }
    }
    ParsePowerRoot(t, literal, |p|);
  }

  /** A slice of `t` around a position `i` inside it is the part before, `t[i]`, and the part after. */
  lemma SliceAt(t: string, lo: nat, i: nat, hi: nat)
    requires lo <= i < hi <= |t|
    ensures t[lo..hi] == t[lo..i] + [t[i]] + t[i + 1..hi]
  {
  }

  /** `ParseJoinAddSub` for a slice `t[lo..hi]` of a text, split at its position `i`. */
  lemma ParseAddSubIn(t: string, lo: nat, i: nat, hi: nat, literal: string -> Option<int>)
    requires lo <= i < hi <= |t| && InTier(t[i], AddSub) && NoneIn(t[i + 1..hi], AddSub)
    ensures var w, l, r := ParseWith(t[lo..hi], literal), ParseWith(t[lo..i], literal), ParseWith(t[i + 1..hi], literal);
      && (w.Ok? <==> l.Ok? && r.Ok?)
      && (w.Ok? ==> w.value == Op(t[i], l.value, r.value))
  {
    SliceAt(t, lo, i, hi);
    ParseJoinAddSub(t[lo..i], t[i], t[i + 1..hi], literal);
  }

  /** `ParseJoinMulDiv` for a slice `t[lo..hi]` of a text, split at its position `i`. */
  lemma ParseMulDivIn(t: string, lo: nat, i: nat, hi: nat, literal: string -> Option<int>)
    requires lo <= i < hi <= |t| && InTier(t[i], MulDiv)
    requires NoneIn(t[lo..i], AddSub) && NoneIn(t[i + 1..hi], AddSub) && NoneIn(t[i + 1..hi], MulDiv)
    ensures var w, l, r := ParseWith(t[lo..hi], literal), ParseWith(t[lo..i], literal), ParseWith(t[i + 1..hi], literal);
      && (w.Ok? <==> l.Ok? && r.Ok?)
      && (w.Ok? ==> w.value == Op(t[i], l.value, r.value))
  {
    SliceAt(t, lo, i, hi);
    ParseJoinMulDiv(t[lo..i], t[i], t[i + 1..hi], literal);
  }

  /** `ParseJoinPower` for a slice `t[lo..hi]` of a text, split at its position `i`. */
  lemma ParsePowerIn(t: string, lo: nat, i: nat, hi: nat, literal: string -> Option<int>)
    requires lo <= i < hi <= |t| && t[i] == '^'
    requires NoneIn(t[lo..i], AddSub) && NoneIn(t[lo..i], MulDiv) && OperatorFree(t[i + 1..hi])
    ensures var w, l, r := ParseWith(t[lo..hi], literal), ParseWith(t[lo..i], literal), ParseWith(t[i + 1..hi], literal);
      && (w.Ok? <==> l.Ok? && r.Ok?)
      && (w.Ok? ==> w.value == Op('^', l.value, r.value))
  {
    SliceAt(t, lo, i, hi);
    ParseJoinPower(t[lo..i], t[i + 1..hi], literal);
  }

  /**
   * Tier precedence: a '*' or '/' root only when the text holds no '+' or '-', a '^'
   * root only when it holds none of '+', '-', '*', '/'; the root is the rightmost
   * operator of its tier.
   */
  lemma ParseRootPrecedence(t: string, literal: string -> Option<int>)
    requires ParseWith(t, literal).Ok? && ParseWith(t, literal).value.Op?
    ensures SplitIndex(t).Some? && ParseWith(t, literal).value.op == t[SplitIndex(t).value]
    ensures var o := ParseWith(t, literal).value.op;
      && IsOperator(o)
      && (InTier(o, MulDiv) || InTier(o, Power) ==> NoneIn(t, AddSub))
      && (InTier(o, Power) ==> NoneIn(t, MulDiv))
  {
    var i := SplitIndex(t).value;
    ParseSplit(t, literal, i);
  }

  // ---------------------------------------------------------------------------
  // What the trees hold
  // ---------------------------------------------------------------------------

  predicate NonNegative(x: int) { x >= 0 }

  /** Every constant of `e` satisfies `ok`. */
  predicate AllConstants(e: Tree, ok: int -> bool)
  {
    match e
    case Constant(x) => ok(x)
    case Op(_, l, r) => AllConstants(l, ok) && AllConstants(r, ok)
  }

  /** Every operator of `e` is one of `+ - * / ^`. */
  predicate OperatorsOnly(e: Tree)
  {
    match e
    case Constant(_) => true
    case Op(op, l, r) => IsOperator(op) && OperatorsOnly(l) && OperatorsOnly(r)
  }

  /** No '+' or '-' node anywhere in `e`. */
  predicate NoAddSub(e: Tree)
  {
    match e
    case Constant(_) => true
    case Op(op, l, r) => !InTier(op, AddSub) && NoAddSub(l) && NoAddSub(r)
  }

  lemma NoneInParts(t: string, tier: Tier, i: nat)
    requires NoneIn(t, tier) && i < |t|
    ensures NoneIn(t[..i], tier) && NoneIn(t[i + 1..], tier)
  {
    var pre, suf := t[..i], t[i + 1..];
    assert forall j :: 0 <= j < i ==> pre[j] == t[j];
    forall j | 0 <= j < |suf| ensures !InTier(suf[j], tier) {
      assert suf[j] == t[i + 1 + j];
    }
  }

  /**
   * Every constant comes from a piece of the text without operator characters, so a
   * property the conversion guarantees on such pieces holds for all of them; every
   * operator node holds one of the five operators.
   */
  lemma {:induction false} ParseConstants(t: string, literal: string -> Option<int>, ok: int -> bool)
    requires forall s :: OperatorFree(s) && literal(s).Some? ==> ok(literal(s).value)
    requires ParseWith(t, literal).Ok?
    ensures AllConstants(ParseWith(t, literal).value, ok)
    ensures OperatorsOnly(ParseWith(t, literal).value)
    decreases |t|
  {
    match SplitIndex(t)
    case Some(i) =>
      ParseSplit(t, literal, i);
      ParseConstants(t[..i], literal, ok);
      ParseConstants(t[i + 1..], literal, ok);
    case None =>
      ParseLiteral(t, literal);
  }

  /** Text without '+' and '-' gives a tree without '+' and '-' nodes. */
  lemma {:induction false} ParseNoAddSub(t: string, literal: string -> Option<int>)
    requires NoneIn(t, AddSub) && ParseWith(t, literal).Ok?
    ensures NoAddSub(ParseWith(t, literal).value)
    decreases |t|, 1
  {
    var s := SplitIndex(t);
    if s.Some? {
      SplitNoAddSub(t, literal, s.value);
    }
  }

  lemma {:induction false} SplitNoAddSub(t: string, literal: string -> Option<int>, i: nat)
    requires NoneIn(t, AddSub) && ParseWith(t, literal).Ok? && SplitIndex(t) == Some(i)
    ensures NoAddSub(ParseWith(t, literal).value)
    decreases |t|, 0
  {
    ParseSplit(t, literal, i);
    NoneInParts(t, AddSub, i);
    ParseNoAddSub(t[..i], literal);
    ParseNoAddSub(t[i + 1..], literal);
  }

  /**
   * Two conversions that agree wherever the first one succeeds on operator-free text
   * give the same tree wherever the first parse succeeds.
   */
  lemma {:induction false} ParseWithAgrees(t: string, narrow: string -> Option<int>, wide: string -> Option<int>)
    requires forall s :: OperatorFree(s) && narrow(s).Some? ==> wide(s) == narrow(s)
    requires ParseWith(t, narrow).Ok?
    ensures ParseWith(t, wide) == ParseWith(t, narrow)
    decreases |t|
  {
    match SplitIndex(t)
    case Some(i) =>
      ParseSplit(t, narrow, i);
      ParseSplit(t, wide, i);
      ParseWithAgrees(t[..i], narrow, wide);
      ParseWithAgrees(t[i + 1..], narrow, wide);
    case None =>
      ParseLiteral(t, narrow);
      ParseLiteral(t, wide);
  }

  /** Below a '*', '/' or '^' root there is no '+' or '-' node. */
  lemma ParseBelowProduct(t: string, literal: string -> Option<int>)
    requires ParseWith(t, literal).Ok? && ParseWith(t, literal).value.Op?
    requires !InTier(ParseWith(t, literal).value.op, AddSub)
    ensures NoAddSub(ParseWith(t, literal).value)
  {
    ParseRootPrecedence(t, literal);
    ParseNoAddSub(t, literal);
  }
}
