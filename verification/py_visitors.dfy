/**
 * The Python visitors over the parsed tree. `ComputeVisitor` evaluates with exact
 * integers: `/` is floor division `//` and `^` is `**`. `PrettyPrintVisitor` collects
 * the pieces of an `Op` in a list and joins them.
 */
module PyVisitors {
  import opened Results
  import opened Text
  import opened Tiers
  import opened SplitParser

  /** The exceptions evaluation can raise; a float result of `**` is outside the model. */
  datatype PyError = ZeroDivisionError | NonIntegerPower

  /** `x // y`: the quotient rounded towards negative infinity. */
  function FloorDiv(x: int, y: int): (q: int)
    requires y != 0
    ensures y > 0 ==> q * y <= x < q * y + y
    ensures y < 0 ==> q * y >= x > q * y + y
  {
    if y > 0 then x / y else (-x) / (-y)
  }

  /** `x ** n` for a non-negative exponent (`0 ** 0` is 1). */
  function Pow(x: int, n: nat): int
  {
    if n == 0 then 1 else x * Pow(x, n - 1)
  }

  /**
   * One entry of the `operators` table applied to the operands. An operator missing
   * from the table only prints "Invalid Operand", leaving `result_` at the right
   * operand's value.
   */
  function Apply(op: char, x: int, y: int): Result<int, PyError>
  {
    if op == '^' then
      if y >= 0 then Ok(Pow(x, y)) else if x == 0 then Err(ZeroDivisionError) else Err(NonIntegerPower)
    else if op == '+' then Ok(x + y)
    else if op == '-' then Ok(x - y)
    else if op == '*' then Ok(x * y)
    else if op == '/' then
      if y == 0 then Err(ZeroDivisionError) else Ok(FloorDiv(x, y))
    else Ok(y)
  }

  /** The value `ComputeVisitor` leaves in `result_`: the left operand first, then the right, then the operator. */
  function Eval(e: Tree): Result<int, PyError>
  {
    match e
    case Constant(x) => Ok(x)
    case Op(op, l, r) =>
      (match Eval(l)
       case Err(err) => Err(err)
       case Ok(a) =>
         (match Eval(r)
          case Err(err) => Err(err)
          case Ok(b) => Apply(op, a, b)))
  }

  /** `str(x)` in parentheses for a constant; the operator between its operands' texts, in parentheses, for an `Op`. */
  function Render(e: Tree): string
  {
    match e
    case Constant(x) => "(" + IntText(x) + ")"
    case Op(op, l, r) => "(" + Render(l) + [op] + Render(r) + ")"
  }

  /** `"".join(parts)`. */
  function Join(parts: seq<string>): string
  {
    if parts == [] then "" else Join(parts[..|parts| - 1]) + parts[|parts| - 1]
  }

  // ---------------------------------------------------------------------------
  // Evaluation
  // ---------------------------------------------------------------------------

  lemma {:induction false} PowNonNegative(x: int, n: nat)
    requires x >= 0
    ensures Pow(x, n) >= 0
  {
    if n > 0 {
      PowNonNegative(x, n - 1);
    }
  }

  /** For a non-negative dividend and a positive divisor, `//` is Dafny's `/`. */
  lemma FloorDivNonNegative(x: int, y: int)
    requires x >= 0 && y > 0
    ensures FloorDiv(x, y) == x / y && x / y >= 0
  {
  }

  /**
   * A tree without '+' and '-' nodes over non-negative constants evaluates, when it
   * evaluates at all, to a non-negative integer; no division in it has a negative operand.
   */
  lemma {:induction false} EvalNonNegative(e: Tree)
    requires NoAddSub(e) && AllConstants(e, NonNegative)
    requires Eval(e).Ok?
    ensures Eval(e).value >= 0
  {
    match e
    case Constant(x) =>
    case Op(op, l, r) =>
      EvalNonNegative(l);
      EvalNonNegative(r);
      var a, b := Eval(l).value, Eval(r).value;
      if op == '^' {
        PowNonNegative(a, b);
      } else if op == '/' {
        FloorDivNonNegative(a, b);
      } else if op == '*' {
        assert a * b >= 0;
      }
  }

  /** An `Op` evaluates only when both operands do; the left operand's exception comes first. */
  lemma EvalOp(op: char, l: Tree, r: Tree)
    ensures var v, a, b := Eval(Op(op, l, r)), Eval(l), Eval(r);
      && (a.Err? ==> v == a)
      && (a.Ok? && b.Err? ==> v == b)
      && (a.Ok? && b.Ok? ==> v == Apply(op, a.value, b.value))
  {
  }

  /** An unknown operator leaves the right operand's value. */
  lemma ApplyUnknown(op: char, x: int, y: int)
    requires !IsOperator(op)
    ensures Apply(op, x, y) == Ok(y)
  {
  }

  // ---------------------------------------------------------------------------
  // Printing
  // ---------------------------------------------------------------------------

  lemma IntTextParenFree(x: int)
    ensures ParenFree(IntText(x))
  {
    NatTextParenFree(if x < 0 then -x else x);
  }

  /**
   * The printed text is one parenthesised group: it starts with '(', ends with ')',
   * and every '(' is closed, the first only by the last ')'.
   */
  lemma {:induction false} RenderSingleGroup(e: Tree)
    requires OperatorsOnly(e)
    ensures SingleGroup(Render(e))
  {
    match e
    case Constant(x) =>
      IntTextParenFree(x);
      ParenFreeBalanced(IntText(x));
      GroupOfBalanced(IntText(x));
    case Op(op, l, r) =>
      RenderSingleGroup(l);
      RenderSingleGroup(r);
      SingleGroupBalanced(Render(l));
      SingleGroupBalanced(Render(r));
      OpGroup(op, Render(l), Render(r));
  }

  /** Appending a piece to the list appends its text to the join. */
  lemma JoinAppend(parts: seq<string>, s: string)
    ensures Join(parts + [s]) == Join(parts) + s
  {
    assert (parts + [s])[..|parts|] == parts;
  }

  /** The join of five pieces is their concatenation, in order. */
  lemma JoinFive(a: string, b: string, c: string, d: string, f: string)
    ensures Join([a, b, c, d, f]) == a + b + c + d + f
  {
    JoinAppend([], a);
    JoinAppend([a], b);
    JoinAppend([a, b], c);
    JoinAppend([a, b, c], d);
    JoinAppend([a, b, c, d], f);
    assert [] + [a] == [a];
    assert [a] + [b] == [a, b];
    assert [a, b] + [c] == [a, b, c];
    assert [a, b, c] + [d] == [a, b, c, d];
    assert [a, b, c, d] + [f] == [a, b, c, d, f];
  }

  // ---------------------------------------------------------------------------
  // The visitor classes
  // ---------------------------------------------------------------------------

  /** `ComputeVisitor`: the last value computed, in `result_`. */
  class ComputeVisitor {
    var result: int

    constructor ()
      ensures result == 0
    {
      result := 0;
    }

    /**
     * `e.accept(self)`. The returned error is the exception that escapes, None when the
     * call returns normally; then `result_` holds the value.
     */
    method Accept(e: Tree) returns (error: Option<PyError>)
      modifies this
      ensures error.None? <==> Eval(e).Ok?
      ensures error.None? ==> result == Eval(e).value
      ensures error.Some? ==> error.value == Eval(e).error
      decreases e, 1
    {
      match e
      case Constant(_) =>
        VisitConstant(e);
        error := None;
      case Op(_, _, _) =>
        error := VisitOp(e);
    }

    method VisitConstant(e: Tree)
      requires e.Constant?
      modifies this
      ensures result == e.x
    {
      result := e.x;
    }

    method VisitOp(e: Tree) returns (error: Option<PyError>)
      requires e.Op?
      modifies this
      ensures error.None? <==> Eval(e).Ok?
      ensures error.None? ==> result == Eval(e).value
      ensures error.Some? ==> error.value == Eval(e).error
      decreases e, 0
    {
      error := Accept(e.l);
      if error.Some? {
        return;
      }
      var l := result;
      error := Accept(e.r);
      if error.Some? {
        return;
      }
      var r := result;
      var op := e.op;
      if op == '^' {
        if r >= 0 {
          result := Pow(l, r);
        } else if l == 0 {
          return Some(ZeroDivisionError);
        } else {
          return Some(NonIntegerPower);
        }
      } else if op == '+' {
        result := l + r;
      } else if op == '-' {
        result := l - r;
      } else if op == '*' {
        result := l * r;
      } else if op == '/' {
        if r == 0 {
          return Some(ZeroDivisionError);
        }
        result := FloorDiv(l, r);
      }
    }
  }

  /** `PrettyPrintVisitor`: the text of the last subtree visited, in `result_`. */
  class PrettyPrintVisitor {
    var result: string

    constructor ()
      ensures result == ""
    {
      result := "";
    }

    method Accept(e: Tree)
      modifies this
      ensures result == Render(e)
      decreases e, 1
    {
      match e
      case Constant(_) => VisitConstant(e);
      case Op(_, _, _) => VisitOp(e);
    }

    method VisitConstant(e: Tree)
      requires e.Constant?
      modifies this
      ensures result == Render(e)
    {
      result := "(" + IntText(e.x) + ")";
    }

    /** The list `result` receives "(", the left text, the operator, the right text and ")"; then it is joined. */
    method VisitOp(e: Tree)
      requires e.Op?
      modifies this
      ensures result == Render(e)
      decreases e, 0
    {
      var parts: seq<string> := [];
      parts := parts + ["("];
      Accept(e.l);
      ghost var left := result;
      parts := parts + [result];
      parts := parts + [[e.op]];
      Accept(e.r);
      parts := parts + [result];
      parts := parts + [")"];
      assert parts == ["(", left, [e.op], result, ")"];
      JoinFive("(", left, [e.op], result, ")");
      result := Join(parts);
    }
  }
}
