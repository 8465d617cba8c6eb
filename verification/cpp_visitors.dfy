/**
 * The C++ visitors: `ComputeVisitor` evaluates a tree into its `result_` field and
 * `PrettyPrintVisitor` renders it into its `result_` string. Each visitor is a class
 * whose methods update that field, proved against a specification function
 * (`Eval`, `Render`) about which the properties are stated.
 */
module CppVisitors {
  import opened Text
  import opened Tiers
  import opened CppStrings
  import opened CppParser

  // ---------------------------------------------------------------------------
  // Evaluation
  // ---------------------------------------------------------------------------

  /** The keys of the visitor's static `operators` table. */
  const Operators: set<char> := {'^', '+', '-', '*', '/'}

  /**
   * The value `ComputeVisitor` leaves in `result_` after visiting `e`. The table's entries
   * (`std::pow` and the four IEEE double operations) are the parameter `arith`. An
   * operator missing from the table leaves `result_` at the right operand's value; a
   * variable missing from `variables` gives 0.
   */
  function Eval(e: Expr, variables: map<string, real>, arith: (char, real, real) -> real): real
  {
    match e
    case Constant(x) => x
    case Variable(name) => if name in variables then variables[name] else 0.0
    case Op(op, l, r) =>
      var a := Eval(l, variables, arith);
      var b := Eval(r, variables, arith);
      if op in Operators then arith(op, a, b) else b
    case Parentheses(inner) => Eval(inner, variables, arith)
  }

  /** The table holds exactly the parser's operators. */
  lemma OperatorsAreTiers(ch: char)
    ensures ch in Operators <==> IsOperator(ch)
  {
  }

  /** `arith` computes `+ - * /` exactly (division by a non-zero divisor); `^` is left open. */
  ghost predicate ExactArith(arith: (char, real, real) -> real)
  {
    && (forall x: real, y: real :: arith('+', x, y) == x + y)
    && (forall x: real, y: real :: arith('-', x, y) == x - y)
    && (forall x: real, y: real :: arith('*', x, y) == x * y)
    && (forall x: real, y: real :: y != 0.0 ==> arith('/', x, y) == x / y)
  }

  /** Trees without `Variable` nodes. */
  predicate VariableFree(e: Expr)
  {
    match e
    case Constant(_) => true
    case Variable(_) => false
    case Op(_, l, r) => VariableFree(l) && VariableFree(r)
    case Parentheses(inner) => VariableFree(inner)
  }

  /** The same tree with every `Parentheses` node replaced by its child. */
  function Unwrap(e: Expr): (u: Expr)
    ensures !u.Parentheses?
  {
    match e
    case Parentheses(inner) => Unwrap(inner)
    case Op(op, l, r) => Op(op, Unwrap(l), Unwrap(r))
    case _ => e
  }

  /** A tree without variables has the same value whatever the variables hold; parsed trees are such trees. */
  lemma {:induction false} EvalIgnoresVariables(e: Expr, v1: map<string, real>, v2: map<string, real>, arith: (char, real, real) -> real)
    requires VariableFree(e)
    ensures Eval(e, v1, arith) == Eval(e, v2, arith)
  {
    match e
    case Constant(_) =>
    case Op(_, l, r) =>
      EvalIgnoresVariables(l, v1, v2, arith);
      EvalIgnoresVariables(r, v1, v2, arith);
    case Parentheses(inner) =>
      EvalIgnoresVariables(inner, v1, v2, arith);
  }

  lemma {:induction false} ParserShapedIsVariableFree(e: Expr)
    requires ParserShaped(e)
    ensures VariableFree(e) && Unwrap(e) == e
  {
    if e.Op? {
      ParserShapedIsVariableFree(e.l);
      ParserShapedIsVariableFree(e.r);
    }
  }

  /** `Parentheses` nodes do not change a value. */
  lemma {:induction false} EvalUnwrap(e: Expr, variables: map<string, real>, arith: (char, real, real) -> real)
    ensures Eval(Unwrap(e), variables, arith) == Eval(e, variables, arith)
  {
    match e
    case Parentheses(inner) =>
      EvalUnwrap(inner, variables, arith);
    case Op(_, l, r) =>
      EvalUnwrap(l, variables, arith);
      EvalUnwrap(r, variables, arith);
    case _ =>
  }

  /**
   * Unfolding lemma: with exact arithmetic, `Eval` of an `Op` over `+ - *` is the
   * real operation on the operands' values. It is one step of `Eval`, spelled out
   * for readers, not an independent property.
   */
  lemma EvalExactOp(op: char, l: Expr, r: Expr, variables: map<string, real>, arith: (char, real, real) -> real)
    requires ExactArith(arith) && op in {'+', '-', '*'}
    ensures var a, b := Eval(l, variables, arith), Eval(r, variables, arith);
      Eval(Op(op, l, r), variables, arith) == if op == '+' then a + b else if op == '-' then a - b else a * b
  {
  }

  // ---------------------------------------------------------------------------
  // Rendering
  // ---------------------------------------------------------------------------

  /**
   * The text `PrettyPrintVisitor` leaves in `result_`: a constant as its `to_string` text
   * cut after two fraction digits, in parentheses; a variable as its name; an operation
   * as both sides and the operator, in parentheses; a `Parentheses` node as its child.
   */
  function Render(e: Expr): string
  {
    match e
    case Constant(x) => "(" + TruncateAfterDot(ToString(x)) + ")"
    case Variable(name) => name
    case Op(op, l, r) => "(" + Render(l) + [op] + Render(r) + ")"
    case Parentheses(inner) => Render(inner)
  }

  /** The text of a constant: sign, integer digits, '.', and the first two of `to_string`'s six fraction digits. */
  lemma RenderConstant(x: real)
    ensures var q := Round6(Abs(x));
      Render(Constant(x)) == "(" + Sign(x) + NatText(q / 1000000) + "." + Digits(q / 10000, 2) + ")"
  {
    TruncatedToString(x);
  }

  /** `Parentheses` nodes are invisible in the output. */
  lemma {:induction false} RenderUnwrap(e: Expr)
    ensures Render(Unwrap(e)) == Render(e)
  {
    match e
    case Parentheses(inner) =>
      RenderUnwrap(inner);
    case Op(_, l, r) =>
      RenderUnwrap(l);
      RenderUnwrap(r);
    case _ =>
  }

  /** A character of a number's text: a decimal digit or the point. */
  predicate NumberChar(ch: char) { IsDigit(ch) || ch == '.' }

  /** The text inside a rendered constant is a '-' for a negative value, then digits and one '.'. */
  lemma ConstantTextChars(x: real)
    ensures var s := TruncateAfterDot(ToString(x));
      && (forall i :: 0 <= i < |s| ==> NumberChar(s[i]) || (i == 0 && s[i] == '-'))
      && (x >= 0.0 ==> 1 <= |s| && IsDigit(s[0]))
  {
    var q := Round6(Abs(x));
    TruncatedToString(x);
    var n, d := NatText(q / 1000000), Digits(q / 10000, 2);
    var s := Sign(x) + n + "." + d;
    forall i | 0 <= i < |s| ensures NumberChar(s[i]) || (i == 0 && s[i] == '-') {
      if i < |Sign(x)| {
      } else if i < |Sign(x)| + |n| {
        assert s[i] == n[i - |Sign(x)|];
      } else if i == |Sign(x)| + |n| {
      } else {
        assert s[i] == d[i - |Sign(x)| - |n| - 1];
      }
    }
  }

  lemma ConstantTextParenFree(x: real)
    ensures ParenFree(TruncateAfterDot(ToString(x)))
  {
    ConstantTextChars(x);
  }

  /** Trees the printer's output can be read back from: no variables, and only the five operators. */
  predicate Printable(e: Expr)
  {
    match e
    case Constant(_) => true
    case Variable(_) => false
    case Op(op, l, r) => op in Operators && Printable(l) && Printable(r)
    case Parentheses(inner) => Printable(inner)
  }

  /**
   * The output is one parenthesised group: every '(' it writes is closed by a ')' it
   * writes, and the first '(' only by the last ')'.
   */
  lemma {:induction false} RenderSingleGroup(e: Expr)
    requires Printable(e)
    ensures SingleGroup(Render(e))
  {
    match e
    case Constant(x) =>
      var body := TruncateAfterDot(ToString(x));
      ConstantTextParenFree(x);
      ParenFreeBalanced(body);
      GroupOfBalanced(body);
    case Op(op, l, r) =>
      RenderSingleGroup(l);
      RenderSingleGroup(r);
      SingleGroupBalanced(Render(l));
      SingleGroupBalanced(Render(r));
      OpGroup(op, Render(l), Render(r));
    case Parentheses(inner) =>
      RenderSingleGroup(inner);
  }

  // ---------------------------------------------------------------------------
  // The visitor classes
  // ---------------------------------------------------------------------------

  /** `ComputeVisitor`: the variables it was built with, the operator table, and `result_`. */
  class ComputeVisitor {
    const variables: map<string, real>
    const arith: (char, real, real) -> real
    var result: real

    constructor (variables: map<string, real>, arith: (char, real, real) -> real)
      ensures this.variables == variables && this.arith == arith && result == 0.0
    {
      this.variables := variables;
      this.arith := arith;
      result := 0.0;
    }

    /** `e->accept(*this)`: dispatch on the node's class. */
    method Accept(e: Expr)
      modifies this
      ensures result == Eval(e, variables, arith)
      decreases e, 1
    {
      match e
      case Constant(_) => VisitConstant(e);
      case Variable(_) => VisitVariable(e);
      case Op(_, _, _) => VisitOp(e);
      case Parentheses(_) => VisitParentheses(e);
    }

    method VisitConstant(e: Expr)
      requires e.Constant?
      modifies this
      ensures result == e.x
    {
      result := e.x;
    }

    /** Visits the left and then the right child, and applies the table entry for the operator when there is one. */
    method VisitOp(e: Expr)
      requires e.Op?
      modifies this
      ensures result == Eval(e, variables, arith)
      decreases e, 0
    {
      Accept(e.l);
      var l := result;
      Accept(e.r);
      var r := result;
      if e.op in Operators {
        result := arith(e.op, l, r);
      }
    }

    /** A variable missing from the map reads as 0. */
    method VisitVariable(e: Expr)
      requires e.Variable?
      modifies this
      ensures e.name in variables ==> result == variables[e.name]
      ensures e.name !in variables ==> result == 0.0
    {
      if e.name in variables {
        result := variables[e.name];
      } else {
        result := 0.0;
      }
    }

    method VisitParentheses(e: Expr)
      requires e.Parentheses?
      modifies this
      ensures result == Eval(e.expr, variables, arith)
      decreases e, 0
    {
      Accept(e.expr);
    }
  }

  /** `PrettyPrintVisitor`: the text built so far in `result_`. */
  class PrettyPrintVisitor {
    var result: string

    constructor ()
      ensures result == ""
    {
      result := "";
    }

    method Accept(e: Expr)
      modifies this
      ensures result == Render(e)
      decreases e, 1
    {
      match e
      case Constant(_) => VisitConstant(e);
      case Variable(_) => VisitVariable(e);
      case Op(_, _, _) => VisitOp(e);
      case Parentheses(_) => VisitParentheses(e);
    }

    /** `to_string`, cut at `find(".") + 3` characters, in parentheses. */
    method VisitConstant(e: Expr)
      requires e.Constant?
      modifies this
      ensures result == Render(e)
    {
      var numStr := ToString(e.x);
      var count := match IndexOf(numStr, '.') case Some(k) => k + 3 case None => 2;
      numStr := numStr[..if count < |numStr| then count else |numStr|];
      result := "(" + numStr + ")";
    }

    /** The left child's text and the operator go into `temp`; the right child's text follows. */
    method VisitOp(e: Expr)
      requires e.Op?
      modifies this
      ensures result == Render(e)
      decreases e, 0
    {
      var temp := "";
      Accept(e.l);
      temp := temp + result;
      temp := temp + [e.op];
      Accept(e.r);
      result := "(" + temp + result + ")";
    }

    method VisitVariable(e: Expr)
      requires e.Variable?
      modifies this
      ensures result == e.name
    {
      result := e.name;
    }

    method VisitParentheses(e: Expr)
      requires e.Parentheses?
      modifies this
      ensures result == Render(e.expr)
      decreases e, 0
    {
      Accept(e.expr);
    }
  }
}
