/** Decimal digits, number text and parenthesis counting, shared by every variant of the program. */
module Text {

  // ---------------------------------------------------------------------------
  // Decimal digits
  // ---------------------------------------------------------------------------

  predicate IsDigit(ch: char) { '0' <= ch <= '9' }

  function DigitValue(ch: char): (d: nat)
    requires IsDigit(ch)
    ensures d < 10
  {
    ch as int - '0' as int
  }

  function DigitChar(d: nat): (ch: char)
    requires d < 10
    ensures IsDigit(ch) && DigitValue(ch) == d
  {
    ('0' as int + d) as char
  }

  predicate AllDigits(s: string) { forall i :: 0 <= i < |s| ==> IsDigit(s[i]) }

  /** The value of a string of decimal digits, most significant digit first ("" is 0); only used on digits. */
  function DigitsValue(s: string): int
  {
    if s == [] then 0 else DigitsValue(s[..|s| - 1]) * 10 + (s[|s| - 1] as int - '0' as int)
  }

  lemma {:induction false} DigitsValueNonNegative(s: string)
    requires AllDigits(s)
    ensures DigitsValue(s) >= 0
  {
    if s != [] {
      DigitsValueNonNegative(s[..|s| - 1]);
    }
  }

  function Pow10(n: nat): (p: nat)
    ensures p >= 1
  {
    if n == 0 then 1 else 10 * Pow10(n - 1)
  }

  /** A digit string is at least its leading digit times the place value of that digit. */
  lemma {:induction false} DigitsValueLeading(s: string)
    requires AllDigits(s) && s != []
    ensures DigitsValue(s) >= DigitValue(s[0]) * Pow10(|s| - 1)
  {
    if |s| > 1 {
      var p := s[..|s| - 1];
      DigitsValueLeading(p);
      assert p[0] == s[0];
    }
  }

  /** Decimal text of a natural number without leading zeros ("0" for zero). */
  function NatText(n: nat): (s: string)
    ensures 1 <= |s| && AllDigits(s)
  {
    if n < 10 then [DigitChar(n)] else NatText(n / 10) + [DigitChar(n % 10)]
  }

  /** Decimal text of an integer, with a leading '-' when it is negative. */
  function IntText(x: int): (s: string)
    ensures 1 <= |s|
  {
    if x < 0 then "-" + NatText(-x) else NatText(x)
  }

  /** The last `width` decimal digits of `n`, padded with leading zeros. */
  function Digits(n: nat, width: nat): (s: string)
    ensures |s| == width && AllDigits(s)
  {
    if width == 0 then [] else Digits(n / 10, width - 1) + [DigitChar(n % 10)]
  }

  lemma DivModUnique(n: int, d: int, q: int, r: int)
    requires 0 < d && 0 <= r < d && n == d * q + r
    ensures n / d == q && n % d == r
  {
    var q0, r0 := n / d, n % d;
    assert d * (q - q0) == r0 - r;
    if q > q0 {
      MulAtLeast(d, q - q0);
    } else if q < q0 {
      MulAtLeast(d, q0 - q);
    }
  }

  lemma MulAtLeast(d: int, k: int)
    requires 0 < d && 1 <= k
    ensures d * k >= d
  {
  }

  /** Dividing by 10 and then by `p` is dividing by `10 * p`; the remainders line up digit by digit. */
  lemma DivTen(n: nat, p: nat)
    requires 0 < p
    ensures (n / 10) / p == n / (10 * p)
    ensures ((n / 10) % p) * 10 + n % 10 == n % (10 * p)
  {
    var a, b := n / 10, n % 10;
    var k, c := a / p, a % p;
    assert a == p * k + c;
    assert n == (10 * p) * k + (10 * c + b);
    DivModUnique(n, 10 * p, k, 10 * c + b);
  }

  lemma {:induction false} NatTextValue(n: nat)
    ensures DigitsValue(NatText(n)) == n
  {
    if n >= 10 {
      var s := NatText(n / 10);
      NatTextValue(n / 10);
      assert (s + [DigitChar(n % 10)])[..|s|] == s;
    }
  }

  lemma {:induction false} DigitsValueMod(n: nat, width: nat)
    ensures DigitsValue(Digits(n, width)) == n % Pow10(width)
  {
    if width > 0 {
      var s := Digits(n / 10, width - 1);
      assert (s + [DigitChar(n % 10)])[..|s|] == s;
      DigitsValueMod(n / 10, width - 1);
      DivTen(n, Pow10(width - 1));
    }
  }

  /** `n` with its last `b` decimal digits dropped. */
  function Shift(n: nat, b: nat): nat
  {
    if b == 0 then n else Shift(n / 10, b - 1)
  }

  lemma {:induction false} ShiftIsDiv(n: nat, b: nat)
    ensures Shift(n, b) == n / Pow10(b)
  {
    if b > 0 {
      ShiftIsDiv(n / 10, b - 1);
      DivTen(n, Pow10(b - 1));
    }
  }

  /** The last `a + b` digits are the `a` digits above the last `b`, followed by those `b`. */
  lemma {:induction false} DigitsSplit(n: nat, a: nat, b: nat)
    ensures Digits(n, a + b) == Digits(Shift(n, b), a) + Digits(n, b)
  {
    if b > 0 {
      var last := [DigitChar(n % 10)];
      var high, low := Digits(Shift(n / 10, b - 1), a), Digits(n / 10, b - 1);
      DigitsSplit(n / 10, a, b - 1);
      assert Digits(n, a + b) == Digits(n / 10, a + (b - 1)) + last;
      assert (high + low) + last == high + (low + last);
    }
  }

  // ---------------------------------------------------------------------------
  // Parentheses
  // ---------------------------------------------------------------------------

  /** How a character moves the right-to-left depth counter: ')' opens, '(' closes. */
  function Weight(ch: char): int
  {
    if ch == ')' then 1 else if ch == '(' then -1 else 0
  }

  /** Number of ')' minus number of '(' in `s`. */
  function Excess(s: string): int
  {
    if s == [] then 0 else Excess(s[..|s| - 1]) + Weight(s[|s| - 1])
  }

  predicate ParenFree(s: string) { forall i :: 0 <= i < |s| ==> s[i] != '(' && s[i] != ')' }

  /** Decimal text holds no parenthesis. */
  lemma {:induction false} NatTextParenFree(n: nat)
    ensures ParenFree(NatText(n))
  {
    var s := NatText(n);
    assert forall i :: 0 <= i < |s| ==> IsDigit(s[i]);
  }

  /** Every '(' is closed later and every ')' closes an earlier '(' (stated on suffixes). */
  ghost predicate Balanced(s: string)
  {
    Excess(s) == 0 && forall k :: 0 <= k <= |s| ==> Excess(s[k..]) >= 0
  }

  /** `s` is one parenthesised group: its first '(' is closed only by its last ')'. */
  ghost predicate SingleGroup(s: string)
  {
    && 2 <= |s| && s[0] == '(' && s[|s| - 1] == ')'
    && Excess(s) == 0
    && forall k :: 0 < k < |s| ==> Excess(s[k..]) >= 1
  }

  lemma {:induction false} ExcessConcat(a: string, b: string)
    ensures Excess(a + b) == Excess(a) + Excess(b)
  {
    if b == [] {
      assert a + b == a;
    } else {
      assert (a + b)[..|a + b| - 1] == a + b[..|b| - 1];
      ExcessConcat(a, b[..|b| - 1]);
    }
  }

  lemma {:induction false} ParenFreeExcess(s: string)
    requires ParenFree(s)
    ensures Excess(s) == 0
  {
    if s != [] {
      ParenFreeExcess(s[..|s| - 1]);
    }
  }

  lemma ParenFreeBalanced(s: string)
    requires ParenFree(s)
    ensures Balanced(s)
  {
    forall k | 0 <= k <= |s| ensures Excess(s[k..]) == 0 {
      ParenFreeExcess(s[k..]);
    }
    assert s[0..] == s;
  }

  lemma ConcatBalanced(a: string, b: string)
    requires Balanced(a) && Balanced(b)
    ensures Balanced(a + b)
  {
    ExcessConcat(a, b);
    forall k | 0 <= k <= |a + b| ensures Excess((a + b)[k..]) >= 0 {
      if k <= |a| {
        assert (a + b)[k..] == a[k..] + b;
        ExcessConcat(a[k..], b);
      } else {
        assert (a + b)[k..] == b[k - |a|..];
      }
    }
  }

  lemma GroupOfBalanced(x: string)
    requires Balanced(x)
    ensures SingleGroup("(" + x + ")")
  {
    var s := "(" + x + ")";
    ExcessConcat("(" + x, ")");
    ExcessConcat("(", x);
    forall k | 0 < k < |s| ensures Excess(s[k..]) >= 1 {
      assert s[k..] == x[k - 1..] + ")";
      ExcessConcat(x[k - 1..], ")");
    }
  }

  lemma SingleGroupBalanced(s: string)
    requires SingleGroup(s)
    ensures Balanced(s)
  {
    assert s[0..] == s;
  }

  /** An operator between two balanced texts, all in parentheses, is one group. */
  lemma OpGroup(op: char, a: string, b: string)
    requires op != '(' && op != ')' && Balanced(a) && Balanced(b)
    ensures SingleGroup("(" + a + [op] + b + ")")
  {
    ParenFreeBalanced([op]);
    ConcatBalanced(a, [op]);
    ConcatBalanced(a + [op], b);
    GroupOfBalanced(a + [op] + b);
    assert "(" + (a + [op] + b) + ")" == "(" + a + [op] + b + ")";
  }
}
