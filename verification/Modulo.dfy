/** Remainders and quotients by repeated subtraction, which is all that the proofs need of them. */
module Modulo {

  function Mod(a: nat, n: nat): (r: nat)
    requires 0 < n
    ensures r < n
  {
    if a < n then a else Mod(a - n, n)
  }

  function Div(a: nat, n: nat): nat
    requires 0 < n
  {
    if a < n then 0 else 1 + Div(a - n, n)
  }

  /** They are the operators `%` and `/` on naturals. */
  lemma {:induction false} ModDivOperators(a: nat, n: nat)
    requires 0 < n
    ensures Mod(a, n) == a % n && Div(a, n) == a / n
  {
    if a >= n {
      ModDivOperators(a - n, n);
      OneMore(a - n, n);
    }
  }

  lemma OneMore(a: nat, n: nat)
    requires 0 < n
    ensures (a + n) % n == a % n && (a + n) / n == a / n + 1
  {
    var q, r := a / n, a % n;
    assert a + n == n * (q + 1) + r by {
      assert n * (q + 1) == n * q + n;
    }
    SameDivision(n, q + 1, r, (a + n) / n, (a + n) % n);
  }

  lemma SameDivision(n: int, q: int, r: int, q': int, r': int)
    requires n * q + r == n * q' + r' && 0 <= r < n && 0 <= r' < n
    ensures q == q' && r == r'
  {
    assert n * (q - q') == n * q - n * q';
    SmallMultiple(n, q - q');
  }

  lemma SmallMultiple(n: int, d: int)
    requires -n < n * d < n
    ensures d == 0
  {
    if d > 0 {
      MulMonotone(n, d);
    } else if d < 0 {
      assert n * d == -(n * -d);
      MulMonotone(n, -d);
    }
  }

  lemma MulMonotone(n: int, d: int)
    requires n >= 0 && d >= 1
    ensures n * d >= n
  {
  }

  lemma ModSmall(a: nat, n: nat)
    requires a < n
    ensures Mod(a, n) == a
  {
  }

  lemma ModOnce(a: nat, n: nat)
    requires n <= a < 2 * n
    ensures Mod(a, n) == a - n
  {
  }

  lemma {:induction false} ModAdd(a: nat, b: nat, n: nat)
    requires 0 < n
    ensures Mod(Mod(a, n) + b, n) == Mod(a + b, n)
    decreases a
  {
    if a >= n {
      ModAdd(a - n, b, n);
    }
  }

  /** Two numbers less than `n` apart have one remainder only if they are equal. */
  lemma {:induction false} ModApart(a: nat, b: nat, n: nat)
    requires 0 < n && a <= b < a + n && Mod(a, n) == Mod(b, n)
    ensures a == b
    decreases a
  {
    if a >= n {
      ModApart(a - n, b - n, n);
    }
  }

  lemma DivSmall(a: nat, n: nat)
    requires a < n
    ensures Div(a, n) == 0
  {
  }

  lemma DivAdd(a: nat, n: nat)
    requires 0 < n
    ensures Div(a + n, n) == Div(a, n) + 1
  {
  }
}
