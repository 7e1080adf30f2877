/** Products, quotients and residues. */
module Arithmetic {

  lemma AwayFromZero(m: int, d: int)
    requires m > 0
    ensures d >= 1 ==> m * d >= m
    ensures d <= -1 ==> m * d <= -m
    ensures m * d == 0 ==> d == 0
  {
  }

  lemma MultiplyCancel(n: nat, a: int, b: int)
    requires n > 0 && n * a <= n * b
    ensures a <= b
  {
    AwayFromZero(n, a - b);
  }

  lemma DivisionBelow(n: nat, x: int, y: int)
    requires n > 0 && y <= x / n
    ensures n * y <= x
  {
    AwayFromZero(n, x / n - y);
    assert n * (x / n) <= x;
    assert n * (x / n - y) == n * (x / n) - n * y;
  }

  lemma MultipleHasNoRemainder(q: int, g: int)
    requires g > 0
    ensures (g * q) % g == 0
  {
    var r := (g * q) % g;
    var d := (g * q) / g - q;
    assert g * d == -r;
    AwayFromZero(g, d);
  }

  lemma ModuloSum(a: int, b: int, g: int)
    requires g > 0 && a % g == 0 && b % g == 0
    ensures (a + b) % g == 0
  {
    assert a == g * (a / g) && b == g * (b / g);
    assert a + b == g * (a / g + b / g);
    MultipleHasNoRemainder(a / g + b / g, g);
  }

  lemma QuotientRemainder(q: nat, r: nat, m: nat)
    requires r < m
    ensures (q * m + r) / m == q && (q * m + r) % m == r
  {
    var x := q * m + r;
    var d := x / m - q;
    assert m * d == r - x % m;
    AwayFromZero(m, d);
  }

  lemma SameResidueApart(x: nat, y: nat, m: nat)
    requires m > 0 && x % m == y % m && x < y + m && y < x + m
    ensures x == y
  {
    assert x == m * (x / m) + x % m && y == m * (y / m) + y % m;
    assert x - y == m * (x / m - y / m);
    AwayFromZero(m, x / m - y / m);
  }

  /** The one number of a window of m consecutive numbers in a given residue class. */
  lemma OneInWindow(from: nat, m: nat, rest: nat) returns (x: nat)
    requires rest < m
    ensures from <= x < from + m && x % m == rest
    ensures forall other :: from <= other < from + m && other % m == rest ==> other == x
  {
    var q := from / m;
    var low := q * m + rest;
    assert from == q * m + from % m;
    QuotientRemainder(q, rest, m);
    if low >= from {
      x := low;
    } else {
      x := low + m;
      assert x == (q + 1) * m + rest;
      QuotientRemainder(q + 1, rest, m);
    }
    forall other | from <= other < from + m && other % m == rest
      ensures other == x
    {
      SameResidueApart(other, x, m);
    }
  }

  lemma SmallResidue(x: nat, m: nat)
    requires x < m
    ensures x % m == x
  {
  }

  /** x is in residue class r exactly when x - r is a multiple of m. */
  lemma ResidueOf(x: int, r: nat, m: nat)
    requires r < m
    ensures x % m == r <==> (x - r) % m == 0
  {
    if x % m == r {
      assert x - r == m * (x / m);
      MultipleHasNoRemainder(x / m, m);
    }
    if (x - r) % m == 0 {
      var q := (x - r) / m;
      assert x == m * q + r;
      var d := x / m - q;
      assert m * d == r - x % m;
      AwayFromZero(m, d);
    }
  }

  lemma ShiftKeepsResidue(x: int, q: int, m: nat)
    requires m > 0
    ensures (x - q * m) % m == x % m
  {
    var r := x % m;
    assert x - q * m - r == m * (x / m - q);
    MultipleHasNoRemainder(x / m - q, m);
    ResidueOf(x - q * m, r, m);
  }

  lemma MultipleNegated(x: int, m: nat)
    requires m > 0 && x % m == 0
    ensures (-x) % m == 0
  {
    assert -x == m * (-(x / m));
    MultipleHasNoRemainder(-(x / m), m);
  }
}
