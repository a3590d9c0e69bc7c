/** Facts about division that several components share. */
module Arithmetic {

  lemma DivModUnique(x: int, m: int, q: int, r: int)
    requires m > 0 && 0 <= r < m && x == m * q + r
    ensures x / m == q && x % m == r
  {
    var d := x / m - q;
    assert m * d == m * (x / m) - m * q;
    assert d >= 1 ==> m * d >= m;
    assert d <= -1 ==> m * d <= -m;
  }

  lemma ModStep(x: nat, m: nat)
    requires m > 0
    ensures (x + 1) % m == if x % m + 1 == m then 0 else x % m + 1
  {
    var q, r := x / m, x % m;
    assert x == m * q + r;
    if r + 1 == m {
      assert x + 1 == m * (q + 1);
      DivModUnique(x + 1, m, q + 1, 0);
    } else {
      DivModUnique(x + 1, m, q, r + 1);
    }
  }

  // Windows of width m tile the line.
  lemma WindowIsQuotient(x: int, m: int, i: int)
    requires m > 0
    ensures m * i <= x < m * i + m <==> x / m == i
  {
    if m * i <= x < m * i + m { DivModUnique(x, m, i, x - m * i); }
  }

  lemma ModShift(x: int, m: int, k: int)
    requires m > 0
    ensures (x + m * k) % m == x % m
    ensures (x + m * k) / m == x / m + k
  {
    assert x + m * k == m * (x / m + k) + x % m by { assert m * (x / m + k) == m * (x / m) + m * k; }
    DivModUnique(x + m * k, m, x / m + k, x % m);
  }

  lemma MulMono(a: int, b: int, c: int)
    requires a <= b && 0 <= c
    ensures a * c <= b * c
  {
  }

  lemma MulStrict(a: int, b: int, c: int)
    requires a < b && 0 < c
    ensures a * c < b * c
  {
  }
}
