/** Bitwise operators on unbounded natural numbers, defined bit by bit, and the
    arithmetic they amount to in the places the tools use them. */
module Bits {
  import opened Arithmetic

  function Pow2(n: nat): (r: nat)
    ensures r > 0
  {
    if n == 0 then 1 else 2 * Pow2(n - 1)
  }

  function And(a: nat, b: nat): (r: nat)
    ensures r <= a && r <= b
  {
    if a == 0 || b == 0 then 0 else (a % 2) * (b % 2) + 2 * And(a / 2, b / 2)
  }

  function Or(a: nat, b: nat): nat {
    if a == 0 then b
    else if b == 0 then a
    else (if a % 2 == 1 || b % 2 == 1 then 1 else 0) + 2 * Or(a / 2, b / 2)
  }

  lemma {:induction false} OrCommutes(a: nat, b: nat)
    ensures Or(a, b) == Or(b, a)
    decreases a
  {
    if a != 0 && b != 0 { OrCommutes(a / 2, b / 2); }
  }

  lemma {:induction false} Pow2Add(m: nat, n: nat)
    ensures Pow2(m + n) == Pow2(m) * Pow2(n)
  {
    if m == 0 {
    } else {
      Pow2Add(m - 1, n);
      assert Pow2(m) * Pow2(n) == 2 * (Pow2(m - 1) * Pow2(n));
    }
  }

  lemma {:induction false} Pow2Mono(m: nat, n: nat)
    requires m < n
    ensures Pow2(m) < Pow2(n)
  {
    if m + 1 < n { Pow2Mono(m, n - 1); }
  }

  // Or-ing bits above a number adds them.
  lemma {:induction false} OrAbove(a: nat, k: nat, b: nat)
    requires a < Pow2(k)
    ensures Or(a, b * Pow2(k)) == a + b * Pow2(k)
    decreases k
  {
    if a != 0 && b != 0 {
      var h := b * Pow2(k - 1);
      assert b * Pow2(k) == 2 * h;
      assert (2 * h) / 2 == h && (2 * h) % 2 == 0;
      assert h > 0;
      OrAbove(a / 2, k - 1, b);
    }
  }

  lemma AndStep(a: nat, b: nat)
    ensures And(a, b) == (a % 2) * (b % 2) + 2 * And(a / 2, b / 2)
  {
  }

  // Dividing by 2p is halving and then dividing by p.
  lemma HalveThenDivide(x: nat, p: nat)
    requires p > 0
    ensures x / (2 * p) == (x / 2) / p
    ensures x % (2 * p) == 2 * ((x / 2) % p) + x % 2
  {
    var h := x / 2;
    var q, r := h / p, h % p;
    assert h == p * q + r;
    assert x == (2 * p) * q + (2 * r + x % 2);
    DivModUnique(x, 2 * p, q, 2 * r + x % 2);
  }

  // Masking with 2^n - 1 is the remainder modulo 2^n.
  lemma {:induction false} AndMask(x: nat, n: nat)
    ensures And(x, Pow2(n) - 1) == x % Pow2(n)
    decreases n
  {
    if n == 0 {
    } else {
      hide And;
      var p := Pow2(n - 1);
      AndStep(x, 2 * p - 1);
      assert (2 * p - 1) % 2 == 1 && (2 * p - 1) / 2 == p - 1;
      AndMask(x / 2, n - 1);
      HalveThenDivide(x, p);
    }
  }

  // Masking with 2^n tests bit n.
  lemma {:induction false} AndBit(x: nat, n: nat)
    ensures And(x, Pow2(n)) == if (x / Pow2(n)) % 2 == 1 then Pow2(n) else 0
    decreases n
  {
    if n == 0 {
      AndStep(x, 1);
    } else {
      hide And;
      var p := Pow2(n - 1);
      AndStep(x, 2 * p);
      assert (2 * p) % 2 == 0 && (2 * p) / 2 == p;
      AndBit(x / 2, n - 1);
      HalveThenDivide(x, p);
    }
  }

  ghost predicate IsPow2(x: nat) {
    exists k: nat :: x == Pow2(k)
  }

  lemma {:induction false} Pow2Test(x: nat)
    requires x > 0
    ensures And(x, x - 1) == 0 <==> IsPow2(x)
  {
    hide And;
    if x == 1 {
      AndStep(1, 0);
      AndStep(0, 0);
      assert x == Pow2(0);
    } else if x % 2 == 1 {
      AndStep(x, x - 1);
      AndSelf(x / 2);
      forall k: nat ensures x != Pow2(k) { assert k > 0 ==> Pow2(k) == 2 * Pow2(k - 1); }
    } else {
      AndStep(x, x - 1);
      var h := x / 2;
      Pow2Test(h);
      if k: nat :| h == Pow2(k) { assert x == Pow2(k + 1); }
      if k: nat :| x == Pow2(k) {
        assert Pow2(0) == 1;
        assert h == Pow2(k - 1);
      }
    }
  }

  lemma {:induction false} AndSelf(x: nat)
    ensures And(x, x) == x
  {
    if x != 0 { AndSelf(x / 2); assert (x % 2) * (x % 2) == x % 2; }
  }
}
