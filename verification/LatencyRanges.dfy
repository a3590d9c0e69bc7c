/** The working-set sizes of the memory latency test: from 4 kB up, in steps that
    double every time a power of two is hit. */
module LatencyRanges {
  import opened Arithmetic
  import opened Bits

  predicate IsPowerOfTwo(n: nat) {
    n != 0 && And(n, n - 1) == 0
  }

  // The n-th size: four steps per octave.
  function Size(n: nat): nat {
    (4 + n % 4) * Pow2(10 + n / 4)
  }

  function Step(n: nat): nat { Pow2(10 + n / 4) }

  lemma {:induction false} BetweenPowers(k: nat, x: nat, j: nat)
    requires Pow2(k) < x < Pow2(k + 1)
    ensures x != Pow2(j)
  {
    if j < k { Pow2Mono(j, k); }
    if k + 1 < j { Pow2Mono(k + 1, j); }
  }

  lemma Octave(e: nat)
    ensures Pow2(e + 2) == 4 * Pow2(e) && Pow2(e + 3) == 8 * Pow2(e)
  {
  }

  // The bit test fires exactly at every fourth size.
  lemma PowerTestFires(n: nat)
    ensures IsPowerOfTwo(Size(n)) <==> n % 4 == 0
  {
    var e := 10 + n / 4;
    Octave(e);
    Pow2Test(Size(n));
    hide And, Pow2;
    var p, x, r := Pow2(e), Size(n), n % 4;
    assert x == (4 + r) * p;
    if r == 0 {
      assert x == Pow2(e + 2);
    } else {
      MulStrict(4, 4 + r, p);
      MulStrict(4 + r, 8, p);
      forall j: nat ensures x != Pow2(j) { BetweenPowers(e + 2, x, j); }
    }
  }

  // Each size is the previous one plus the step, and the step doubles on reaching
  // a power of two; no step is more than a quarter of the size it is added to.
  lemma NextSize(n: nat)
    ensures Size(n + 1) == Size(n) + Step(n)
    ensures Step(n + 1) == if IsPowerOfTwo(Size(n + 1)) then 2 * Step(n) else Step(n)
    ensures 4 * Step(n) <= Size(n)
  {
    hide IsPowerOfTwo;
    PowerTestFires(n + 1);
    ModStep(n, 4);
    if n % 4 == 3 {
      assert (n + 1) / 4 == n / 4 + 1;
      assert Step(n + 1) == 2 * Step(n);
    } else {
      assert (n + 1) / 4 == n / 4;
    }
  }

  method MakeRanges(maxRange: nat) returns (ranges: seq<nat>)
    ensures |ranges| >= 1 && forall n :: 0 <= n < |ranges| ==> ranges[n] == Size(n)
    ensures forall n :: 0 <= n < |ranges| - 1 ==> ranges[n] < maxRange
    ensures ranges[|ranges| - 1] >= maxRange
    ensures maxRange > 4096 ==> 4 * ranges[|ranges| - 1] < 5 * maxRange
  {
    hide Size, Step, IsPowerOfTwo;
    FirstSize();
    ranges := [4096];
    var step := 1024;
    while ranges[|ranges| - 1] < maxRange
      invariant |ranges| >= 1 && forall n :: 0 <= n < |ranges| ==> ranges[n] == Size(n)
      invariant forall n :: 0 <= n < |ranges| - 1 ==> ranges[n] < maxRange
      invariant step == Step(|ranges| - 1) && step > 0
      invariant |ranges| > 1 ==> 4 * ranges[|ranges| - 1] < 5 * maxRange
      decreases maxRange - ranges[|ranges| - 1]
    {
      NextSize(|ranges| - 1);
      var next := ranges[|ranges| - 1] + step;
      if IsPowerOfTwo(next) {
        step := step * 2;
      }
      ranges := ranges + [next];
    }
  }

  lemma FirstSize()
    ensures Size(0) == 4096 && Step(0) == 1024
  {
    assert Pow2(5) == 32;
    Pow2Add(5, 5);
  }
}
