/** Where the entangled table keeps the entry of a line: the set and the tag are cut
    out of a hash, so that lines can share an entry. */
module EntangledHash {
  import opened Arithmetic
  import opened Bits

  const SETS := 256
  const TAGS := 1024

  function Xor(a: nat, b: nat): nat {
    if a == 0 then b
    else if b == 0 then a
    else (if a % 2 != b % 2 then 1 else 0) + 2 * Xor(a / 2, b / 2)
  }

  // l1i_hash
  function Hash(line: nat): nat { Xor(Xor(line, line / 4), line / 32) }

  function SetOf(line: nat): (s: nat)
    ensures s < SETS
  {
    Hash(line) % SETS
  }

  function TagOf(line: nat): nat { (Hash(line) / SETS) % TAGS }

  // ----- bits -----

  // The number without its n lowest bits, these bits, and bit i.
  function High(x: nat, n: nat): nat {
    if n == 0 then x else High(x / 2, n - 1)
  }

  function Low(x: nat, n: nat): nat {
    if n == 0 then 0 else x % 2 + 2 * Low(x / 2, n - 1)
  }

  function Bit(x: nat, i: nat): nat { High(x, i) % 2 }

  lemma {:induction false} HighLow(x: nat, n: nat)
    ensures x == Pow2(n) * High(x, n) + Low(x, n) && Low(x, n) < Pow2(n)
  {
    if n == 0 {
    } else {
      HighLow(x / 2, n - 1);
      assert 2 * (Pow2(n - 1) * High(x / 2, n - 1)) == Pow2(n) * High(x, n);
    }
  }

  // They are the quotient and the remainder.
  lemma HighLowAre(x: nat, n: nat)
    ensures x / Pow2(n) == High(x, n) && x % Pow2(n) == Low(x, n)
  {
    HighLow(x, n);
    DivModUnique(x, Pow2(n), High(x, n), Low(x, n));
  }

  lemma {:induction false} HighHigh(x: nat, m: nat, n: nat)
    ensures High(High(x, m), n) == High(x, m + n)
  {
    if m == 0 {
    } else {
      HighHigh(x / 2, m - 1, n);
    }
  }

  lemma {:induction false} HighOfZero(n: nat)
    ensures High(0, n) == 0
  {
    if n == 0 {
    } else {
      HighOfZero(n - 1);
    }
  }

  lemma {:induction false} LowBits(x: nat, y: nat, n: nat, i: nat)
    requires Low(x, n) == Low(y, n) && i < n
    ensures Bit(x, i) == Bit(y, i)
  {
    if i == 0 {
    } else {
      LowBits(x / 2, y / 2, n - 1, i - 1);
    }
  }

  lemma HighBits(x: nat, y: nat, n: nat, i: nat)
    requires High(x, n) == High(y, n) && n <= i
    ensures Bit(x, i) == Bit(y, i)
  {
    HighHigh(x, n, i - n);
    HighHigh(y, n, i - n);
  }

  lemma NextBit(x: nat, y: nat, i: nat)
    requires High(x, i + 1) == High(y, i + 1) && Bit(x, i) == Bit(y, i)
    ensures High(x, i) == High(y, i)
  {
    HighHigh(x, i, 1);
    HighHigh(y, i, 1);
    assert High(High(x, i), 1) == High(x, i) / 2 && High(High(y, i), 1) == High(y, i) / 2;
  }

  // ----- the hash -----

  predicate Odd(n: nat) { n % 2 == 1 }

  lemma {:induction false} XorBit(a: nat, b: nat, i: nat)
    ensures Odd(Bit(Xor(a, b), i)) <==> Odd(Bit(a, i)) != Odd(Bit(b, i))
  {
    if a == 0 || b == 0 {
      HighOfZero(i);
    } else {
      var x := Xor(a / 2, b / 2);
      assert Xor(a, b) == (if a % 2 != b % 2 then 1 else 0) + 2 * x && Xor(a, b) / 2 == x;
      if i == 0 {
      } else {
        XorBit(a / 2, b / 2, i - 1);
      }
    }
  }

  // Bit i of the hash is the parity of the bits i, i + 2 and i + 5 of the line.
  lemma HashBit(line: nat, i: nat)
    ensures Odd(Bit(Hash(line), i)) <==> Odd(Bit(line, i) + Bit(line, i + 2) + Bit(line, i + 5))
  {
    hide Xor;
    XorBit(Xor(line, line / 4), line / 32, i);
    XorBit(line, line / 4, i);
    SmallShifts(line);
    HighHigh(line, 2, i);
    HighHigh(line, 5, i);
  }

  lemma SmallShifts(x: nat)
    ensures High(x, 2) == x / 4 && High(x, 5) == x / 32
  {
    assert High(x, 2) == High(x / 2, 1) == x / 2 / 2;
    assert High(x, 5) == High(x / 4, 3) by { HighHigh(x, 2, 3); }
    assert High(x / 4, 3) == High(x / 8, 2) == x / 8 / 2 / 2;
  }

  lemma EighteenBits()
    ensures Pow2(18) == SETS * TAGS == 0x4_0000
  {
    assert Pow2(2) == 4;
    Pow2Add(2, 2);
    Pow2Add(4, 4);
    Pow2Add(8, 2);
    Pow2Add(8, 10);
  }

  // Set and tag together are the low 18 bits of the hash.
  lemma EntryIsHash(line: nat)
    ensures SetOf(line) + SETS * TagOf(line) == Hash(line) % Pow2(18)
  {
    hide Hash, Pow2;
    EighteenBits();
    SplitLow(Hash(line), Hash(line) / SETS / TAGS);
  }

  lemma SplitLow(h: nat, q: nat)
    requires q == h / SETS / TAGS
    ensures h % SETS + SETS * (h / SETS % TAGS) == h % 0x4_0000
  {
    var low := h % SETS + SETS * (h / SETS % TAGS);
    assert h == 0x4_0000 * q + low && low < 0x4_0000;
  }

  // Lines with the same bits from the eighteenth on share an entry only with
  // themselves.
  lemma SharesEntryIff(a: nat, b: nat)
    requires a / 0x4_0000 == b / 0x4_0000
    ensures SetOf(a) == SetOf(b) && TagOf(a) == TagOf(b) <==> a == b
  {
    EighteenBits();
    if SetOf(a) == SetOf(b) && TagOf(a) == TagOf(b) {
      EntryIsHash(a);
      EntryIsHash(b);
      hide *;
      HighLowAre(a, 18);
      HighLowAre(b, 18);
      HighLowAre(Hash(a), 18);
      HighLowAre(Hash(b), 18);
      SameDown(a, b, 18);
    }
  }

  lemma SameParity(a: nat, b: nat, c: nat, d: nat)
    requires a < 2 && b < 2 && (Odd(a + c + d) <==> Odd(b + c + d))
    ensures a == b
  {
  }

  // Equal hashes and equal high bits make the next bit equal.
  lemma SameBit(a: nat, b: nat, i: nat)
    requires i < 18 && High(a, i + 1) == High(b, i + 1) && Low(Hash(a), 18) == Low(Hash(b), 18)
    ensures Bit(a, i) == Bit(b, i)
  {
    assert Bit(a, i) < 2 && Bit(b, i) < 2;
    hide *;
    LowBits(Hash(a), Hash(b), 18, i);
    HashBit(a, i);
    HashBit(b, i);
    HighBits(a, b, i + 1, i + 2);
    HighBits(a, b, i + 1, i + 5);
    SameParity(Bit(a, i), Bit(b, i), Bit(a, i + 2), Bit(a, i + 5));
  }

  lemma {:induction false} SameDown(a: nat, b: nat, n: nat)
    requires n <= 18 && High(a, n) == High(b, n) && Low(Hash(a), 18) == Low(Hash(b), 18)
    ensures a == b
  {
    if n == 0 {
    } else {
      hide *;
      SameBit(a, b, n - 1);
      NextBit(a, b, n - 1);
      SameDown(a, b, n - 1);
    }
  }
}
