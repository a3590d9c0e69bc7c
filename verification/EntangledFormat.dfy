/** The destination compression of the entangling instruction prefetcher.

    A table entry stores up to six destination lines of a source line.  In format
    f it has room for f destinations of Width(f) bits each; the bits above are
    taken from the source line. */
module EntangledFormat {
  import opened Arithmetic
  import opened Bits

  const FORMATS: seq<nat> := [58, 28, 18, 13, 10, 8, 6]
  const NUM_FORMATS := 6

  predicate IsFormat(f: int) { 1 <= f <= NUM_FORMATS }

  function Width(f: nat): (w: nat)
    requires IsFormat(f)
    ensures 8 <= w <= 58
  {
    FORMATS[f - 1]
  }

  function Base(f: nat): (b: nat)
    requires IsFormat(f)
    ensures b > 0
  {
    Pow2(Width(f))
  }

  // Line addresses have 58 bits: 64-bit addresses without the block offset.
  predicate IsLine(a: nat) { a < Pow2(58) }

  // line >> Width(f) == dst >> Width(f)
  predicate Agree(line: nat, dst: nat, f: nat)
    requires IsFormat(f)
  {
    line / Base(f) == dst / Base(f)
  }

  lemma DivDiv(x: nat, m: nat, n: nat)
    requires m > 0 && n > 0
    ensures x / (m * n) == (x / m) / n && m * n > 0
  {
    MulMono(1, n, m);
    var q, r := (x / m) / n, (x / m) % n;
    assert x / m == n * q + r;
    assert x == m * (x / m) + x % m;
    assert m * (n * q + r) == (m * n) * q + m * r;
    MulMono(r + 1, n, m);
    DivModUnique(x, m * n, q, m * r + x % m);
  }

  // Agreement in a narrow format is agreement in every wider one.
  lemma AgreeDown(line: nat, dst: nat, f: nat, g: nat)
    requires IsFormat(f) && IsFormat(g) && g <= f && Agree(line, dst, f)
    ensures Agree(line, dst, g)
  {
    var d := Width(g) - Width(f);
    assert d >= 0;
    Pow2Add(Width(f), d);
    DivDiv(line, Base(f), Pow2(d));
    DivDiv(dst, Base(f), Pow2(d));
  }

  lemma LinesAgree(line: nat, dst: nat)
    requires IsLine(line) && IsLine(dst)
    ensures Agree(line, dst, 1)
  {
    DivModUnique(line, Pow2(58), 0, line);
    DivModUnique(dst, Pow2(58), 0, dst);
  }

  function FormatFrom(line: nat, dst: nat, i: nat): (f: nat)
    requires IsFormat(i) && Agree(line, dst, 1)
    ensures 1 <= f <= i && Agree(line, dst, f)
    ensures forall g :: f < g <= i ==> !Agree(line, dst, g)
  {
    if Agree(line, dst, i) then i else FormatFrom(line, dst, i - 1)
  }

  // l1i_get_format_entangled: the narrowest format that can hold dst for line.
  function GetFormat(line: nat, dst: nat): (f: nat)
    requires IsLine(line) && IsLine(dst)
    ensures IsFormat(f)
  {
    LinesAgree(line, dst);
    FormatFrom(line, dst, NUM_FORMATS)
  }

  method FindFormat(line: nat, dst: nat) returns (f: nat)
    requires IsLine(line) && IsLine(dst)
    ensures f == GetFormat(line, dst)
  {
    hide Agree, Base;
    LinesAgree(line, dst);
    f := NUM_FORMATS;
    while !Agree(line, dst, f)
      invariant IsFormat(f)
      invariant FormatFrom(line, dst, NUM_FORMATS) == FormatFrom(line, dst, f)
      decreases f
    {
      f := f - 1;
    }
  }

  // l1i_compress_format_entangled
  function Compress(dst: nat, f: nat): nat
    requires IsFormat(f)
  {
    dst % Base(f)
  }

  // (x >> w) << w, where b is 2^w
  function Floor(x: nat, b: nat): (r: nat)
    requires b > 0
    ensures r == b * (x / b)
  {
    assert x == b * (x / b) + x % b;
    MulMono(0, x / b, b);
    x - x % b
  }

  // l1i_extend_format_entangled
  function Extend(line: nat, a: nat, f: nat): nat
    requires IsFormat(f)
  {
    Floor(line, Base(f)) + a % Base(f)
  }

  // The masks of the code compute these values.
  lemma BitForms(line: nat, a: nat, f: nat)
    requires IsFormat(f)
    ensures And(a, Base(f) - 1) == Compress(a, f)
    ensures Or(Floor(line, Base(f)), And(a, Base(f) - 1)) == Extend(line, a, f)
  {
    hide And, Or, Pow2, Floor, Width;
    MaskForms(line, a, Width(f));
  }

  lemma MaskForms(line: nat, a: nat, w: nat)
    ensures And(a, Pow2(w) - 1) == a % Pow2(w)
    ensures Or(Floor(line, Pow2(w)), a % Pow2(w)) == Floor(line, Pow2(w)) + a % Pow2(w)
  {
    hide And, Or, Pow2, Floor;
    AndMask(a, w);
    OrAbove(a % Pow2(w), w, line / Pow2(w));
    OrCommutes(a % Pow2(w), Floor(line, Pow2(w)));
  }

  // Extending keeps the bits of the line above the width and those of the
  // destination below it.
  lemma ExtendParts(line: nat, a: nat, f: nat)
    requires IsFormat(f)
    ensures Extend(line, a, f) / Base(f) == line / Base(f)
    ensures Extend(line, a, f) % Base(f) == a % Base(f)
  {
    hide Floor, Base;
    var b := Base(f);
    DivModUnique(Extend(line, a, f), b, line / b, a % b);
  }

  // Compressing to a format and extending again is exact precisely for the
  // formats up to the one GetFormat chooses.
  lemma RoundTripIff(line: nat, dst: nat, f: nat)
    requires IsLine(line) && IsLine(dst) && IsFormat(f)
    ensures Extend(line, Compress(dst, f), f) == dst <==> f <= GetFormat(line, dst)
  {
    var g := GetFormat(line, dst);
    assert Agree(line, dst, f) <==> f <= g by {
      LinesAgree(line, dst);
      if f <= g { AgreeDown(line, dst, g, f); }
    }
    hide GetFormat, Base;
    ExactIffAgree(line, dst, Base(f));
  }

  lemma ExactIffAgree(line: nat, dst: nat, b: nat)
    requires b > 0
    ensures Floor(line, b) + (dst % b) % b == dst <==> line / b == dst / b
  {
    hide Floor;
    var x := Floor(line, b) + dst % b;
    DivModUnique(x, b, line / b, dst % b);
    DivModUnique(dst % b, b, 0, dst % b);
    assert dst == b * (dst / b) + dst % b;
  }

  // An extended address is again a line, and its own format is at least the one
  // it was stored in.
  lemma ExtendedFormat(line: nat, a: nat, f: nat)
    requires IsLine(line) && IsFormat(f)
    ensures IsLine(Extend(line, a, f)) && f <= GetFormat(line, Extend(line, a, f))
  {
    hide Extend, GetFormat;
    var x := Extend(line, a, f);
    ExtendParts(line, a, f);
    assert Agree(line, x, f);
    AgreeDown(line, x, f, 1);
    DivModUnique(line, Pow2(58), 0, line);
    assert x / Pow2(58) == 0;
    assert x == Pow2(58) * (x / Pow2(58)) + x % Pow2(58);
    FormatAtLeast(line, x, f);
  }

  lemma FormatAtLeast(line: nat, dst: nat, f: nat)
    requires IsLine(line) && IsLine(dst) && IsFormat(f) && Agree(line, dst, f)
    ensures f <= GetFormat(line, dst)
  {
    LinesAgree(line, dst);
  }
}
