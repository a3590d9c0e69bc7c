/** Length-prefixed message streams: base 128 varints as in the "Base 128 Varints"
    section of the Protocol Buffers Encoding specification, and the framing built
    on them.  A message is its serialised bytes. */
module Protolib {
  import opened Arithmetic
  import opened Bits

  type byte = b: int | 0 <= b < 256

  const TWO32 := 0x1_0000_0000
  const TWO63 := 0x8000_0000_0000_0000
  const TWO64 := 0x1_0000_0000_0000_0000
  const TWO70 := TWO64 * 64

  lemma PowerValues()
    ensures Pow2(7) == 128 && Pow2(32) == TWO32 && Pow2(70) == TWO70
  {
    assert Pow2(2) == 4;
    assert Pow2(4) == 16;
    assert Pow2(6) == 64;
    Pow2Add(4, 4);
    Pow2Add(8, 8);
    Pow2Add(16, 16);
    Pow2Add(32, 32);
    Pow2Add(64, 6);
  }

  // ----- varints -----

  function Varint(v: nat): (r: seq<byte>)
    ensures r != []
  {
    if v < 128 then [v] else [128 + v % 128] + Varint(v / 128)
  }

  // The examples of the encoding specification.
  lemma VarintExamples()
    ensures Varint(1) == [0x01] && Varint(150) == [0x96, 0x01] && Varint(300) == [0xac, 0x02]
  {
  }

  // The number the 7-bit groups spell, least significant first.
  function Groups(s: seq<byte>): nat {
    if s == [] then 0 else s[0] % 128 + 128 * Groups(s[1..])
  }

  // How many leading bytes announce a further one.
  function Continuations(s: seq<byte>): (n: nat)
    ensures n <= |s|
    ensures forall i :: 0 <= i < n ==> s[i] >= 128
    ensures n < |s| ==> s[n] < 128
  {
    if s == [] || s[0] < 128 then 0 else 1 + Continuations(s[1..])
  }

  // Reduction to 32 bits; sums with bit 63 or above set come out negative.
  function Wrap(v: nat): int {
    if v > TWO63 - 1 then v % TWO32 - TWO32 else v % TWO32
  }

  datatype Decoded = Eof(read: nat) | TooLong(read: nat) | Value(value: int, read: nat)

  // What decoding a stream yields: at most ten bytes are looked at.
  function Decode(s: seq<byte>): Decoded {
    var n := Continuations(s);
    if n >= 10 then TooLong(10)
    else if n == |s| then Eof(n)
    else Value(Wrap(Groups(s[..n + 1])), n + 1)
  }

  lemma {:induction false} GroupsSnoc(s: seq<byte>, b: byte)
    ensures Groups(s + [b]) == Groups(s) + (b % 128) * Pow2(7 * |s|)
    ensures Groups(s) < Pow2(7 * |s|)
  {
    if s == [] {
      assert (s + [b])[1..] == [];
      assert Pow2(0) == 1;
    } else {
      hide Pow2;
      assert (s + [b])[1..] == s[1..] + [b];
      GroupsSnoc(s[1..], b);
      var p := Pow2(7 * |s[1..]|);
      PowerValues();
      Pow2Add(7, 7 * |s[1..]|);
      assert Pow2(7 * |s|) == 128 * p;
      assert (b % 128) * (128 * p) == 128 * ((b % 128) * p);
    }
  }

  lemma {:induction false} VarintGroups(v: nat)
    ensures Groups(Varint(v)) == v
  {
    if v >= 128 {
      VarintGroups(v / 128);
      var b, t := 128 + v % 128, Varint(v / 128);
      assert ([b] + t)[1..] == t;
    }
  }

  lemma {:induction false} VarintContinues(v: nat, rest: seq<byte>)
    ensures Continuations(Varint(v) + rest) == |Varint(v)| - 1
  {
    if v >= 128 {
      VarintContinues(v / 128, rest);
      var b, t := 128 + v % 128, Varint(v / 128);
      assert (([b] + t) + rest)[1..] == t + rest;
    }
  }

  // A varint takes one byte per started group of seven bits.
  lemma {:induction false} VarintLength(v: nat, n: nat)
    requires n > 0
    ensures |Varint(v)| <= n <==> v < Pow2(7 * n)
    decreases n
  {
    PowerValues();
    if n == 1 {
    } else if v < 128 {
      Pow2Mono(7, 7 * n);
    } else {
      VarintLength(v / 128, n - 1);
      Pow2Add(7, 7 * (n - 1));
      var p := Pow2(7 * (n - 1));
      assert Pow2(7 * n) == 128 * p;
      assert v == 128 * (v / 128) + v % 128;
    }
  }

  // Decoding what was encoded, for every number and whatever follows it: exact
  // below 2^32, reduced or negative above, an error from 2^70 on.
  lemma DecodeVarint(v: nat, rest: seq<byte>)
    ensures Decode(Varint(v) + rest) ==
            if v < TWO70 then Value(Wrap(v), |Varint(v)|) else TooLong(10)
    ensures Wrap(v) == v <==> v < TWO32
  {
    hide Varint, Groups, Continuations;
    VarintGroups(v);
    VarintContinues(v, rest);
    VarintLength(v, 10);
    PowerValues();
    var s := Varint(v);
    assert (s + rest)[..|s|] == s;
  }

  // ----- files -----

  class ByteFile {
    var data: seq<byte>
    var pos: nat

    ghost predicate Valid()
      reads this
    {
      pos <= |data|
    }

    // What is still to be read.
    ghost function Ahead(): seq<byte>
      requires Valid()
      reads this
    {
      data[pos..]
    }

    constructor (data: seq<byte>)
      ensures Valid() && this.data == data && Ahead() == data
    {
      this.data, pos := data, 0;
    }

    method Read(n: nat) returns (buf: seq<byte>)
      requires Valid()
      modifies `pos
      ensures Valid()
      ensures var k := if n <= |old(Ahead())| then n else |old(Ahead())|;
        buf == old(Ahead())[..k] && Ahead() == old(Ahead())[k..] && pos == old(pos) + k
    {
      var end := if pos + n <= |data| then pos + n else |data|;
      buf := data[pos..end];
      pos := end;
    }

    method Write(bytes: seq<byte>)
      modifies `data
      ensures data == old(data) + bytes
    {
      data := data + bytes;
    }
  }

  lemma VarintStep(bits: nat, value: nat)
    requires bits < 128
    ensures value != 0 ==> Varint(bits + 128 * value) == [128 + bits] + Varint(value)
    ensures value == 0 ==> Varint(bits + 128 * value) == [bits]
  {
    assert (bits + 128 * value) / 128 == value && (bits + 128 * value) % 128 == bits;
  }

  // The bit operations of one encoding step.
  lemma EncodeBits(value: nat)
    ensures And(value, 0x7f) == value % 128
    ensures value < 128 ==> Or(0x80, value) == 128 + value
  {
    PowerValues();
    AndMask(value, 7);
    if value < 128 {
      OrAbove(value, 7, 1);
      OrCommutes(0x80, value);
    }
  }

  method EncodeVarint32(f: ByteFile, n: nat)
    modifies f`data
    ensures f.data == old(f.data) + Varint(n)
  {
    hide And, Or, Pow2, Varint;
    var value := n;
    EncodeBits(value);
    var bits := And(value, 0x7f);
    value := value / 128;
    while value != 0
      invariant 0 <= bits < 128
      invariant f.data + Varint(bits + 128 * value) == old(f.data) + Varint(n)
    {
      EncodeBits(bits);
      VarintStep(bits, value);
      ghost var before := f.data;
      f.Write([Or(0x80, bits)]);
      assert before + ([128 + bits] + Varint(value)) == f.data + Varint(value);
      EncodeBits(value);
      bits := And(value, 0x7f);
      value := value / 128;
    }
    VarintStep(bits, 0);
    f.Write([bits]);
  }

  method DecodeVarint32(f: ByteFile) returns (r: Decoded)
    requires f.Valid()
    modifies f`pos
    ensures f.Valid() && r == Decode(old(f.Ahead()))
    ensures r.read <= 10 && r.read <= |old(f.Ahead())| && f.Ahead() == old(f.Ahead())[r.read..]
  {
    hide And, Or, Pow2, Groups, Wrap, Reduce, Continuations, Decode;
    ghost var s := f.Ahead();
    var result, shift := 0, 0;
    var pos := 0;
    assert result == Groups(s[..pos]) by { NoGroups(s); }
    while true
      invariant f.Valid() && 0 <= pos <= 9 && pos <= |s| && f.Ahead() == s[pos..]
      invariant shift == 7 * pos && pos <= Continuations(s)
      invariant result == Groups(s[..pos])
      decreases 10 - pos
    {
      var c := f.Read(1);
      DecodeEnds(s, pos);
      if |c| == 0 {
        return Eof(pos);
      }
      var b := c[0];
      assert b == s[pos] && s[pos..][1..] == s[pos + 1..];
      Accumulate(s, pos, result);
      ContinuationsAt(s, pos);
      result := Or(result, And(b, 0x7f) * Pow2(shift));
      pos := pos + 1;
      if And(b, 0x80) == 0 {
        return Value(Reduce(result), pos);
      }
      shift := shift + 7;
      if shift >= 64 {
        return TooLong(pos);
      }
    }
  }

  lemma DecodeEnds(s: seq<byte>, pos: nat)
    requires pos <= Continuations(s) && pos <= 9
    ensures pos == |s| ==> Decode(s) == Eof(pos)
    ensures pos == Continuations(s) && pos < |s| ==> Decode(s) == Value(Wrap(Groups(s[..pos + 1])), pos + 1)
    ensures Continuations(s) >= 10 ==> Decode(s) == TooLong(10)
  {
    hide Continuations, Groups, Wrap;
  }

  lemma NoGroups(s: seq<byte>)
    ensures Groups(s[..0]) == 0
  {
  }

  // The 32-bit mask at the end of decoding.  On Python's unbounded integers,
  // or-ing with ~0xffffffff keeps the low 32 bits and sets all others.
  function Reduce(result: nat): (r: int)
    ensures r == Wrap(result)
  {
    if result > 0x7fff_ffff_ffff_ffff then
      var x := result - TWO64;
      ModShift(x, TWO32, TWO32);
      assert TWO32 * TWO32 == TWO64;
      x % TWO32 - TWO32
    else
      PowerValues();
      AndMask(result, 32);
      And(result, 0xffff_ffff)
  }

  lemma Accumulate(s: seq<byte>, pos: nat, result: nat)
    requires pos < |s| && result == Groups(s[..pos])
    ensures Or(result, And(s[pos], 0x7f) * Pow2(7 * pos)) == Groups(s[..pos + 1])
  {
    hide And, Or, Groups, Pow2;
    var b := s[pos];
    PowerValues();
    AndMask(b, 7);
    GroupsSnoc(s[..pos], b);
    assert s[..pos] + [b] == s[..pos + 1];
    OrAbove(result, 7 * pos, b % 128);
  }

  // The high bit of a byte says whether another one follows.
  lemma ContinuationsAt(s: seq<byte>, k: nat)
    requires k < |s| && k <= Continuations(s)
    ensures And(s[k], 0x80) == 0 <==> k == Continuations(s)
  {
    hide Continuations, And;
    PowerValues();
    AndBit(s[k], 7);
  }

  // ----- messages -----

  datatype Message = Msg(payload: seq<byte>) | NoMessage | ValueError

  // The message at the front of a stream and what is left after it.  A size of -1
  // reads to the end of the file; smaller negative sizes are refused by read().
  function Take(s: seq<byte>): (r: (Message, seq<byte>))
    ensures r.0.Msg? ==> |r.1| < |s|
  {
    match Decode(s)
    case Eof(n) => (NoMessage, s[n..])
    case TooLong(n) => (NoMessage, s[n..])
    case Value(v, n) =>
      var rest := s[n..];
      if v == 0 then (NoMessage, rest)
      else if v == -1 then (Msg(rest), [])
      else if v < 0 then (ValueError, rest)
      else if v <= |rest| then (Msg(rest[..v]), rest[v..])
      else (Msg(rest), [])
  }

  datatype Unframed = Unframed(payloads: seq<seq<byte>>, failed: bool)

  // All messages up to the first failure to read one.
  function Unframe(s: seq<byte>): Unframed
    decreases |s|
  {
    var (m, rest) := Take(s);
    match m
    case NoMessage => Unframed([], false)
    case ValueError => Unframed([], true)
    case Msg(p) =>
      var u := Unframe(rest);
      Unframed([p] + u.payloads, u.failed)
  }

  function Frame(p: seq<byte>): seq<byte> {
    Varint(|p|) + p
  }

  function FrameAll(ps: seq<seq<byte>>): seq<byte> {
    if ps == [] then [] else Frame(ps[0]) + FrameAll(ps[1..])
  }

  function UpToEmpty(ps: seq<seq<byte>>): seq<seq<byte>> {
    if ps == [] || ps[0] == [] then [] else [ps[0]] + UpToEmpty(ps[1..])
  }

  lemma TakeFrame(p: seq<byte>, rest: seq<byte>)
    requires |p| < TWO32
    ensures Take(Frame(p) + rest) == if p == [] then (NoMessage, rest) else (Msg(p), rest)
  {
    hide Varint, Decode;
    var v := Varint(|p|);
    assert Frame(p) + rest == v + (p + rest);
    DecodeVarint(|p|, p + rest);
    assert (v + (p + rest))[|v|..] == p + rest;
    assert (p + rest)[..|p|] == p && (p + rest)[|p|..] == rest;
    assert [] + rest == rest;
  }

  // Reading back a written list of messages stops at the first empty one, which
  // looks like the end of the file; up to there nothing is lost or altered.
  lemma {:induction false} UnframeFrames(ps: seq<seq<byte>>)
    requires forall p :: p in ps ==> |p| < TWO32
    ensures Unframe(FrameAll(ps)) == Unframed(UpToEmpty(ps), false)
    decreases |ps|
  {
    if ps == [] {
      assert Decode([]) == Eof(0);
    } else {
      hide Take, Frame;
      TakeFrame(ps[0], FrameAll(ps[1..]));
      UnframeFrames(ps[1..]);
    }
  }

  lemma {:induction false} UpToEmptyIsAll(ps: seq<seq<byte>>)
    ensures UpToEmpty(ps) == ps <==> [] !in ps
  {
    if ps == [] {
    } else {
      UpToEmptyIsAll(ps[1..]);
      assert ps == [ps[0]] + ps[1..];
      if ps[0] != [] && UpToEmpty(ps) == ps {
        assert UpToEmpty(ps)[1..] == UpToEmpty(ps[1..]);
      }
    }
  }

  // The round trip returns every message exactly when none is empty.
  lemma RoundTripIff(ps: seq<seq<byte>>)
    requires forall p :: p in ps ==> |p| < TWO32
    ensures Unframe(FrameAll(ps)) == Unframed(ps, false) <==> [] !in ps
  {
    hide Unframe, FrameAll, UpToEmpty;
    UnframeFrames(ps);
    UpToEmptyIsAll(ps);
  }

  // A frame gives its payload back and leaves the rest if and only if its size is
  // positive and below 2^32; or, with nothing after it, when the size comes back as
  // -1, which reads to the end of the file.
  lemma FrameReadsBackIff(p: seq<byte>, rest: seq<byte>)
    ensures Take(Frame(p) + rest) == (Msg(p), rest) <==>
      0 < |p| < TWO32 || (rest == [] && |p| < TWO70 && Wrap(|p|) == -1)
  {
    FrameTake(p, rest);
    hide Take, Frame;
    WrappedSize(|p|);
    assert (p + rest)[..|p|] == p && (p + rest)[|p|..] == rest;
    assert rest == [] ==> p + rest == p;
    assert |p + rest| == |p| + |rest|;
  }

  // What read() makes of the size v before the bytes s.
  function ReadSize(v: int, s: seq<byte>): (Message, seq<byte>)
    requires v <= |s|
  {
    if v == 0 then (NoMessage, s)
    else if v == -1 then (Msg(s), [])
    else if v < 0 then (ValueError, s)
    else (Msg(s[..v]), s[v..])
  }

  // What is read of any frame: a size at or above 2^32 comes back reduced.
  lemma FrameTake(p: seq<byte>, rest: seq<byte>)
    ensures Wrap(|p|) <= |p|
    ensures |p| < TWO70 ==> Take(Frame(p) + rest) == ReadSize(Wrap(|p|), p + rest)
    ensures |p| >= TWO70 ==> Take(Frame(p) + rest).0 == NoMessage
  {
    hide Varint, Decode;
    var v := Varint(|p|);
    assert Frame(p) + rest == v + (p + rest);
    DecodeVarint(|p|, p + rest);
    assert (v + (p + rest))[|v|..] == p + rest;
    WrappedSize(|p|);
  }

  lemma WrappedSize(n: nat)
    ensures Wrap(n) <= n && (n >= TWO32 ==> Wrap(n) < n) && (n < TWO32 ==> Wrap(n) == n)
  {
  }

  method EncodeMessage(f: ByteFile, payload: seq<byte>)
    modifies f`data
    ensures f.data == old(f.data) + Frame(payload)
  {
    EncodeVarint32(f, |payload|);
    f.Write(payload);
  }

  method DecodeMessage(f: ByteFile) returns (m: Message)
    requires f.Valid()
    modifies f`pos
    ensures f.Valid() && (m, f.Ahead()) == Take(old(f.Ahead()))
  {
    hide Decode;
    var d := DecodeVarint32(f);
    if d.TooLong? || d.Eof? {
      return NoMessage;
    }
    var size := d.value;
    if size == 0 {
      return NoMessage;
    }
    if size < -1 {
      return ValueError;
    }
    ghost var rest := f.Ahead();
    assert rest[..|rest|] == rest && rest[|rest|..] == [];
    var buf := f.Read(if size == -1 then |f.data| else size);
    m := Msg(buf);
  }

  // The reading loop of the trace decoders.
  method DecodeAll(f: ByteFile) returns (payloads: seq<seq<byte>>, failed: bool)
    requires f.Valid()
    modifies f`pos
    ensures Unframe(old(f.Ahead())) == Unframed(payloads, failed)
  {
    hide Take;
    payloads := [];
    ghost var u := Unframe(f.Ahead());
    while true
      invariant f.Valid()
      invariant var rest := Unframe(f.Ahead()); u == Unframed(payloads + rest.payloads, rest.failed)
      decreases |f.Ahead()|
    {
      ghost var ahead := f.Ahead();
      var m := DecodeMessage(f);
      if !m.Msg? {
        assert payloads + [] == payloads;
        return payloads, m.ValueError?;
      }
      ghost var rest := Unframe(f.Ahead()).payloads;
      assert payloads + ([m.payload] + rest) == payloads + [m.payload] + rest;
      payloads := payloads + [m.payload];
    }
  }

  method EncodeAll(f: ByteFile, payloads: seq<seq<byte>>)
    modifies f`data
    ensures f.data == old(f.data) + FrameAll(payloads)
  {
    hide Frame;
    for i := 0 to |payloads|
      invariant f.data + FrameAll(payloads[i..]) == old(f.data) + FrameAll(payloads)
    {
      assert payloads[i..][1..] == payloads[i + 1..];
      ghost var before := f.data;
      EncodeMessage(f, payloads[i]);
      assert before + (Frame(payloads[i]) + FrameAll(payloads[i + 1..])) == f.data + FrameAll(payloads[i + 1..]);
    }
  }
}
