/** The rolling line buffer: a circular buffer of the last lines of a stream that
    can be dumped whenever the program waits for input. */
module LogRoll {

  // The last n lines; all of them when n is not positive, since the buffer then
  // never reaches its last index and grows without bound.
  function Last(s: seq<string>, n: int): seq<string> {
    if n <= 0 || |s| <= n then s else s[|s| - n..]
  }

  class Buffer {
    var lines: seq<string>
    var idx: nat
    const lastIdx: int

    constructor (target: int)
      ensures lines == [] && idx == 0 && lastIdx == target - 1
    {
      lines, idx, lastIdx := [], 0, target - 1;
    }

    // dump_lines
    function Dump(): seq<string>
      requires idx <= |lines|
      reads this
    {
      lines[idx..] + lines[..idx]
    }

    // Before the buffer is full lines are appended; afterwards the oldest one is
    // overwritten.  Either way a dump shows the last lines seen.
    ghost predicate Filling(seen: seq<string>)
      reads this
    {
      idx == |lines| && lines == seen && (lastIdx >= 0 ==> idx <= lastIdx)
    }

    ghost predicate Full(seen: seq<string>)
      reads this
    {
      && lastIdx >= 0 && |lines| == lastIdx + 1 && idx <= lastIdx
      && |seen| >= |lines| && Dump() == seen[|seen| - |lines|..]
    }

    lemma StartsFilling()
      requires lines == [] && idx == 0
      ensures Filling([])
    {
    }

    lemma DumpShowsLast(seen: seq<string>)
      requires Filling(seen) || Full(seen)
      ensures idx <= |lines| && Dump() == Last(seen, lastIdx + 1)
    {
      if Filling(seen) { assert Dump() == seen; }
    }

    method Fill(line: string, ghost seen: seq<string>) returns (full: bool)
      requires Filling(seen)
      modifies this
      ensures if full then Full(seen + [line]) else Filling(seen + [line])
    {
      lines := lines + [line];
      if idx == lastIdx {
        idx := 0;
        full := true;
        assert Dump() == seen + [line];
      } else {
        idx := idx + 1;
        full := false;
      }
    }

    method Overwrite(line: string, ghost seen: seq<string>)
      requires Full(seen)
      modifies this
      ensures Full(seen + [line])
    {
      ghost var was, k := lines, idx;
      lines := lines[idx := line];
      idx := if idx == lastIdx then 0 else idx + 1;
      Rotated(was, k, line, seen);
    }
  }

  // Overwriting the oldest entry of a rotated window and moving on shifts the window.
  lemma Rotated(w: seq<string>, k: nat, line: string, seen: seq<string>)
    requires k < |w| <= |seen| && w[k..] + w[..k] == seen[|seen| - |w|..]
    ensures var v, j, s := w[k := line], (if k == |w| - 1 then 0 else k + 1), seen + [line];
      v[j..] + v[..j] == s[|s| - |w|..]
  {
    var v, j, s := w[k := line], (if k == |w| - 1 then 0 else k + 1), seen + [line];
    var was, now := w[k..] + w[..k], v[j..] + v[..j];
    assert now[|w| - 1] == line;
    forall i | 0 <= i < |w| - 1 ensures now[i] == s[|s| - |w| + i] {
      assert now[i] == was[i + 1];
      assert was[i + 1] == seen[|seen| - |w| + i + 1];
    }
  }

  // main, with a dump taken at every point where the reader waits for a line and
  // at the end of the input.
  method Run(target: int, incoming: seq<string>) returns (dumps: seq<seq<string>>)
    ensures |dumps| == |incoming| + 1
    ensures forall k :: 0 <= k <= |incoming| ==> dumps[k] == Last(incoming[..k], target)
  {
    hide Buffer.Filling, Buffer.Full, Buffer.Dump, Last;
    var b := new Buffer(target);
    b.StartsFilling();
    dumps := [];
    var k, full := 0, false;
    assert incoming[..0] == [];
    while k < |incoming| && !full
      invariant 0 <= k <= |incoming| && |dumps| == k && b.lastIdx == target - 1
      invariant forall i :: 0 <= i < k ==> dumps[i] == Last(incoming[..i], target)
      invariant if full then b.Full(incoming[..k]) else b.Filling(incoming[..k])
      decreases |incoming| - k
    {
      b.DumpShowsLast(incoming[..k]);
      dumps := dumps + [b.Dump()];
      assert incoming[..k] + [incoming[k]] == incoming[..k + 1];
      full := b.Fill(incoming[k], incoming[..k]);
      k := k + 1;
    }
    while k < |incoming|
      invariant 0 <= k <= |incoming| && |dumps| == k && b.lastIdx == target - 1
      invariant forall i :: 0 <= i < k ==> dumps[i] == Last(incoming[..i], target)
      invariant if full then b.Full(incoming[..k]) else k == |incoming| && b.Filling(incoming[..k])
    {
      b.DumpShowsLast(incoming[..k]);
      dumps := dumps + [b.Dump()];
      assert incoming[..k] + [incoming[k]] == incoming[..k + 1];
      b.Overwrite(incoming[k], incoming[..k]);
      k := k + 1;
    }
    b.DumpShowsLast(incoming[..k]);
    dumps := dumps + [b.Dump()];
  }
}
