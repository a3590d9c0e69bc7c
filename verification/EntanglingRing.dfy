/** The ring buffer that holds the entangling history, with the search and the
    updates as the prefetcher makes them in place. */
module EntanglingRing {
  import opened EntangledFormat
  import opened EntanglingHistory
  import EntangledEntry

  // The index of the entry of age j, and the age of the entry at index j.
  function Slot(head: nat, j: int): (i: nat)
    ensures i < ENTRIES
  {
    (head + ENTRIES - 1 - j) % ENTRIES
  }

  function RingView(ring: seq<Hist>, head: nat): (v: View)
    requires |ring| == ENTRIES
    ensures forall j :: 0 <= j < ENTRIES ==> v[j] == ring[Slot(head, j)]
  {
    seq(ENTRIES, j requires 0 <= j < ENTRIES => ring[Slot(head, j)])
  }

  lemma SlotIs(head: nat, j: nat)
    requires head < ENTRIES && j <= ENTRIES
    ensures Slot(head, j) == if j < head then head - 1 - j else if j < head + ENTRIES then head + ENTRIES - 1 - j else ENTRIES - 1
  {
  }

  lemma SlotFacts(head: nat, j: nat)
    requires head < ENTRIES && j < ENTRIES
    ensures Slot(head, 0) == (head + ENTRIES - 1) % ENTRIES
    ensures Slot(head, Slot(head, j)) == j
    ensures (Slot(head, j) + ENTRIES - 1) % ENTRIES == Slot(head, j + 1)
    ensures Slot(head, j + 1) == Slot(head, 0) <==> j + 1 == ENTRIES
  {
    hide Slot;
    SlotIs(head, j);
    SlotIs(head, Slot(head, j));
    SlotIs(head, j + 1);
    SlotIs(head, 0);
  }

  lemma ViewLines(ring: seq<Hist>, head: nat)
    requires |ring| == ENTRIES && AllLines(ring)
    ensures AllLines(RingView(ring, head))
  {
    var v := RingView(ring, head);
    forall j | 0 <= j < ENTRIES
      ensures IsLine(v[j].tag)
    {
      assert v[j] == ring[Slot(head, j)];
    }
  }

  // How an eligible entry compares with the choice so far: `found` is the rank of
  // that choice.
  method Weigh(h: Hist, line: nat, first: bool, found: nat)
    returns (take: bool, rank: nat, newFormat: nat, stop: bool)
    requires IsLine(h.tag) && IsLine(line) && found <= 2 && (first ==> found == 0)
    ensures newFormat == NewFormat(h, line)
    ensures take <==> first || Rank(h, line) > found
    ensures stop <==> Rank(h, line) == 3
    ensures !stop ==> rank == if Rank(h, line) > found then Rank(h, line) else found
  {
    hide GetFormat, IsLine;
    take, rank, stop := first, found, false;
    var f := GetFormat(h.tag, line);
    newFormat := if h.numDst == 0 || f < h.format then f else h.format;
    if h.format != 0 {
      if h.numDst < newFormat {
        if f == h.format {
          take, stop := true, true;
        } else if found < 2 {
          take, rank := true, 2;
        }
      }
    } else if found == 0 {
      take, rank := true, 1;
    }
  }

  // l1i_get_src_entangled_hist_table up to the update of the chosen entry.
  method Search(ring: seq<Hist>, head: nat, pos: nat, line: nat, latency: nat) returns (src: nat, best: nat, format: nat)
    requires |ring| == ENTRIES && head < ENTRIES && pos < ENTRIES && AllLines(ring)
    requires IsLine(line) && line != 0
    ensures AllLines(RingView(ring, head))
    ensures src != 0 <==> ring[pos].tag == line && HasSource(RingView(ring, head), Slot(head, pos), line, latency)
    ensures src != 0 ==>
      && best < ENTRIES && ring[best].tag == src && src != line
      && format == NewFormat(ring[best], line)
      && Best(RingView(ring, head), Slot(head, pos), line, latency, Slot(head, best))
  {
    hide GetFormat, IsLine, NewFormat, Rank, Choice, Unstopped, Best, HasSource, Slot, RingView;
    hide Clear, Eligible, EligibleCount, Gap, Stops;
    ViewLines(ring, head);
    ghost var v, p, b := RingView(ring, head), Slot(head, pos), 0;
    SlotFacts(head, pos);
    src, best, format := 0, 0, 0;
    if ring[pos].tag != line {
      return;
    }
    var i, first := (pos + ENTRIES - 1) % ENTRIES, (head + ENTRIES - 1) % ENTRIES;
    var time, searched, found := ring[pos].timeDiff, 0, 0;
    ghost var j := p + 1;
    SlotFacts(head, p);
    StartOfSearch(v, p, line, latency);
    while i != first
      invariant p < j <= ENTRIES && i == Slot(head, j) && (i == first <==> j == ENTRIES)
      invariant time == Gap(v, p, j)
      invariant searched == EligibleCount(v, p, j - 1, latency) < SEARCHES
      invariant Clear(v, p, j - 1, line) && Unstopped(v, p, line, latency, j)
      invariant Choice(v, p, line, latency, j, b, searched, found) && found <= 2
      invariant searched == 0 ==> src == 0 && found == 0
      invariant searched > 0 ==> b < ENTRIES && best == Slot(head, b)
      invariant searched > 0 ==> src == ring[best].tag != 0 && src != line && format == NewFormat(ring[best], line)
      decreases ENTRIES - j
    {
      SlotFacts(head, j);
      assert v[j] == ring[i];
      if ring[i].tag == line {
        AgainHasNoSource(v, p, line, latency, j);
        src := 0;
        return;
      }
      SearchStep(v, p, line, latency, j);
      if ring[i].tag != 0 && time >= latency {
        ChoiceStep(v, p, line, latency, j, b, searched, found);
        var take, rank, newFormat, stop := Weigh(ring[i], line, searched == 0, found);
        searched := searched + 1;
        if take {
          src, best, format := ring[i].tag, i, newFormat;
          b := j;
        }
        if stop || searched == SEARCHES {
          SlotFacts(head, b);
          EndAtStop(v, p, line, latency, j, b, searched, if stop then 3 else rank);
          return;
        }
        found := rank;
      } else {
        SkipStep(v, p, line, latency, j, b, searched, found);
      }
      time := time + ring[i].timeDiff;
      i := (i + ENTRIES - 1) % ENTRIES;
      j := j + 1;
    }
    EndOfRing(v, p, line, latency, b, searched, found);
    if searched > 0 { SlotFacts(head, b); }
  }

  // ----- the buffer -----

  // What every entry keeps: it never names itself as its source.
  predicate Sound(h: Hist) {
    IsLine(h.tag) && IsLine(h.entSrc) && (h.entSrc != 0 ==> h.entSrc != h.tag) && h.bbSize <= EntangledEntry.MAX_BB_SIZE
  }

  ghost predicate AllSound(ring: seq<Hist>) {
    forall i :: 0 <= i < |ring| ==> Sound(ring[i])
  }

  lemma RingPush(ring: seq<Hist>, head: nat, h: Hist)
    requires |ring| == ENTRIES && head < ENTRIES
    ensures RingView(ring[head := h], (head + 1) % ENTRIES) == Pushed(RingView(ring, head), h)
    ensures ring[head] == RingView(ring, head)[ENTRIES - 1]
  {
    var v, r := RingView(ring, head), RingView(ring[head := h], (head + 1) % ENTRIES);
    forall j | 0 <= j < ENTRIES
      ensures r[j] == Pushed(v, h)[j]
    {
      PushSlot(head, j);
      assert r[j] == ring[head := h][Slot((head + 1) % ENTRIES, j)];
    }
  }

  lemma PushSlot(head: nat, j: nat)
    requires head < ENTRIES && j < ENTRIES
    ensures Slot((head + 1) % ENTRIES, j) == if j == 0 then head else Slot(head, j - 1)
    ensures Slot(head, j) == head <==> j == ENTRIES - 1
  {
    hide Slot;
    SlotIs((head + 1) % ENTRIES, j);
    SlotIs(head, j);
    if j > 0 { SlotIs(head, j - 1); }
  }

  lemma SlotInjective(head: nat)
    requires head < ENTRIES
    ensures forall j, k :: 0 <= j < k < ENTRIES ==> Slot(head, j) != Slot(head, k)
  {
    hide Slot;
    forall j, k | 0 <= j < k < ENTRIES
      ensures Slot(head, j) != Slot(head, k)
    {
      SlotIs(head, j);
      SlotIs(head, k);
    }
  }

  lemma TurnedSlot(head: nat, m: nat, j: nat)
    requires head < ENTRIES && m <= ENTRIES && j < ENTRIES
    ensures var last := if m < ENTRIES then Slot(head, m) else Slot(head, 0);
      Slot((last + 1) % ENTRIES, j) == Slot(head, Turned(m, j))
  {
    hide Slot;
    var last := if m < ENTRIES then Slot(head, m) else Slot(head, 0);
    SlotIs(head, if m < ENTRIES then m else 0);
    SlotIs((last + 1) % ENTRIES, j);
    SlotIs(head, Turned(m, j));
  }

  lemma RingTurn(ring: seq<Hist>, head: nat, v: View, m: nat, id: nat, line: nat)
    requires |ring| == ENTRIES && head < ENTRIES && m == Survivor(v, id)
    requires forall k :: 0 <= k < ENTRIES ==> ring[Slot(head, k)] == SquashedEntry(v, m, id, line, k)
    ensures var last := if m < ENTRIES then Slot(head, m) else Slot(head, 0);
      RingView(ring, (last + 1) % ENTRIES) == Squashed(v, id, line)
  {
    hide Slot, Survivor, SquashedEntry;
    var last := if m < ENTRIES then Slot(head, m) else Slot(head, 0);
    var r := RingView(ring, (last + 1) % ENTRIES);
    forall j | 0 <= j < ENTRIES
      ensures r[j] == Squashed(v, id, line)[j]
    {
      TurnedSlot(head, m, j);
      assert r[j] == ring[Slot((last + 1) % ENTRIES, j)];
    }
  }

  lemma EntryStep(v: View, m: nat, id: nat, line: nat, k: nat)
    requires k < ENTRIES && m == Survivor(v, id) && Sound(v[k])
    ensures k < m ==> v[k].instrId > id
    ensures k == m ==> v[k].instrId <= id
    ensures Wiped(v[k]).timeDiff == v[k].timeDiff == Trimmed(v[k], line).timeDiff
    ensures Sound(SquashedEntry(v, m, id, line, k))
    ensures SquashedEntry(v, m, id, line, k) ==
      if k < m then Wiped(v[k]).(timeDiff := 0)
      else if k == m then Trimmed(v[k], line).(timeDiff := v[k].timeDiff + Gap(v, 0, m))
      else if v[k].instrId > id then Wiped(v[k]) else Trimmed(v[k], line)
  {
    hide Gap;
  }

  lemma GapNext(v: View, j: nat)
    requires j < ENTRIES
    ensures Gap(v, 0, j + 1) == Gap(v, 0, j) + v[j].timeDiff
  {
  }

  lemma RingSet(ring: seq<Hist>, head: nat, i: nat, h: Hist)
    requires |ring| == ENTRIES && head < ENTRIES && i < ENTRIES
    ensures RingView(ring[i := h], head) == RingView(ring, head)[Slot(head, i) := h]
    ensures RingView(ring, head)[Slot(head, i)] == ring[i]
  {
    hide Slot;
    SlotInjective(head);
    SlotFacts(head, i);
    var v, r := RingView(ring, head), RingView(ring[i := h], head);
    assert r == v[Slot(head, i) := h];
  }

  lemma SoundLines(ring: seq<Hist>)
    requires AllSound(ring)
    ensures AllLines(ring)
  {
  }

  lemma TimelyChoice(v: View, headTime: int, when: seq<int>, credit: seq<nat>, p: nat, j: nat, line: nat, latency: nat)
    requires Accounted(v, headTime, when, credit) && AllLines(v) && IsLine(line) && Best(v, p, line, latency, j)
    ensures p < j < ENTRIES && |when| == |credit| == ENTRIES
    ensures v[p].tag != 0 && credit[p] <= credit[j] ==> when[p] - when[j] >= latency
  {
    hide Gap, Rank, IsLine;
    if v[p].tag != 0 { GapIsRealTime(v, headTime, when, credit, p, j); }
  }

  // The destination at p records its source at j, which counts one more
  // destination.
  function Entangled(v: View, p: nat, j: nat, line: nat): View
    requires p < ENTRIES && j < ENTRIES && IsLine(v[j].tag) && IsLine(line)
  {
    var w := v[j := v[j].(format := NewFormat(v[j], line), numDst := v[j].numDst + 1)];
    w[p := w[p].(entSrc := v[j].tag)]
  }

  // Times and tags do not depend on what entangling changes.
  lemma {:induction false} SameGap(v: View, w: View, j: nat)
    requires j <= ENTRIES && forall k :: 0 <= k < ENTRIES ==> v[k].timeDiff == w[k].timeDiff
    ensures Gap(v, 0, j) == Gap(w, 0, j)
    decreases j
  {
    if j == 0 {
    } else {
      SameGap(v, w, j - 1);
    }
  }

  lemma EntangledAccounted(v: View, p: nat, j: nat, line: nat, headTime: int, when: seq<int>, credit: seq<nat>)
    requires p < ENTRIES && j < ENTRIES && IsLine(v[j].tag) && IsLine(line)
    requires Accounted(v, headTime, when, credit)
    ensures Accounted(Entangled(v, p, j, line), headTime, when, credit)
    ensures Exact(v, headTime, when) ==> Exact(Entangled(v, p, j, line), headTime, when)
  {
    hide NewFormat, IsLine, Gap;
    var w := Entangled(v, p, j, line);
    forall k | 0 <= k < ENTRIES
      ensures w[k].tag == v[k].tag && TimeOf(w, headTime, k) == TimeOf(v, headTime, k)
    {
      SameGap(v, w, k);
    }
  }

  class History {
    const ring: array<Hist>
    var head: nat
    var headTime: nat
    ghost var when: seq<int>
    ghost var credit: seq<nat>

    ghost predicate Valid()
      reads this, ring
    {
      && ring.Length == ENTRIES && head < ENTRIES && AllSound(ring[..])
      && Accounted(View(), headTime, when, credit)
    }

    // The entries, newest first.
    ghost function View(): View
      reads this, ring
      requires ring.Length == ENTRIES
    {
      RingView(ring[..], head)
    }

    constructor (now: nat)
      ensures Valid() && fresh(ring) && headTime == now
      ensures forall j :: 0 <= j < ENTRIES ==> View()[j] == EMPTY
    {
      ring := new Hist[ENTRIES](_ => EMPTY);
      head, headTime := 0, now;
      when, credit := seq(ENTRIES, _ => 0), seq(ENTRIES, _ => 0);
    }

    // l1i_find_hist_entry: the newest entry for the line.
    method Find(line: nat) returns (i: nat)
      requires Valid() && IsLine(line)
      ensures i <= ENTRIES
      ensures i == ENTRIES <==> forall j :: 0 <= j < ENTRIES ==> View()[j].tag != line
      ensures i < ENTRIES ==> ring[i].tag == line && forall j :: 0 <= j < Slot(head, i) ==> View()[j].tag != line
    {
      hide Slot, Accounted, IsLine;
      i := (head + ENTRIES - 1) % ENTRIES;
      SlotFacts(head, 0);
      for count := 0 to ENTRIES
        invariant i == Slot(head, count)
        invariant forall j :: 0 <= j < count ==> View()[j].tag != line
      {
        SlotFacts(head, count);
        if ring[i].tag == line {
          assert View()[count].tag == line;
          return;
        }
        i := (i + ENTRIES - 1) % ENTRIES;
      }
      i := ENTRIES;
    }

    // One entry is overwritten; its contents leave for the entangled table.
    method Push(h: Hist) returns (left: Hist)
      requires Valid() && Sound(h)
      modifies this, ring
      ensures Valid() && headTime == old(headTime) + h.timeDiff && head == (old(head) + 1) % ENTRIES
      ensures View()[0] == h && View() == Pushed(old(View()), h) && left == old(View())[ENTRIES - 1] && Sound(left)
      ensures when == [headTime] + old(when)[..ENTRIES - 1] && credit == [0] + old(credit)[..ENTRIES - 1]
    {
      hide Sound, Accounted, Slot;
      PushedAccounted(View(), headTime, when, credit, h);
      RingPush(ring[..], head, h);
      AccountLengths(View(), headTime, when, credit);
      left := ring[head];
      ring[head] := h;
      assert ring[..] == old(ring[..])[head := h];
      head, headTime := (head + 1) % ENTRIES, headTime + h.timeDiff;
      when, credit := [headTime] + when[..ENTRIES - 1], [0] + credit[..ENTRIES - 1];
    }

    // l1i_add_hist_table; the entries that leave are given newest first.
    method Add(line: nat, instrId: nat, format: nat, numDst: nat, now: nat) returns (pos: nat, left: seq<Hist>)
      requires Valid() && IsLine(line) && headTime <= now
      modifies this, ring
      ensures Valid() && headTime == now
      ensures View() == Added(old(View()), old(headTime), now, Hist(line, 0, 0, instrId, 0, format, numDst))
      ensures left == Leaving(old(View()), old(headTime), now) && AllSound(left)
      ensures forall i :: 0 <= i < |left| ==> left[i].entSrc == 0 || left[i].entSrc != left[i].tag
      ensures when == AddedWhen(old(when), old(headTime), now) && credit == AddedCredit(old(credit), old(headTime), now)
      ensures pos == Slot(head, 0) && View()[0].tag == line && when[0] == now
    {
      hide Accounted, Pushed, Slot, RingView;
      var h := Hist(line, 0, 0, instrId, 0, format, numDst);
      AccountLengths(View(), headTime, when, credit);
      left := [];
      while now - headTime >= TIME_DIFF_OVERFLOW
        invariant Valid() && headTime <= now && AllSound(left) && |when| == |credit| == ENTRIES
        invariant Added(View(), headTime, now, h) == Added(old(View()), old(headTime), now, h)
        invariant Leaving(View(), headTime, now) + left == Leaving(old(View()), old(headTime), now)
        invariant AddedWhen(when, headTime, now) == AddedWhen(old(when), old(headTime), now)
        invariant AddedCredit(credit, headTime, now) == AddedCredit(old(credit), old(headTime), now)
      {
        var gone := Push(FILLER);
        left := [gone] + left;
      }
      pos := head;
      var gone := Push(h.(timeDiff := now - headTime));
      left := [gone] + left;
      PushSlot(pos, 0);
    }

    // The pass over the buffer, newest entry first.
    method Sweep(id: nat, line: nat) returns (newHead: nat)
      requires Valid()
      modifies ring
      ensures AllSound(ring[..])
      ensures var v, m := old(View()), Survivor(old(View()), id);
        && newHead == Slot(head, if m < ENTRIES then m else 0)
        && forall k :: 0 <= k < ENTRIES ==> ring[Slot(head, k)] == SquashedEntry(v, m, id, line, k)
    {
      hide Accounted, Slot, RingView, Survivor, Gap, Trimmed, Wiped, Sound, SquashedEntry;
      ghost var v, m := View(), Survivor(View(), id);
      SlotInjective(head);
      SlotFacts(head, 0);
      var last := (head + ENTRIES - 1) % ENTRIES;
      var timeToAdd, foundSmaller := 0, false;
      newHead := last;
      GapEmpty(v, 0);
      for count := 0 to ENTRIES
        invariant last == Slot(head, count)
        invariant forall k :: 0 <= k < count ==> ring[Slot(head, k)] == SquashedEntry(v, m, id, line, k)
        invariant forall k :: count <= k < ENTRIES ==> ring[Slot(head, k)] == v[k]
        invariant foundSmaller <==> m < count
        invariant !foundSmaller ==> timeToAdd == Gap(v, 0, count)
        invariant newHead == Slot(head, if foundSmaller then m else 0)
        invariant AllSound(ring[..])
      {
        SlotFacts(head, count);
        assert ring[Slot(head, count)] == ring[..][last];
        GapNext(v, count);
        EntryStep(v, m, id, line, count);
        var h := ring[last];
        if h.instrId > id {
          h := Wiped(h);
          if !foundSmaller {
            timeToAdd := timeToAdd + h.timeDiff;
            h := h.(timeDiff := 0);
          }
        } else {
          h := Trimmed(h, line);
          if !foundSmaller {
            h := h.(timeDiff := h.timeDiff + timeToAdd);
            foundSmaller, newHead := true, last;
          }
        }
        ring[last] := h;
        last := (last + ENTRIES - 1) % ENTRIES;
      }
    }

    // l1i_squash_hist_table
    method Squash(id: nat, line: nat)
      requires Valid()
      modifies this, ring
      ensures Valid() && headTime == old(headTime)
      ensures View() == Squashed(old(View()), id, line)
      ensures when == SquashedWhen(old(View()), id, old(when)) && credit == SquashedCredit(old(View()), id, old(credit))
    {
      hide Accounted, Slot, RingView, Survivor, Squashed, SquashedWhen, SquashedCredit;
      ghost var v := View();
      AccountLengths(v, headTime, when, credit);
      SquashedAccounted(v, headTime, when, credit, id, line);
      var newHead := Sweep(id, line);
      RingTurn(ring[..], head, v, Survivor(v, id), id, line);
      head := (newHead + 1) % ENTRIES;
      when, credit := SquashedWhen(v, id, when), SquashedCredit(v, id, credit);
    }

    // The part of notifyFill that entangles a filled line with a source; j is the
    // age of the source.
    method Fill(line: nat, pos: nat, latency: nat) returns (src: nat, ghost j: nat)
      requires Valid() && IsLine(line) && line != 0 && pos < ENTRIES
      modifies ring
      ensures Valid() && AllLines(old(View()))
      ensures src != 0 <==> old(ring[pos].tag) == line && HasSource(old(View()), Slot(head, pos), line, latency)
      ensures src == 0 ==> View() == old(View())
      ensures src != 0 ==>
        && Best(old(View()), Slot(head, pos), line, latency, j) && src == old(View())[j].tag != line
        && View() == Entangled(old(View()), Slot(head, pos), j, line)
      ensures src != 0 ==>
        var p, v := Slot(head, pos), old(View());
        && p != j && View()[p] == v[p].(entSrc := src)
        && View()[j] == v[j].(format := View()[j].format, numDst := v[j].numDst + 1)
        && View()[j].format == NewFormat(v[j], line)
        && forall k :: 0 <= k < ENTRIES && k != p && k != j ==> View()[k] == v[k]
      ensures src != 0 && credit[Slot(head, pos)] <= credit[j] ==> when[Slot(head, pos)] - when[j] >= latency
    {
      hide Accounted, Slot, RingView, HasSource, NewFormat, TimeOf, Eligible, IsLine;
      ghost var v, p, s := View(), Slot(head, pos), ring[..];
      SoundLines(s);
      var best, format;
      src, best, format := Search(ring[..], head, pos, line, latency);
      j := Slot(head, best);
      if src != 0 {
        var h := ring[best].(format := format, numDst := ring[best].numDst + 1);
        RingSet(s, head, best, h);
        TimelyChoice(v, headTime, when, credit, p, j, line, latency);
        ring[best] := h;
        assert ring[..] == s[best := h];
        h := ring[pos].(entSrc := src);
        RingSet(ring[..], head, pos, h);
        ring[pos] := h;
        assert ring[..] == s[best := s[best].(format := format, numDst := s[best].numDst + 1)][pos := h];
        EntangledAccounted(v, p, j, line, headTime, when, credit);
      }
    }
  }
}
