/** The history buffer of the entangling prefetcher: the last 32 basic block heads
    with the time between them, searched backwards for a source line that was
    fetched early enough before a missing line.  A history is written newest entry
    first; the ring that holds it is in EntanglingRing. */
module EntanglingHistory {
  import opened EntangledFormat

  const ENTRIES := 32
  const TIME_DIFF_OVERFLOW := 0x10_0000
  const TIME_DIFF_MASK := 0xf_ffff
  const TIME_OVERFLOW := 0x1000
  const SEARCHES := 24

  // `timeDiff` is the time since the entry before this one.
  datatype Hist = Hist(tag: nat, timeDiff: nat, bbSize: nat, instrId: nat, entSrc: nat, format: nat, numDst: nat)

  const EMPTY := Hist(0, 0, 0, 0, 0, 0, 0)

  type View = v: seq<Hist> | |v| == ENTRIES witness seq(ENTRIES, i => EMPTY)

  // The time from entry j to the newer entry p.
  function Gap(v: seq<Hist>, p: nat, j: nat): nat
    requires p <= j <= |v|
    decreases j
  {
    if j == p then 0 else Gap(v, p, j - 1) + v[j - 1].timeDiff
  }

  // The time the history assigns to entry j.
  function TimeOf(v: seq<Hist>, headTime: int, j: nat): int
    requires j <= |v|
  {
    headTime - Gap(v, 0, j)
  }

  lemma {:induction false} GapSplit(v: seq<Hist>, p: nat, k: nat, j: nat)
    requires p <= k <= j <= |v|
    ensures Gap(v, p, j) == Gap(v, p, k) + Gap(v, k, j)
    decreases j
  {
    if j > k { GapSplit(v, p, k, j - 1); }
  }

  // ----- real times -----

  // The time the history assigns to an entry is its real time, in `when`, plus the
  // time credited to it by squashes.
  ghost predicate Accounted(v: View, headTime: int, when: seq<int>, credit: seq<nat>) {
    && |when| == ENTRIES && |credit| == ENTRIES
    && forall j :: 0 <= j < ENTRIES && v[j].tag != 0 ==> TimeOf(v, headTime, j) == when[j] + credit[j]
  }

  ghost predicate Exact(v: View, headTime: int, when: seq<int>) {
    |when| == ENTRIES && forall j :: 0 <= j < ENTRIES && v[j].tag != 0 ==> TimeOf(v, headTime, j) == when[j]
  }

  // A source is eligible for the destination at p when the history puts it at
  // least `latency` before.
  predicate Eligible(v: View, p: nat, j: nat, latency: nat) {
    p < j < ENTRIES && v[j].tag != 0 && Gap(v, p, j) >= latency
  }

  // The history sees credits as time that has passed.
  lemma GapIsRealTime(v: View, headTime: int, when: seq<int>, credit: seq<nat>, p: nat, j: nat)
    requires Accounted(v, headTime, when, credit) && p < j < ENTRIES && v[p].tag != 0 && v[j].tag != 0
    ensures Gap(v, p, j) == when[p] - when[j] + credit[p] - credit[j]
  {
    GapSplit(v, 0, p, j);
  }

  // l1i_get_latency: both cycles are kept in 12 bits.
  function Latency(cycle: nat, before: nat): nat {
    var c, b := cycle % TIME_OVERFLOW, before % TIME_OVERFLOW;
    if b > c then c + TIME_OVERFLOW - b else c - b
  }

  // The latency is right exactly when it fits in them.
  lemma LatencyIff(cycle: nat, before: nat)
    requires before <= cycle
    ensures Latency(cycle, before) == (cycle - before) % TIME_OVERFLOW
    ensures Latency(cycle, before) == cycle - before <==> cycle - before < TIME_OVERFLOW
  {
  }

  // ----- adding -----

  function Pushed(v: View, h: Hist): View { [h] + v[..ENTRIES - 1] }

  const FILLER := Hist(0, TIME_DIFF_MASK, 0, 0, 0, 0, 0)

  // l1i_add_hist_table: empty entries bridge a gap too long for one difference.
  function Added(v: View, headTime: nat, now: nat, h: Hist): View
    requires headTime <= now
    decreases now - headTime
  {
    if now - headTime >= TIME_DIFF_OVERFLOW then Added(Pushed(v, FILLER), headTime + TIME_DIFF_MASK, now, h)
    else Pushed(v, h.(timeDiff := now - headTime))
  }

  // The entries an addition brings in and those it pushes out, newest first.
  function Incoming(headTime: nat, now: nat, h: Hist): (s: seq<Hist>)
    requires headTime <= now
    ensures |s| >= 1 && s[0].tag == h.tag
    decreases now - headTime
  {
    if now - headTime >= TIME_DIFF_OVERFLOW then Incoming(headTime + TIME_DIFF_MASK, now, h) + [FILLER]
    else [h.(timeDiff := now - headTime)]
  }

  function Leaving(v: View, headTime: nat, now: nat): seq<Hist>
    requires headTime <= now
    decreases now - headTime
  {
    if now - headTime >= TIME_DIFF_OVERFLOW then
      Leaving(Pushed(v, FILLER), headTime + TIME_DIFF_MASK, now) + [v[ENTRIES - 1]]
    else [v[ENTRIES - 1]]
  }

  // No entry is lost: what stays followed by what leaves is what comes in
  // followed by what there was.
  lemma {:induction false} AddedConserves(v: View, headTime: nat, now: nat, h: Hist)
    requires headTime <= now
    ensures Added(v, headTime, now, h) + Leaving(v, headTime, now) == Incoming(headTime, now, h) + v
    decreases now - headTime
  {
    var last := v[ENTRIES - 1];
    assert v == v[..ENTRIES - 1] + [last];
    if now - headTime >= TIME_DIFF_OVERFLOW {
      var w, t := Pushed(v, FILLER), headTime + TIME_DIFF_MASK;
      AddedConserves(w, t, now, h);
      assert w + [last] == [FILLER] + v;
      calc {
        Added(v, headTime, now, h) + Leaving(v, headTime, now);
        (Added(w, t, now, h) + Leaving(w, t, now)) + [last];
        (Incoming(t, now, h) + w) + [last];
        Incoming(t, now, h) + (w + [last]);
        Incoming(headTime, now, h) + v;
      }
    }
  }

  // The real times after an addition; an empty entry has no access of its own.
  ghost function AddedWhen(when: seq<int>, headTime: nat, now: nat): (r: seq<int>)
    requires headTime <= now && |when| == ENTRIES
    ensures |r| == ENTRIES
    decreases now - headTime
  {
    if now - headTime >= TIME_DIFF_OVERFLOW then
      AddedWhen([headTime + TIME_DIFF_MASK] + when[..ENTRIES - 1], headTime + TIME_DIFF_MASK, now)
    else [now] + when[..ENTRIES - 1]
  }

  // The credits after an addition.
  function AddedCredit(credit: seq<nat>, headTime: nat, now: nat): (r: seq<nat>)
    requires headTime <= now && |credit| == ENTRIES
    ensures |r| == ENTRIES
    decreases now - headTime
  {
    var c := [0] + credit[..ENTRIES - 1];
    if now - headTime >= TIME_DIFF_OVERFLOW then AddedCredit(c, headTime + TIME_DIFF_MASK, now) else c
  }

  // Pushing an entry keeps the time of every entry that stays.
  lemma {:induction false} PushedGap(v: View, h: Hist, j: nat)
    requires j < ENTRIES
    ensures Gap(Pushed(v, h), 0, j + 1) == h.timeDiff + Gap(v, 0, j)
    decreases j
  {
    var w := Pushed(v, h);
    if j == 0 {
      assert Gap(w, 0, 0) == 0;
    } else {
      PushedGap(v, h, j - 1);
      assert w[j] == v[j - 1];
    }
  }

  lemma PushedAccounted(v: View, headTime: int, when: seq<int>, credit: seq<nat>, h: Hist)
    requires Accounted(v, headTime, when, credit)
    ensures var t := headTime + h.timeDiff; var r := [t] + when[..ENTRIES - 1];
      && Accounted(Pushed(v, h), t, r, [0] + credit[..ENTRIES - 1])
      && (Exact(v, headTime, when) ==> Exact(Pushed(v, h), t, r))
  {
    hide Gap;
    var w, t := Pushed(v, h), headTime + h.timeDiff;
    GapEmpty(w, 0);
    forall j | 0 <= j < ENTRIES
      ensures j > 0 ==> w[j] == v[j - 1] && TimeOf(w, t, j) == TimeOf(v, headTime, j - 1)
    {
      if j > 0 { PushedGap(v, h, j - 1); }
    }
  }

  lemma AccountLengths(v: View, headTime: int, when: seq<int>, credit: seq<nat>)
    requires Accounted(v, headTime, when, credit)
    ensures |when| == ENTRIES && |credit| == ENTRIES
  {
  }

  lemma GapEmpty(v: seq<Hist>, p: nat)
    requires p <= |v|
    ensures Gap(v, p, p) == 0
  {
  }

  // However long the gap, an addition credits nothing: every entry that stays
  // keeps its times, and the new one gets the current time.
  lemma {:induction false} AddedAccounted(v: View, headTime: nat, when: seq<int>, credit: seq<nat>, now: nat, h: Hist)
    requires headTime <= now && Accounted(v, headTime, when, credit)
    ensures var r := AddedWhen(when, headTime, now);
      && Accounted(Added(v, headTime, now, h), now, r, AddedCredit(credit, headTime, now))
      && (Exact(v, headTime, when) ==> Exact(Added(v, headTime, now, h), now, r))
      && r[0] == now && AddedCredit(credit, headTime, now)[0] == 0
    decreases now - headTime
  {
    AccountLengths(v, headTime, when, credit);
    hide Accounted, Exact, Pushed;
    if now - headTime >= TIME_DIFF_OVERFLOW {
      PushedAccounted(v, headTime, when, credit, FILLER);
      var r := [headTime + TIME_DIFF_MASK] + when[..ENTRIES - 1];
      AddedAccounted(Pushed(v, FILLER), headTime + TIME_DIFF_MASK, r, [0] + credit[..ENTRIES - 1], now, h);
    } else {
      PushedAccounted(v, headTime, when, credit, h.(timeDiff := now - headTime));
    }
  }

  // ----- squashing -----

  // The newest entry that is not squashed.
  function Survivor(v: seq<Hist>, id: nat): (m: nat)
    ensures m <= |v|
    ensures forall j :: 0 <= j < m ==> v[j].instrId > id
    ensures m < |v| ==> v[m].instrId <= id
  {
    if v == [] || v[0].instrId <= id then 0 else 1 + Survivor(v[1..], id)
  }

  function Trimmed(h: Hist, line: nat): (r: Hist)
    ensures r.bbSize <= h.bbSize
  {
    if h.tag <= line <= h.tag + h.bbSize then h.(bbSize := line - h.tag) else h
  }

  function Wiped(h: Hist): Hist { h.(tag := 0, bbSize := 0, instrId := 0, entSrc := 0) }

  // What one entry becomes, m being the survivor's place.
  function SquashedEntry(v: View, m: nat, id: nat, line: nat, k: nat): Hist
    requires k < ENTRIES && m <= ENTRIES
  {
    if k < m then Wiped(v[k]).(timeDiff := 0)
    else if k == m then Trimmed(v[k], line).(timeDiff := v[k].timeDiff + Gap(v, 0, m))
    else if v[k].instrId > id then Wiped(v[k]) else Trimmed(v[k], line)
  }

  // The place in the old order of what is entry j after the survivor became the
  // newest.
  function Turned(m: nat, j: nat): (k: nat)
    requires m <= ENTRIES && j < ENTRIES
    ensures k < ENTRIES
  {
    if m == ENTRIES then j else if m + j < ENTRIES then m + j else m + j - ENTRIES
  }

  // l1i_squash_hist_table: the squashed newest entries are emptied and become the
  // next to be overwritten, and the survivor inherits their time.
  function Squashed(v: View, id: nat, line: nat): View {
    var m := Survivor(v, id);
    seq(ENTRIES, j requires 0 <= j < ENTRIES => SquashedEntry(v, m, id, line, Turned(m, j)))
  }

  ghost function SquashedWhen(v: View, id: nat, when: seq<int>): (r: seq<int>)
    requires |when| == ENTRIES
    ensures |r| == ENTRIES
  {
    seq(ENTRIES, j requires 0 <= j < ENTRIES => when[Turned(Survivor(v, id), j)])
  }

  // Entries older than the survivor keep their time.
  lemma {:induction false} SquashedGap(v: View, id: nat, line: nat, j: nat)
    requires 1 <= j && Survivor(v, id) + j <= ENTRIES
    ensures Gap(Squashed(v, id, line), 0, j) == Gap(v, 0, Survivor(v, id) + j)
  {
    hide Survivor;
    var m, r := Survivor(v, id), Squashed(v, id, line);
    var k := Turned(m, j - 1);
    assert r[j - 1] == SquashedEntry(v, m, id, line, k) && k == m + j - 1;
    if j == 1 {
      GapEmpty(r, 0);
    } else {
      SquashedGap(v, id, line, j - 1);
    }
  }

  // What a squash does to entry j of its result: a squashed line is gone with its
  // block and its source.  A line that stays keeps all but its block, which now ends
  // at the squashed line if it held it.
  lemma SquashedLines(v: View, id: nat, line: nat, j: nat)
    requires j < ENTRIES
    ensures var m, r := Survivor(v, id), Squashed(v, id, line);
      var h := v[Turned(m, j)];
      && (h.instrId > id ==> r[j].tag == 0 && r[j].bbSize == 0 && r[j].instrId == 0 && r[j].entSrc == 0)
      && (h.instrId <= id ==>
           && r[j] == h.(bbSize := r[j].bbSize, timeDiff := r[j].timeDiff)
           && (h.tag <= line <= h.tag + h.bbSize ==> r[j].tag + r[j].bbSize == line)
           && (!(h.tag <= line <= h.tag + h.bbSize) ==> r[j].bbSize == h.bbSize))
  {
    hide Gap, Survivor;
  }

  // No block that held the squashed line reaches past it any more, and no other
  // line is squashed than those after it.
  lemma SquashedBlocksEnd(v: View, id: nat, line: nat, j: nat)
    requires j < ENTRIES && Squashed(v, id, line)[j].tag != 0
    ensures var r, k := Squashed(v, id, line), Survivor(v, id) + j;
      && k < ENTRIES && r[j].tag == v[k].tag && v[k].instrId <= id
      && (r[j].tag <= line && v[k].tag + v[k].bbSize >= line ==> r[j].tag + r[j].bbSize == line)
      && (r[j].tag > line || v[k].tag + v[k].bbSize < line ==> r[j].bbSize == v[k].bbSize)
  {
    hide Gap, Survivor, Squashed;
    SquashedLines(v, id, line, j);
  }

  // The survivor is credited with the time of what was squashed.
  function SquashedCredit(v: View, id: nat, credit: seq<nat>): (r: seq<nat>)
    requires |credit| == ENTRIES
    ensures |r| == ENTRIES
  {
    var m := Survivor(v, id);
    seq(ENTRIES, j requires 0 <= j < ENTRIES =>
      credit[Turned(m, j)] + (if j == 0 && m < ENTRIES then Gap(v, 0, m) else 0))
  }

  lemma SquashedTimes(v: View, headTime: int, id: nat, line: nat, j: nat)
    requires j < ENTRIES
    ensures var m, r := Survivor(v, id), Squashed(v, id, line);
      && (r[j].tag != 0 ==> m + j < ENTRIES && r[j].tag == v[m + j].tag)
      && (m + j < ENTRIES ==>
           TimeOf(r, headTime, j) == TimeOf(v, headTime, m + j) + (if j == 0 then Gap(v, 0, m) else 0))
  {
    hide Gap, Survivor;
    var m, r := Survivor(v, id), Squashed(v, id, line);
    assert r[j] == SquashedEntry(v, m, id, line, Turned(m, j));
    GapEmpty(r, 0);
    if 0 < j < ENTRIES - m {
      SquashedGap(v, id, line, j);
    }
  }

  // Squashing keeps the account.
  lemma SquashedAccounted(v: View, headTime: int, when: seq<int>, credit: seq<nat>, id: nat, line: nat)
    requires Accounted(v, headTime, when, credit)
    ensures Accounted(Squashed(v, id, line), headTime, SquashedWhen(v, id, when), SquashedCredit(v, id, credit))
  {
    hide Gap, Survivor, Squashed;
    var r := Squashed(v, id, line);
    forall j | 0 <= j < ENTRIES && r[j].tag != 0
      ensures TimeOf(r, headTime, j) == SquashedWhen(v, id, when)[j] + SquashedCredit(v, id, credit)[j]
    {
      SquashedTimes(v, headTime, id, line, j);
    }
  }

  // A squash that leaves an entry of the history newest and drops time after it.
  predicate Moves(v: View, id: nat) {
    var m := Survivor(v, id);
    m < ENTRIES && v[m].tag != 0 && Gap(v, 0, m) > 0
  }

  // Only such a squash takes a history off the real times, and every one does.
  lemma SquashExactIff(v: View, headTime: int, when: seq<int>, id: nat, line: nat)
    requires Exact(v, headTime, when)
    ensures Exact(Squashed(v, id, line), headTime, SquashedWhen(v, id, when)) <==> !Moves(v, id)
  {
    hide Gap, Survivor, Squashed;
    var m, r := Survivor(v, id), Squashed(v, id, line);
    forall j | 0 <= j < ENTRIES && r[j].tag != 0
      ensures m + j < ENTRIES && r[j].tag == v[m + j].tag
      ensures TimeOf(r, headTime, j) == SquashedWhen(v, id, when)[j] + (if j == 0 then Gap(v, 0, m) else 0)
    {
      SquashedTimes(v, headTime, id, line, j);
    }
    if m < ENTRIES {
      SurvivorStays(v, id, line);
      SquashedTimes(v, headTime, id, line, 0);
      assert v[m].tag != 0 ==> TimeOf(r, headTime, 0) == SquashedWhen(v, id, when)[0] + Gap(v, 0, m);
    }
  }

  lemma SurvivorStays(v: View, id: nat, line: nat)
    requires Survivor(v, id) < ENTRIES
    ensures Squashed(v, id, line)[0].tag == v[Survivor(v, id)].tag
  {
  }

  // ----- choosing a source -----

  // The common format of a source's destinations with this line among them.
  function NewFormat(h: Hist, line: nat): nat
    requires IsLine(h.tag) && IsLine(line)
  {
    var f := GetFormat(h.tag, line);
    if h.numDst == 0 || f < h.format then f else h.format
  }

  // Best is a source in the table with room for the line in its present format,
  // then one with room in a wider format, then one not in the table.
  function Rank(h: Hist, line: nat): (r: nat)
    requires IsLine(h.tag) && IsLine(line)
    ensures r <= 3
  {
    if h.format == 0 then 1
    else if h.numDst >= NewFormat(h, line) then 0
    else if GetFormat(h.tag, line) == h.format then 3 else 2
  }

  // A source that has room for the line without changing its format, one that has
  // room in another, and one that is not in the table.
  ghost predicate FitsAsIs(h: Hist, line: nat)
    requires IsLine(h.tag) && IsLine(line)
  {
    h.format != 0 && GetFormat(h.tag, line) == h.format && h.numDst < h.format
  }

  ghost predicate FitsAnew(h: Hist, line: nat)
    requires IsLine(h.tag) && IsLine(line)
  {
    var f := GetFormat(h.tag, line);
    h.format != 0 && f != h.format && (h.numDst == 0 || (h.numDst < f && h.numDst < h.format))
  }

  lemma RankMeans(h: Hist, line: nat)
    requires IsLine(h.tag) && IsLine(line)
    ensures Rank(h, line) == 3 <==> FitsAsIs(h, line)
    ensures Rank(h, line) == 2 <==> FitsAnew(h, line)
    ensures Rank(h, line) == 1 <==> h.format == 0
    ensures h.numDst == 0 ==> NewFormat(h, line) == GetFormat(h.tag, line)
    ensures h.numDst > 0 ==> NewFormat(h, line) <= h.format && NewFormat(h, line) <= GetFormat(h.tag, line)
    ensures NewFormat(h, line) == h.format || NewFormat(h, line) == GetFormat(h.tag, line)
  {
    hide GetFormat, IsLine;
  }

  // What being best means: of the sources looked at, the first that fits as it is,
  // else the first that fits anew, else the first not in the table, else the first.
  lemma BestMeans(v: View, p: nat, line: nat, latency: nat, j: nat, k: nat)
    requires AllLines(v) && IsLine(line) && Best(v, p, line, latency, j)
    requires Eligible(v, p, k, latency) && EligibleCount(v, p, k, latency) <= SEARCHES
    ensures j < ENTRIES && k < ENTRIES
    ensures FitsAsIs(v[k], line) ==> FitsAsIs(v[j], line) && j <= k
    ensures FitsAnew(v[k], line) ==> FitsAsIs(v[j], line) || (FitsAnew(v[j], line) && j <= k)
    ensures v[k].format == 0 ==> FitsAsIs(v[j], line) || FitsAnew(v[j], line) || (v[j].format == 0 && j <= k)
    ensures FitsAsIs(v[j], line) || FitsAnew(v[j], line) || v[j].format == 0 || j <= k
  {
    hide Gap, Rank, FitsAsIs, FitsAnew, IsLine, EligibleCount;
    RankMeans(v[j], line);
    RankMeans(v[k], line);
  }

  ghost predicate AllLines(v: seq<Hist>) {
    forall j :: 0 <= j < |v| ==> IsLine(v[j].tag)
  }

  function EligibleCount(v: View, p: nat, j: nat, latency: nat): nat
    requires p <= j < ENTRIES
    decreases j
  {
    if j == p then 0
    else EligibleCount(v, p, j - 1, latency) + (if Eligible(v, p, j, latency) then 1 else 0)
  }

  lemma {:induction false} CountGrows(v: View, p: nat, j: nat, k: nat, latency: nat)
    requires p <= j <= k < ENTRIES
    ensures EligibleCount(v, p, j, latency) <= EligibleCount(v, p, k, latency)
    decreases k
  {
    if j < k { CountGrows(v, p, j, k - 1, latency); }
  }

  // The earliest of the best ranked among the first 24 eligible sources.
  ghost predicate Best(v: View, p: nat, line: nat, latency: nat, j: nat)
    requires AllLines(v) && IsLine(line)
  {
    && Eligible(v, p, j, latency)
    && EligibleCount(v, p, j, latency) <= SEARCHES
    && forall k: nat :: Eligible(v, p, k, latency) && EligibleCount(v, p, k, latency) <= SEARCHES ==>
         Rank(v[k], line) <= Rank(v[j], line) && (k < j ==> Rank(v[k], line) < Rank(v[j], line))
  }

  // The best of those up to the older end `n` of what has been looked at.
  ghost predicate BestUpTo(v: View, p: nat, line: nat, latency: nat, n: nat, j: nat)
    requires AllLines(v) && IsLine(line)
  {
    && j < n && Eligible(v, p, j, latency)
    && forall k: nat :: k < n && Eligible(v, p, k, latency) ==>
         Rank(v[k], line) <= Rank(v[j], line) && (k < j ==> Rank(v[k], line) < Rank(v[j], line))
  }

  // No entry from p to s is for the line again.
  ghost predicate Clear(v: View, p: nat, s: nat, line: nat) {
    forall k :: p < k <= s && k < ENTRIES ==> v[k].tag != line
  }

  // The search ends at s without looking further.
  ghost predicate Stops(v: View, p: nat, s: nat, line: nat, latency: nat)
    requires AllLines(v) && IsLine(line)
  {
    Eligible(v, p, s, latency) && (Rank(v[s], line) == 3 || EligibleCount(v, p, s, latency) >= SEARCHES)
  }

  // There is a source: an eligible one and no second entry for the line, or one
  // that ends the search before that entry.
  ghost predicate HasSource(v: View, p: nat, line: nat, latency: nat)
    requires AllLines(v) && IsLine(line)
  {
    exists s: nat :: Eligible(v, p, s, latency) && Clear(v, p, s, line)
      && (Clear(v, p, ENTRIES, line) || Stops(v, p, s, line, latency))
  }

  ghost predicate NoneUpTo(v: View, p: nat, latency: nat, n: nat) {
    forall k: nat :: k < n ==> !Eligible(v, p, k, latency)
  }

  ghost predicate Unstopped(v: View, p: nat, line: nat, latency: nat, n: nat)
    requires AllLines(v) && IsLine(line)
  {
    forall k: nat :: k < n ==> !Stops(v, p, k, line, latency)
  }

  // The state of the search before entry n: b is the choice so far and `found` its
  // rank.
  ghost predicate Choice(v: View, p: nat, line: nat, latency: nat, n: nat, b: nat, searched: nat, found: nat)
    requires AllLines(v) && IsLine(line)
  {
    && (searched == 0 ==> found == 0 && NoneUpTo(v, p, latency, n))
    && (searched > 0 ==> b < ENTRIES && BestUpTo(v, p, line, latency, n, b) && found == Rank(v[b], line))
  }

  lemma StartOfSearch(v: View, p: nat, line: nat, latency: nat)
    requires AllLines(v) && IsLine(line) && p < ENTRIES
    ensures Choice(v, p, line, latency, p + 1, 0, 0, 0) && Unstopped(v, p, line, latency, p + 1)
    ensures Gap(v, p, p + 1) == v[p].timeDiff && EligibleCount(v, p, p, latency) == 0 && Clear(v, p, p, line)
  {
    hide Rank;
    GapEmpty(v, p);
  }

  // Looking at one entry more.
  lemma SearchStep(v: View, p: nat, line: nat, latency: nat, n: nat)
    requires AllLines(v) && IsLine(line) && p < n < ENTRIES
    ensures Gap(v, p, n + 1) == Gap(v, p, n) + v[n].timeDiff
    ensures Eligible(v, p, n, latency) <==> v[n].tag != 0 && Gap(v, p, n) >= latency
    ensures EligibleCount(v, p, n, latency)
      == EligibleCount(v, p, n - 1, latency) + (if Eligible(v, p, n, latency) then 1 else 0)
    ensures Clear(v, p, n - 1, line) && v[n].tag != line ==> Clear(v, p, n, line)
    ensures Stops(v, p, n, line, latency) <==>
      Eligible(v, p, n, latency) && (Rank(v[n], line) == 3 || EligibleCount(v, p, n, latency) >= SEARCHES)
    ensures Unstopped(v, p, line, latency, n) && !Stops(v, p, n, line, latency) ==> Unstopped(v, p, line, latency, n + 1)
  {
    hide Rank, IsLine;
  }

  lemma SkipStep(v: View, p: nat, line: nat, latency: nat, n: nat, b: nat, searched: nat, found: nat)
    requires AllLines(v) && IsLine(line) && !Eligible(v, p, n, latency)
    requires Choice(v, p, line, latency, n, b, searched, found)
    ensures Choice(v, p, line, latency, n + 1, b, searched, found)
  {
    hide Gap, Rank, Eligible, EligibleCount, IsLine;
  }

  lemma ChoiceStep(v: View, p: nat, line: nat, latency: nat, n: nat, b: nat, searched: nat, found: nat)
    requires AllLines(v) && IsLine(line) && Eligible(v, p, n, latency)
    requires Choice(v, p, line, latency, n, b, searched, found)
    ensures var rank := Rank(v[n], line);
      if searched == 0 || rank > found then Choice(v, p, line, latency, n + 1, n, searched + 1, rank)
      else Choice(v, p, line, latency, n + 1, b, searched + 1, found)
  {
    hide Gap, Rank, EligibleCount, IsLine;
  }

  lemma EndAtStop(v: View, p: nat, line: nat, latency: nat, s: nat, b: nat, searched: nat, found: nat)
    requires AllLines(v) && IsLine(line) && Stops(v, p, s, line, latency) && Clear(v, p, s, line)
    requires EligibleCount(v, p, s, latency) <= SEARCHES
    requires searched > 0 && Choice(v, p, line, latency, s + 1, b, searched, found)
    ensures Best(v, p, line, latency, b) && HasSource(v, p, line, latency)
  {
    hide Gap;
    CountGrows(v, p, b, s, latency);
    forall k: nat | Eligible(v, p, k, latency) && EligibleCount(v, p, k, latency) <= SEARCHES
      ensures k > s ==> Rank(v[k], line) <= Rank(v[b], line)
    {
      if k > s { CountGrows(v, p, s, k - 1, latency); }
    }
  }

  lemma EndOfRing(v: View, p: nat, line: nat, latency: nat, b: nat, searched: nat, found: nat)
    requires AllLines(v) && IsLine(line) && p < ENTRIES && Clear(v, p, ENTRIES - 1, line)
    requires searched == EligibleCount(v, p, ENTRIES - 1, latency) <= SEARCHES
    requires Choice(v, p, line, latency, ENTRIES, b, searched, found)
    ensures searched > 0 ==> Best(v, p, line, latency, b)
    ensures HasSource(v, p, line, latency) <==> searched > 0
  {
    hide Gap, Rank;
    if searched > 0 {
      CountGrows(v, p, b, ENTRIES - 1, latency);
      assert Clear(v, p, b, line) && Clear(v, p, ENTRIES, line);
    }
  }

  lemma AgainHasNoSource(v: View, p: nat, line: nat, latency: nat, d: nat)
    requires AllLines(v) && IsLine(line) && Unstopped(v, p, line, latency, d)
    requires p < d < ENTRIES && v[d].tag == line
    ensures !HasSource(v, p, line, latency)
  {
    hide Gap, Rank, EligibleCount, Eligible;
  }
}
