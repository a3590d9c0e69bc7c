/** Whole runs of the entangling history: accesses, squashes and fills in any order. */
module EntanglingRuns {
  import opened EntangledFormat
  import opened EntanglingHistory
  import opened EntanglingRing
  import Bits

  datatype Event =
    | Access(h: Hist, now: nat)
    | Squash(id: nat, line: nat)
    | Fill(line: nat, p: nat, j: nat)

  // `when` has the real time of each entry, `credit` the time it inherited from
  // squashed entries, summed from their time differences.
  datatype State = State(v: View, headTime: nat, when: seq<int>, credit: seq<nat>)

  // The clock does not go back, and a fill entangles two lines of the history.
  ghost predicate Enabled(s: State, e: Event) {
    match e
    case Access(_, now) => s.headTime <= now
    case Squash(_, _) => true
    case Fill(line, p, j) => p < ENTRIES && j < ENTRIES && IsLine(s.v[j].tag) && IsLine(line)
  }

  ghost predicate Complete(s: State) { |s.when| == ENTRIES && |s.credit| == ENTRIES }

  ghost function Next(s: State, e: Event): State
    requires Complete(s) && Enabled(s, e)
  {
    match e
    case Access(h, now) =>
      State(Added(s.v, s.headTime, now, h), now, AddedWhen(s.when, s.headTime, now), AddedCredit(s.credit, s.headTime, now))
    case Squash(id, line) =>
      State(Squashed(s.v, id, line), s.headTime, SquashedWhen(s.v, id, s.when), SquashedCredit(s.v, id, s.credit))
    case Fill(line, p, j) => s.(v := Entangled(s.v, p, j, line))
  }

  // The states of a run follow one another by its events.
  ghost predicate IsRun(states: seq<State>, events: seq<Event>) {
    && |states| == |events| + 1
    && forall i :: 0 <= i < |events| ==>
      Complete(states[i]) && Enabled(states[i], events[i]) && states[i + 1] == Next(states[i], events[i])
  }

  ghost predicate Starts(s: State) {
    Complete(s) && forall j :: 0 <= j < ENTRIES ==> s.v[j] == EMPTY
  }

  ghost predicate Balanced(s: State) { Accounted(s.v, s.headTime, s.when, s.credit) }

  ghost predicate OnTime(s: State) { Exact(s.v, s.headTime, s.when) }

  // The event is a squash that gives an entry of the history the time of others.
  ghost predicate Disturbs(s: State, e: Event) { e.Squash? && Moves(s.v, e.id) }

  lemma NextKeeps(s: State, e: Event)
    requires Balanced(s) && Enabled(s, e)
    ensures Complete(s) && Balanced(Next(s, e))
    ensures OnTime(s) ==> (OnTime(Next(s, e)) <==> !Disturbs(s, e))
  {
    AccountLengths(s.v, s.headTime, s.when, s.credit);
    hide Accounted, Exact, Added, AddedWhen, AddedCredit, Squashed, SquashedWhen, SquashedCredit, Entangled, IsLine, Moves;
    match e
    case Access(h, now) => AddedAccounted(s.v, s.headTime, s.when, s.credit, now, h);
    case Squash(id, line) =>
      SquashedAccounted(s.v, s.headTime, s.when, s.credit, id, line);
      if OnTime(s) { SquashExactIff(s.v, s.headTime, s.when, id, line); }
    case Fill(line, p, j) => EntangledAccounted(s.v, p, j, line, s.headTime, s.when, s.credit);
  }

  // In every state of every run the history is ahead of the real times by exactly
  // the time each entry inherited.
  lemma {:induction false} RunIsBalanced(states: seq<State>, events: seq<Event>, n: nat)
    requires IsRun(states, events) && Starts(states[0]) && n <= |events|
    ensures Balanced(states[n])
  {
    if n == 0 {
    } else {
      RunIsBalanced(states, events, n - 1);
      hide Balanced, Next, Enabled;
      NextKeeps(states[n - 1], events[n - 1]);
    }
  }

  // A run is on the real times throughout if and only if no squash disturbs it.
  lemma {:induction false} RunExactIff(states: seq<State>, events: seq<Event>, n: nat)
    requires IsRun(states, events) && Starts(states[0]) && n <= |events|
    ensures (forall k :: 0 <= k <= n ==> OnTime(states[k])) <==> (forall i :: 0 <= i < n ==> !Disturbs(states[i], events[i]))
  {
    if n == 0 {
    } else {
      hide Exact, Accounted, Moves, Disturbs, IsRun, Starts;
      RunExactIff(states, events, n - 1);
      RunStep(states, events, n - 1);
    }
  }

  lemma RunStep(states: seq<State>, events: seq<Event>, i: nat)
    requires IsRun(states, events) && Starts(states[0]) && i < |events|
    ensures |states| == |events| + 1
    ensures OnTime(states[i]) ==> (OnTime(states[i + 1]) <==> !Disturbs(states[i], events[i]))
  {
    RunIsBalanced(states, events, i);
    hide Balanced, Next, Enabled, OnTime, Disturbs;
    NextKeeps(states[i], events[i]);
  }

  // In every state of every run, every latency a source is eligible for is really
  // covered if and only if the destination inherited no more time than the source.
  lemma RunTimelyIff(states: seq<State>, events: seq<Event>, n: nat, p: nat, j: nat)
    requires IsRun(states, events) && Starts(states[0]) && n <= |events|
    requires Eligible(states[n].v, p, j, 0) && states[n].v[p].tag != 0
    ensures Complete(states[n])
    ensures (forall latency: nat :: Eligible(states[n].v, p, j, latency) ==>
              states[n].when[p] - states[n].when[j] >= latency)
            <==> states[n].credit[p] <= states[n].credit[j]
  {
    RunIsBalanced(states, events, n);
    var s := states[n];
    hide IsRun, Gap;
    GapIsRealTime(s.v, s.headTime, s.when, s.credit, p, j);
    assert Eligible(s.v, p, j, Gap(s.v, p, j));
  }

  // Until the first such squash no source is later than the latency asks for.
  lemma RunIsTimely(states: seq<State>, events: seq<Event>, n: nat, p: nat, j: nat, latency: nat)
    requires IsRun(states, events) && Starts(states[0]) && n <= |events|
    requires forall i :: 0 <= i < n ==> !Disturbs(states[i], events[i])
    requires Eligible(states[n].v, p, j, latency) && states[n].v[p].tag != 0
    ensures Complete(states[n]) && states[n].when[p] - states[n].when[j] >= latency
  {
    RunExactIff(states, events, n);
    var s := states[n];
    assert OnTime(s);
    RunIsBalanced(states, events, n);
    hide IsRun, Gap;
    GapIsRealTime(s.v, s.headTime, s.when, s.credit, p, j);
  }

  // ----- a late source -----

  function Line(tag: nat, id: nat): Hist { Hist(tag, 0, 0, id, 0, 0, 0) }

  lemma AccessSoon(s: State, h: Hist, now: nat)
    requires Complete(s) && s.headTime <= now < s.headTime + TIME_DIFF_OVERFLOW
    ensures var t := Next(s, Access(h, now));
      && Complete(t) && t.headTime == now
      && t.v[0] == h.(timeDiff := now - s.headTime) && t.when[0] == now
      && forall j :: 0 < j < ENTRIES ==> t.v[j] == s.v[j - 1] && t.when[j] == s.when[j - 1]
  {
  }

  // Three lines are fetched, 1 at cycle 10, 2 at 15 and 3 at 22, and a squash takes
  // the third back.  A fill of line 2 after twelve cycles then entangles it with
  // line 1, which was fetched only five cycles before it.
  lemma SquashMakesLate(s0: State) returns (states: seq<State>, events: seq<Event>)
    requires Starts(s0) && s0.headTime == 0
    ensures events == [Access(Line(1, 10), 10), Access(Line(2, 20), 15), Access(Line(3, 30), 22), Squash(20, 2)]
    ensures IsRun(states, events) && states[0] == s0
    ensures var s := states[4];
      && Complete(s) && AllLines(s.v) && IsLine(2)
      && s.v[0].tag == 2 && s.v[1].tag == 1 && s.when[0] == 15 && s.when[1] == 10
      && HasSource(s.v, 0, 2, 12) && Best(s.v, 0, 2, 12, 1)
  {
    var a, b, c, d := Access(Line(1, 10), 10), Access(Line(2, 20), 15), Access(Line(3, 30), 22), Squash(20, 2);
    var s1 := Next(s0, a);
    var s2 := Next(s1, b);
    var s3 := Next(s2, c);
    var s4 := Next(s3, d);
    hide Next, HasSource, Best, AllLines, IsLine;
    LateAccesses(s0);
    states, events := [s0, s1, s2, s3, s4], [a, b, c, d];
    LateSquash(s3);
  }

  lemma LateAccesses(s0: State)
    requires Starts(s0) && s0.headTime == 0
    ensures var s1 := Next(s0, Access(Line(1, 10), 10));
      && Complete(s1) && s1.headTime == 10
      && var s2 := Next(s1, Access(Line(2, 20), 15));
      && Complete(s2) && s2.headTime == 15
      && var s := Next(s2, Access(Line(3, 30), 22));
      && Complete(s) && s.when[1] == 15 && s.when[2] == 10
      && s.v[0] == Line(3, 30).(timeDiff := 7) && s.v[1] == Line(2, 20).(timeDiff := 5)
      && s.v[2] == Line(1, 10).(timeDiff := 10) && forall j :: 3 <= j < ENTRIES ==> s.v[j] == EMPTY
  {
    hide Next;
    AccessSoon(s0, Line(1, 10), 10);
    var s1 := Next(s0, Access(Line(1, 10), 10));
    AccessSoon(s1, Line(2, 20), 15);
    var s2 := Next(s1, Access(Line(2, 20), 15));
    AccessSoon(s2, Line(3, 30), 22);
  }

  lemma LateSquash(s: State)
    requires Complete(s) && s.when[1] == 15 && s.when[2] == 10
    requires s.v[0] == Line(3, 30).(timeDiff := 7) && s.v[1] == Line(2, 20).(timeDiff := 5)
    requires s.v[2] == Line(1, 10).(timeDiff := 10) && forall j :: 3 <= j < ENTRIES ==> s.v[j] == EMPTY
    ensures var t := Next(s, Squash(20, 2));
      && Complete(t) && AllLines(t.v) && IsLine(2)
      && t.v[0].tag == 2 && t.v[1].tag == 1 && t.when[0] == 15 && t.when[1] == 10
      && HasSource(t.v, 0, 2, 12) && Best(t.v, 0, 2, 12, 1)
  {
    LateView(s.v, Squashed(s.v, 20, 2));
    hide Survivor, Squashed, Best, HasSource, AllLines, IsLine;
  }

  lemma LateView(v: View, r: View)
    requires v[0] == Line(3, 30).(timeDiff := 7) && v[1] == Line(2, 20).(timeDiff := 5)
    requires v[2] == Line(1, 10).(timeDiff := 10) && forall j :: 3 <= j < ENTRIES ==> v[j] == EMPTY
    requires r == Squashed(v, 20, 2)
    ensures Survivor(v, 20) == 1 && AllLines(r) && IsLine(2)
    ensures r[0].tag == 2 && r[1].tag == 1
    ensures HasSource(r, 0, 2, 12) && Best(r, 0, 2, 12, 1)
  {
    assert Survivor(v, 20) == 1 by { assert v[1..][0] == v[1]; }
    hide Survivor;
    assert forall j :: 0 <= j < ENTRIES ==> r[j] == SquashedEntry(v, 1, 20, 2, Turned(1, j));
    assert r[0] == Line(2, 20).(timeDiff := 12) && r[1] == Line(1, 10).(timeDiff := 10) by {
      assert Gap(v, 0, 1) == 7;
    }
    assert forall j :: 2 <= j < ENTRIES ==> r[j].tag == 0;
    SmallLines();
    hide Squashed, SquashedEntry, IsLine, GetFormat;
    assert Gap(r, 0, 1) == 12;
    assert forall k: nat :: Eligible(r, 0, k, 12) ==> k == 1;
    assert EligibleCount(r, 0, 1, 12) == 1;
    assert Eligible(r, 0, 1, 12) && Clear(r, 0, 1, 2) && Clear(r, 0, ENTRIES, 2);
  }

  lemma SmallLines()
    ensures IsLine(0) && IsLine(1) && IsLine(2)
  {
    Bits.Pow2Mono(2, 58);
    assert Bits.Pow2(2) == 4;
  }
}
