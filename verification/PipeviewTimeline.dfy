/** The timeline picture of one instruction in the O3 pipeline viewer.

    Stages are numbered in pipeline order (fetch, decode, rename, dispatch, issue,
    complete, retire, store); `ticks[s]` is the tick stage s was reached, 0 for
    never.  A row is the text between the brackets, without colour codes. */
module PipeviewTimeline {
  import opened Arithmetic

  const SHORTHAND := "fdnpicrs"
  const FETCH := 0
  const DISPATCH := 3
  const ISSUE := 4
  const RETIRE := 6

  // Position of each stage's name in alphabetical order: event tuples that agree
  // on the column tick are ordered by name.
  const NAME_RANK := [3, 1, 5, 2, 4, 0, 6, 7]

  const NAMES := ["fetch", "decode", "rename", "dispatch", "issue", "complete", "retire", "store"]

  // Alphabetical order on the first three letters, which tell the names apart.
  predicate Alphabetical(a: string, b: string)
    requires |a| >= 3 && |b| >= 3
  {
    a[0] < b[0] || (a[0] == b[0] && (a[1] < b[1] || (a[1] == b[1] && a[2] < b[2])))
  }

  lemma NameLetters(s: nat)
    requires s < 8
    ensures |NAMES[s]| >= 3
    ensures NAMES[s][..3] == ["fet", "dec", "ren", "dis", "iss", "com", "ret", "sto"][s]
  {
  }

  // The ranks are those of the names.
  lemma RanksAreAlphabetical(s: nat, t: nat)
    requires s < 8 && t < 8
    ensures |NAMES[s]| >= 3 && |NAMES[t]| >= 3
    ensures NAME_RANK[s] < NAME_RANK[t] <==> Alphabetical(NAMES[s], NAMES[t])
  {
    NameLetters(s);
    NameLetters(t);
    var a, b := NAMES[s][..3], NAMES[t][..3];
    assert a[0] == NAMES[s][0] && a[1] == NAMES[s][1] && a[2] == NAMES[s][2];
    assert b[0] == NAMES[t][0] && b[1] == NAMES[t][1] && b[2] == NAMES[t][2];
  }

  datatype Chart = Chart(width: nat, cycle: nat, ticks: seq<int>) {
    ghost predicate Valid() {
      width > 0 && cycle > 0 && 7 <= |ticks| <= 8
    }

    function TimeWidth(): (w: nat)
      requires width > 0 && cycle > 0
      ensures w > 0
    {
      MulMono(1, width, cycle);
      width * cycle
    }

    function Base(): int
      requires Valid()
    {
      TimeWidth() * (ticks[FETCH] / TimeWidth())
    }

    function Dot(): char
      requires Valid()
    {
      if ticks[RETIRE] == 0 then '=' else '.'
    }

    function Column(s: nat): int
      requires Valid() && s < |ticks|
    {
      (ticks[s] % TimeWidth()) / cycle
    }

    // Dispatch is not drawn when it coincides with issue.
    predicate Merged(s: nat)
      requires Valid()
    {
      s == DISPATCH && ticks[DISPATCH] == ticks[ISSUE]
    }
  }

  function Max(s: seq<int>): (m: int)
    requires s != []
    ensures m in s && forall i :: 0 <= i < |s| ==> s[i] <= m
  {
    if |s| == 1 then s[0]
    else
      var m := Max(s[1..]);
      assert s[1..][|s| - 2] == s[|s| - 1];
      assert forall i :: 1 <= i < |s| ==> s[i] == s[1..][i - 1];
      if s[0] < m then m else s[0]
  }

  predicate Compact(ch: Chart)
    requires ch.Valid()
  {
    Max(ch.ticks) - ch.ticks[FETCH] < ch.TimeWidth()
  }

  function NumLines(ch: Chart): int
    requires ch.Valid()
  {
    if Compact(ch) then 1 else (Max(ch.ticks) - ch.Base()) / ch.TimeWidth() + 1
  }

  // ----- one row -----

  predicate InWindow(ch: Chart, i: nat, s: nat)
    requires ch.Valid() && s < |ch.ticks|
  {
    var lo := ch.Base() + i * ch.TimeWidth();
    var hi := lo + ch.TimeWidth() + (if NumLines(ch) == 1 then ch.ticks[FETCH] - ch.Base() else 0);
    ch.ticks[s] != 0 && lo <= ch.ticks[s] < hi
  }

  predicate Before(ch: Chart, s: nat, t: nat)
    requires ch.Valid() && s < |ch.ticks| && t < |ch.ticks|
  {
    var w := ch.TimeWidth();
    ch.ticks[s] % w < ch.ticks[t] % w || (ch.ticks[s] % w == ch.ticks[t] % w && NAME_RANK[s] < NAME_RANK[t])
  }

  ghost predicate Stages(ch: Chart, evs: seq<nat>) {
    forall i :: 0 <= i < |evs| ==> evs[i] < |ch.ticks|
  }

  ghost predicate Ordered(ch: Chart, evs: seq<nat>)
    requires ch.Valid() && Stages(ch, evs)
  {
    forall i, j :: 0 <= i < j < |evs| ==> Before(ch, evs[i], evs[j])
  }

  function InsertEvent(ch: Chart, s: nat, evs: seq<nat>): (r: seq<nat>)
    requires ch.Valid() && s < |ch.ticks| && Stages(ch, evs)
    ensures Stages(ch, r)
    ensures forall x :: x in r <==> x == s || x in evs
  {
    if evs == [] then [s]
    else if Before(ch, s, evs[0]) then [s] + evs
    else
      assert forall x :: x in evs <==> x == evs[0] || x in evs[1..];
      [evs[0]] + InsertEvent(ch, s, evs[1..])
  }

  lemma BeforeIsTotal(ch: Chart, s: nat, t: nat)
    requires ch.Valid() && s < |ch.ticks| && t < |ch.ticks| && s != t
    ensures Before(ch, s, t) || Before(ch, t, s)
  {
    assert NAME_RANK[0] == 3 && NAME_RANK[1] == 1 && NAME_RANK[2] == 5 && NAME_RANK[3] == 2;
    assert NAME_RANK[4] == 4 && NAME_RANK[5] == 0 && NAME_RANK[6] == 6 && NAME_RANK[7] == 7;
  }

  lemma {:induction false} InsertEventOrdered(ch: Chart, s: nat, evs: seq<nat>)
    requires ch.Valid() && s < |ch.ticks| && Stages(ch, evs) && Ordered(ch, evs) && s !in evs
    ensures Ordered(ch, InsertEvent(ch, s, evs))
  {
    if evs != [] && !Before(ch, s, evs[0]) {
      BeforeIsTotal(ch, s, evs[0]);
      InsertEventOrdered(ch, s, evs[1..]);
      var t := InsertEvent(ch, s, evs[1..]);
      forall j | 0 <= j < |t| ensures Before(ch, evs[0], t[j]) {
        assert t[j] in t;
      }
    }
  }

  // The sorted events of row i among stages 0 .. n-1.
  function EventsOf(ch: Chart, i: nat, n: nat): (evs: seq<nat>)
    requires ch.Valid() && n <= |ch.ticks|
    ensures Stages(ch, evs)
    ensures forall s: nat :: s in evs <==> s < n && InWindow(ch, i, s)
  {
    if n == 0 then []
    else if InWindow(ch, i, n - 1) then InsertEvent(ch, n - 1, EventsOf(ch, i, n - 1))
    else EventsOf(ch, i, n - 1)
  }

  lemma {:induction false} EventsOrdered(ch: Chart, i: nat, n: nat)
    requires ch.Valid() && n <= |ch.ticks|
    ensures Ordered(ch, EventsOf(ch, i, n))
  {
    if n == 0 {
    } else {
      EventsOrdered(ch, i, n - 1);
      if InWindow(ch, i, n - 1) { InsertEventOrdered(ch, n - 1, EventsOf(ch, i, n - 1)); }
    }
  }

  function Repeat(c: char, n: int): (r: string)
    ensures |r| == if n < 0 then 0 else n
    ensures forall k :: 0 <= k < |r| ==> r[k] == c
  {
    if n <= 0 then "" else [c] + Repeat(c, n - 1)
  }

  // The text written for the events, from column `pos` on.
  function Paint(ch: Chart, evs: seq<nat>, pos: int): string
    requires ch.Valid() && Stages(ch, evs)
    decreases |evs|
  {
    if evs == [] then Repeat(ch.Dot(), ch.width - pos)
    else if ch.Merged(evs[0]) then Paint(ch, evs[1..], pos)
    else
      var c := ch.Column(evs[0]);
      Repeat(ch.Dot(), c - pos) + ([SHORTHAND[evs[0]]] + Paint(ch, evs[1..], c + 1))
  }

  function Row(ch: Chart, i: nat): string
    requires ch.Valid()
  {
    Paint(ch, EventsOf(ch, i, |ch.ticks|), 0)
  }

  ghost predicate ColumnsOrdered(ch: Chart, evs: seq<nat>)
    requires ch.Valid() && Stages(ch, evs)
  {
    forall i, j :: 0 <= i < j < |evs| ==> ch.Column(evs[i]) <= ch.Column(evs[j])
  }

  ghost predicate ColumnsWithin(ch: Chart, evs: seq<nat>, lo: int)
    requires ch.Valid() && Stages(ch, evs)
  {
    forall i :: 0 <= i < |evs| ==> lo <= ch.Column(evs[i]) < ch.width
  }

  // The drawn events start at or after `pos` and no two share a column.
  ghost predicate Apart(ch: Chart, evs: seq<nat>, pos: int)
    requires ch.Valid() && Stages(ch, evs)
  {
    && (forall i :: 0 <= i < |evs| && !ch.Merged(evs[i]) ==> pos <= ch.Column(evs[i]))
    && (forall i, j :: 0 <= i < j < |evs| && !ch.Merged(evs[i]) && !ch.Merged(evs[j]) ==>
          ch.Column(evs[i]) != ch.Column(evs[j]))
  }

  lemma ApartStep(ch: Chart, evs: seq<nat>, pos: int)
    requires ch.Valid() && Stages(ch, evs) && evs != [] && ColumnsOrdered(ch, evs)
    ensures ch.Merged(evs[0]) ==> (Apart(ch, evs, pos) <==> Apart(ch, evs[1..], pos))
    ensures !ch.Merged(evs[0]) ==>
      (Apart(ch, evs, pos) <==> pos <= ch.Column(evs[0]) && Apart(ch, evs[1..], ch.Column(evs[0]) + 1))
  {
    hide Chart.Column, Chart.Merged;
    var rest := evs[1..];
    assert forall i :: 1 <= i < |evs| ==> evs[i] == rest[i - 1];
    assert forall i :: 0 <= i < |rest| ==> rest[i] == evs[i + 1];
  }

  lemma NoEventsApart(ch: Chart, pos: int)
    requires ch.Valid()
    ensures Apart(ch, [], pos)
  {
  }

  lemma {:induction false} PaintWidth(ch: Chart, evs: seq<nat>, pos: int)
    requires ch.Valid() && Stages(ch, evs) && ColumnsOrdered(ch, evs)
    requires 0 <= pos <= ch.width && ColumnsWithin(ch, evs, pos - 1)
    ensures |Paint(ch, evs, pos)| >= ch.width - pos
    ensures |Paint(ch, evs, pos)| == ch.width - pos <==> Apart(ch, evs, pos)
    decreases |evs|
  {
    hide Chart.Column, Chart.Merged, Chart.Dot, Repeat, Apart;
    if evs == [] {
      assert Apart(ch, evs, pos) by { NoEventsApart(ch, pos); }
    } else {
      ApartStep(ch, evs, pos);
      var rest := evs[1..];
      assert forall i :: 0 <= i < |rest| ==> rest[i] == evs[i + 1];
      if ch.Merged(evs[0]) {
        PaintWidth(ch, evs[1..], pos);
      } else {
        PaintWidth(ch, evs[1..], ch.Column(evs[0]) + 1);
      }
    }
  }

  lemma {:induction false} PaintCell(ch: Chart, evs: seq<nat>, pos: int, c: int)
    requires ch.Valid() && Stages(ch, evs) && ColumnsOrdered(ch, evs)
    requires 0 <= pos <= c < ch.width && ColumnsWithin(ch, evs, pos - 1) && Apart(ch, evs, pos)
    requires |Paint(ch, evs, pos)| == ch.width - pos
    ensures forall i :: 0 <= i < |evs| && !ch.Merged(evs[i]) && ch.Column(evs[i]) == c ==>
              Paint(ch, evs, pos)[c - pos] == SHORTHAND[evs[i]]
    ensures (forall i :: 0 <= i < |evs| && !ch.Merged(evs[i]) ==> ch.Column(evs[i]) != c) ==>
              Paint(ch, evs, pos)[c - pos] == ch.Dot()
    decreases |evs|
  {
    hide Chart.Column, Chart.Merged, Chart.Dot;
    if evs == [] {
    } else {
      ApartStep(ch, evs, pos);
      var rest := evs[1..];
      assert forall i :: 1 <= i < |evs| ==> evs[i] == rest[i - 1];
      assert forall i :: 0 <= i < |rest| ==> rest[i] == evs[i + 1];
      if ch.Merged(evs[0]) {
        PaintCell(ch, rest, pos, c);
      } else {
        var k := ch.Column(evs[0]);
        PaintWidth(ch, rest, k + 1);
        if c > k { PaintCell(ch, rest, k + 1, c); }
      }
    }
  }

  lemma ColumnsOfEvents(ch: Chart, i: nat)
    requires ch.Valid()
    ensures var evs := EventsOf(ch, i, |ch.ticks|); ColumnsOrdered(ch, evs) && ColumnsWithin(ch, evs, 0)
  {
    var evs := EventsOf(ch, i, |ch.ticks|);
    EventsOrdered(ch, i, |ch.ticks|);
    forall a, b | 0 <= a < b < |evs| ensures ch.Column(evs[a]) <= ch.Column(evs[b]) {
      assert Before(ch, evs[a], evs[b]);
      QuotientMono(ch.ticks[evs[a]] % ch.TimeWidth(), ch.ticks[evs[b]] % ch.TimeWidth(), ch.cycle);
    }
    forall a | 0 <= a < |evs| ensures 0 <= ch.Column(evs[a]) < ch.width {
      ColumnInRange(ch, evs[a]);
    }
  }

  lemma QuotientMono(x: nat, y: nat, m: nat)
    requires m > 0 && x <= y
    ensures x / m <= y / m
  {
    if x / m > y / m {
      MulMono(y / m + 1, x / m, m);
    }
  }

  lemma ColumnInRange(ch: Chart, s: nat)
    requires ch.Valid() && s < |ch.ticks|
    ensures 0 <= ch.Column(s) < ch.width
  {
    var r := ch.ticks[s] % ch.TimeWidth();
    if r / ch.cycle >= ch.width {
      MulMono(ch.width, r / ch.cycle, ch.cycle);
    }
  }

  // ----- rows and windows -----

  function RowOf(ch: Chart, s: nat): int
    requires ch.Valid() && s < |ch.ticks|
  {
    if Compact(ch) then 0 else (ch.ticks[s] - ch.Base()) / ch.TimeWidth()
  }

  // A stage has a row when it was reached, no earlier than the row of the fetch.
  predicate Placed(ch: Chart, s: nat)
    requires ch.Valid() && s < |ch.ticks|
  {
    ch.ticks[s] != 0 && ch.Base() <= ch.ticks[s]
  }

  predicate Drawn(ch: Chart, s: nat)
    requires ch.Valid() && s < |ch.ticks|
  {
    Placed(ch, s) && !ch.Merged(s)
  }

  lemma BaseOfFetch(ch: Chart)
    requires ch.Valid()
    ensures ch.Base() <= ch.ticks[FETCH] < ch.Base() + ch.TimeWidth()
  {
    var f, w := ch.ticks[FETCH], ch.TimeWidth();
    assert f == w * (f / w) + f % w;
  }

  // One row exactly in the compact form.
  lemma OneLineIffCompact(ch: Chart)
    requires ch.Valid()
    ensures NumLines(ch) >= 1
    ensures NumLines(ch) == 1 <==> Compact(ch)
    // the last line is needed
    ensures NumLines(ch) > 1 ==> exists s: nat :: s < |ch.ticks| && RowOf(ch, s) == NumLines(ch) - 1
  {
    BaseOfFetch(ch);
    if !Compact(ch) {
      var x, w := Max(ch.ticks) - ch.Base(), ch.TimeWidth();
      assert x >= w;
      QuotientMono(w, x, w);
      DivModUnique(w, w, 1, 0);
      var s :| 0 <= s < |ch.ticks| && ch.ticks[s] == Max(ch.ticks);
      assert RowOf(ch, s) == NumLines(ch) - 1;
    }
  }

  lemma RowInRange(ch: Chart, s: nat)
    requires ch.Valid() && s < |ch.ticks| && Placed(ch, s)
    ensures 0 <= RowOf(ch, s) < NumLines(ch)
  {
    if !Compact(ch) {
      QuotientMono(ch.ticks[s] - ch.Base(), Max(ch.ticks) - ch.Base(), ch.TimeWidth());
    }
  }

  // Each placed stage is an event of one row, its own; an unplaced one of none.
  lemma WindowIsRow(ch: Chart, i: nat, s: nat)
    requires ch.Valid() && s < |ch.ticks| && i < NumLines(ch)
    ensures InWindow(ch, i, s) <==> Placed(ch, s) && RowOf(ch, s) == i
  {
    OneLineIffCompact(ch);
    BaseOfFetch(ch);
    if !Compact(ch) {
      WindowIsQuotient(ch.ticks[s] - ch.Base(), ch.TimeWidth(), i);
      MulMono(0, i, ch.TimeWidth());
    }
  }

  // ----- the whole picture -----

  ghost predicate NoOverlap(ch: Chart)
    requires ch.Valid()
  {
    forall s: nat, t: nat :: s < t < |ch.ticks| && Drawn(ch, s) && Drawn(ch, t) && RowOf(ch, s) == RowOf(ch, t)
      ==> ch.Column(s) != ch.Column(t)
  }

  ghost predicate NoOverlapIn(ch: Chart, i: nat)
    requires ch.Valid()
  {
    forall s: nat, t: nat :: s < t < |ch.ticks| && Drawn(ch, s) && Drawn(ch, t) && RowOf(ch, s) == i == RowOf(ch, t)
      ==> ch.Column(s) != ch.Column(t)
  }

  lemma EventsAreRow(ch: Chart, i: nat)
    requires ch.Valid() && i < NumLines(ch)
    ensures forall s: nat :: s in EventsOf(ch, i, |ch.ticks|) <==>
              s < |ch.ticks| && Placed(ch, s) && RowOf(ch, s) == i
    ensures forall a, b :: 0 <= a < b < |EventsOf(ch, i, |ch.ticks|)| ==>
              EventsOf(ch, i, |ch.ticks|)[a] != EventsOf(ch, i, |ch.ticks|)[b]
  {
    hide Placed, RowOf, Before, InWindow, NumLines;
    var evs := EventsOf(ch, i, |ch.ticks|);
    forall s: nat | s < |ch.ticks| ensures s in evs <==> Placed(ch, s) && RowOf(ch, s) == i {
      WindowIsRow(ch, i, s);
    }
    EventsOrdered(ch, i, |ch.ticks|);
    forall a, b | 0 <= a < b < |evs| ensures evs[a] != evs[b] {
      assert Before(ch, evs[a], evs[b]);
      BeforeIsStrict(ch, evs[a]);
    }
  }

  lemma ApartIffNoOverlap(ch: Chart, i: nat)
    requires ch.Valid() && i < NumLines(ch)
    ensures Apart(ch, EventsOf(ch, i, |ch.ticks|), 0) <==> NoOverlapIn(ch, i)
  {
    hide Chart.Column, Chart.Merged, Placed, RowOf, NumLines, EventsOf;
    var evs := EventsOf(ch, i, |ch.ticks|);
    EventsAreRow(ch, i);
    ColumnsOfEvents(ch, i);
    if NoOverlapIn(ch, i) {
      forall a, b | 0 <= a < b < |evs| && !ch.Merged(evs[a]) && !ch.Merged(evs[b])
        ensures ch.Column(evs[a]) != ch.Column(evs[b])
      {
        assert evs[a] in evs && evs[b] in evs;
        assert evs[a] < evs[b] || evs[b] < evs[a];
      }
    }
    if Apart(ch, evs, 0) {
      forall s: nat, t: nat | s < t < |ch.ticks| && Drawn(ch, s) && Drawn(ch, t) && RowOf(ch, s) == i == RowOf(ch, t)
        ensures ch.Column(s) != ch.Column(t)
      {
        var a :| 0 <= a < |evs| && evs[a] == s;
        var b :| 0 <= b < |evs| && evs[b] == t;
        assert a < b || b < a;
      }
    }
  }

  lemma BeforeIsStrict(ch: Chart, s: nat)
    requires ch.Valid() && s < |ch.ticks|
    ensures !Before(ch, s, s)
  {
  }

  // A row is `width` characters long exactly when no two of its drawn stages fall
  // in one column; otherwise it is longer.
  lemma RowWidthIff(ch: Chart, i: nat)
    requires ch.Valid() && i < NumLines(ch)
    ensures |Row(ch, i)| >= ch.width
    ensures |Row(ch, i)| == ch.width <==> NoOverlapIn(ch, i)
  {
    hide NoOverlapIn, Apart, Paint;
    ColumnsOfEvents(ch, i);
    ApartIffNoOverlap(ch, i);
    PaintWidth(ch, EventsOf(ch, i, |ch.ticks|), 0);
  }

  // Then column c of row i holds the letter of the stage drawn there, or the dot.
  lemma RowCell(ch: Chart, i: nat, c: nat)
    requires ch.Valid() && i < NumLines(ch) && c < ch.width && NoOverlapIn(ch, i)
    ensures |Row(ch, i)| == ch.width
    ensures forall s: nat :: s < |ch.ticks| && Drawn(ch, s) && RowOf(ch, s) == i && ch.Column(s) == c ==>
              Row(ch, i)[c] == SHORTHAND[s]
    ensures (forall s: nat :: s < |ch.ticks| && Drawn(ch, s) && RowOf(ch, s) == i ==> ch.Column(s) != c) ==>
              Row(ch, i)[c] == if ch.ticks[RETIRE] == 0 then '=' else '.'
  {
    hide Chart.Column, Chart.Merged, Placed, RowOf, Before, InWindow, NumLines, Apart, NoOverlapIn, Paint;
    var evs := EventsOf(ch, i, |ch.ticks|);
    EventsAreRow(ch, i);
    RowWidthIff(ch, i);
    ColumnsOfEvents(ch, i);
    ApartIffNoOverlap(ch, i);
    PaintCell(ch, evs, 0, c);
    forall a | 0 <= a < |evs| ensures Placed(ch, evs[a]) && RowOf(ch, evs[a]) == i {
      assert evs[a] in evs;
    }
  }

  // The picture as a whole: every row has the right width exactly when no two
  // drawn stages share a cell, and then each drawn stage is found at its cell.
  lemma PictureIsExactIff(ch: Chart)
    requires ch.Valid()
    ensures (forall i: nat :: i < NumLines(ch) ==> |Row(ch, i)| == ch.width) <==> NoOverlap(ch)
    // a stage that was reached is drawn, but for a dispatch together with the issue
    ensures NoOverlap(ch) ==> forall s: nat ::
              s < |ch.ticks| && Placed(ch, s) && (s == DISPATCH ==> ch.ticks[DISPATCH] != ch.ticks[ISSUE]) ==>
              && 0 <= RowOf(ch, s) < NumLines(ch)
              && 0 <= ch.Column(s) < |Row(ch, RowOf(ch, s))| == ch.width
              && Row(ch, RowOf(ch, s))[ch.Column(s)] == SHORTHAND[s]
  {
    assert forall s: nat :: s < |ch.ticks| ==>
      (Drawn(ch, s) <==> Placed(ch, s) && (s == DISPATCH ==> ch.ticks[DISPATCH] != ch.ticks[ISSUE]));
    hide Chart.Column, Chart.Merged, Placed, RowOf, NumLines, Row;
    forall i: nat | i < NumLines(ch) ensures |Row(ch, i)| == ch.width <==> NoOverlapIn(ch, i) {
      RowWidthIff(ch, i);
    }
    forall s: nat | s < |ch.ticks| && Placed(ch, s) ensures 0 <= RowOf(ch, s) < NumLines(ch) {
      RowInRange(ch, s);
    }
    if forall i: nat :: i < NumLines(ch) ==> |Row(ch, i)| == ch.width {
      forall s: nat, t: nat |
        s < t < |ch.ticks| && Drawn(ch, s) && Drawn(ch, t) && RowOf(ch, s) == RowOf(ch, t)
        ensures ch.Column(s) != ch.Column(t)
      {
        var i: nat := RowOf(ch, s);
        assert NoOverlapIn(ch, i);
      }
    }
    if NoOverlap(ch) {
      forall s: nat | s < |ch.ticks| && Drawn(ch, s)
        ensures 0 <= ch.Column(s) < |Row(ch, RowOf(ch, s))| == ch.width
        ensures Row(ch, RowOf(ch, s))[ch.Column(s)] == SHORTHAND[s]
      {
        ColumnInRange(ch, s);
        RowCell(ch, RowOf(ch, s), ch.Column(s));
      }
    }
  }

  // ----- reading the picture back -----

  // The tick a cell stands for: the compact form wraps to the front of the row.
  function CellTick(ch: Chart, i: int, c: int): int
    requires ch.Valid()
  {
    var t := ch.Base() + ch.TimeWidth() * i + c * ch.cycle;
    if Compact(ch) && t < ch.ticks[FETCH] then t + ch.TimeWidth() else t
  }

  lemma CellGivesTick(ch: Chart, s: nat)
    requires ch.Valid() && s < |ch.ticks| && ch.ticks[s] % ch.cycle == 0 && ch.ticks[FETCH] <= ch.ticks[s]
    ensures ch.ticks[s] == CellTick(ch, RowOf(ch, s), ch.Column(s))
  {
    var t, w, b := ch.ticks[s], ch.TimeWidth(), ch.Base();
    BaseOfFetch(ch);
    ColumnTick(ch, s);
    var k := (t - b) / w;
    assert t - b == w * k + (t - b) % w;
    ModShift(t - b, w, ch.ticks[FETCH] / w);
    assert (t - b) % w == t % w;
    if Compact(ch) {
      assert t - b < 2 * w;
      WindowIsQuotient(t - b, w, 0);
      WindowIsQuotient(t - b, w, 1);
    }
  }

  lemma ColumnTick(ch: Chart, s: nat)
    requires ch.Valid() && s < |ch.ticks| && ch.ticks[s] % ch.cycle == 0
    ensures ch.ticks[s] % ch.TimeWidth() == ch.Column(s) * ch.cycle
  {
    var t, w, k := ch.ticks[s], ch.TimeWidth(), ch.cycle;
    var q := t / w;
    assert t == w * q + t % w;
    assert w * q == k * (ch.width * q);
    assert t == k * (t / k);
    var n := t / k - ch.width * q;
    assert t % w == k * n by { assert k * n == k * (t / k) - k * (ch.width * q); }
    DivModUnique(t % w, k, n, 0);
  }

  // Stage ticks as a real pipeline produces them: whole cycles, none before the
  // fetch, no two stages in one cycle except dispatch together with issue.
  ghost predicate Regular(ch: Chart)
    requires ch.Valid()
  {
    && (forall s :: 0 <= s < |ch.ticks| ==> ch.ticks[s] % ch.cycle == 0)
    && (forall s :: 0 <= s < |ch.ticks| && ch.ticks[s] != 0 ==> ch.ticks[FETCH] <= ch.ticks[s])
    && (forall s, t :: 0 <= s < t < |ch.ticks| && ch.ticks[s] == ch.ticks[t] != 0 ==> s == DISPATCH && t == ISSUE)
  }

  lemma RegularHasNoOverlap(ch: Chart)
    requires ch.Valid() && Regular(ch)
    ensures NoOverlap(ch)
  {
    hide Chart.Column, RowOf, Chart.Base, CellTick;
    forall s: nat, t: nat | s < t < |ch.ticks| && Drawn(ch, s) && Drawn(ch, t) && RowOf(ch, s) == RowOf(ch, t)
      ensures ch.Column(s) != ch.Column(t)
    {
      CellGivesTick(ch, s);
      CellGivesTick(ch, t);
    }
  }

  // ----- the program -----

  datatype Outcome = Rows(rows: seq<string>) | IndexError

  // The compact form looks at the first event of its only row, so it fails when
  // there is none.
  ghost predicate HasEvent(ch: Chart)
    requires ch.Valid()
  {
    exists s: nat :: s < |ch.ticks| && Placed(ch, s)
  }

  method PaintRow(ch: Chart, evs: seq<nat>) returns (row: string)
    requires ch.Valid() && Stages(ch, evs)
    ensures row == Paint(ch, evs, 0)
  {
    hide Repeat, Chart.Column, Chart.Merged, Chart.Dot;
    row := "";
    var pos := 0;
    for k := 0 to |evs|
      invariant row + Paint(ch, evs[k..], pos) == Paint(ch, evs, 0)
    {
      assert evs[k..][1..] == evs[k + 1..];
      if !ch.Merged(evs[k]) {
        var c := ch.Column(evs[k]);
        ghost var rest := Paint(ch, evs[k + 1..], c + 1);
        var piece := Repeat(ch.Dot(), c - pos) + [SHORTHAND[evs[k]]];
        assert row + Paint(ch, evs[k..], pos) == row + piece + rest;
        row := row + piece;
        pos := c + 1;
      }
    }
    row := row + Repeat(ch.Dot(), ch.width - pos);
  }

  method PrintInst(ch: Chart) returns (r: Outcome)
    requires ch.Valid()
    ensures r.IndexError? <==> Compact(ch) && !HasEvent(ch)
    ensures r.Rows? ==> |r.rows| == NumLines(ch) && forall i :: 0 <= i < |r.rows| ==> r.rows[i] == Row(ch, i)
  {
    hide Compact, InWindow, Before, Placed, HasEvent, Paint;
    OneLineIffCompact(ch);
    var rows := [];
    var n := NumLines(ch);
    for i := 0 to n
      invariant |rows| == i && forall k :: 0 <= k < i ==> rows[k] == Row(ch, k)
      invariant i > 0 && Compact(ch) ==> HasEvent(ch)
    {
      var evs := [];
      for s := 0 to |ch.ticks|
        invariant evs == EventsOf(ch, i, s)
      {
        if InWindow(ch, i, s) {
          evs := InsertEvent(ch, s, evs);
        }
      }
      FirstEvent(ch, i);
      if n == 1 && evs == [] {
        return IndexError;
      }
      var row := PaintRow(ch, evs);
      rows := rows + [row];
    }
    r := Rows(rows);
  }

  lemma FirstEvent(ch: Chart, i: nat)
    requires ch.Valid() && i < NumLines(ch)
    ensures Compact(ch) ==> (EventsOf(ch, i, |ch.ticks|) != [] <==> HasEvent(ch))
  {
    OneLineIffCompact(ch);
    EventsAreRow(ch, i);
    var evs := EventsOf(ch, i, |ch.ticks|);
    if evs != [] { assert evs[0] in evs; }
  }
}
