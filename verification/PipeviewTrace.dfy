/** The trace loop of the O3 pipeline viewer: skipping to the region of interest,
    assembling instructions from trace lines, queueing them, stopping early, and
    filtering what is printed.  Lines come already split into typed fields. */
module PipeviewTrace {
  import opened PipeviewOrder

  datatype Line =
    | Other
    | Fetch(tick: int, pc: string, upc: string, sn: int, disasm: string)
    | Mark(stage: string, tick: int)
    | Retire(tick: int, store: string, storeTick: int)

  // Command-line ranges (0 or -1 switches a bound off) and the queue thresholds.
  datatype Config = Config(startTick: nat, stopTick: int, startSn: nat, stopSn: int, drift: nat,
                           onlyCommitted: bool, storeCompletions: bool, min: nat, max: nat)

  // ----- the print filter -----

  predicate Keep(cfg: Config, i: Inst) {
    && !(cfg.startSn > 0 && i.sn < cfg.startSn)
    && !(cfg.stopSn > 0 && i.sn > cfg.stopSn)
    && !(cfg.startTick > 0 && i.fetch < cfg.startTick)
    && !(cfg.stopTick > 0 && i.fetch > cfg.stopTick)
    && !(cfg.onlyCommitted && i.retire == 0)
  }

  function Filter(cfg: Config, s: seq<Inst>): seq<Inst> {
    if s == [] then []
    else if Keep(cfg, s[0]) then [s[0]] + Filter(cfg, s[1..])
    else Filter(cfg, s[1..])
  }

  lemma {:induction false} FilterConcat(cfg: Config, a: seq<Inst>, b: seq<Inst>)
    ensures Filter(cfg, a + b) == Filter(cfg, a) + Filter(cfg, b)
  {
    if a == [] {
      assert a + b == b;
    } else {
      assert (a + b)[1..] == a[1..] + b;
      FilterConcat(cfg, a[1..], b);
    }
  }

  lemma {:induction false} FilterBounds(cfg: Config, s: seq<Inst>)
    ensures |Filter(cfg, s)| <= |s|
    ensures Filter(cfg, s) == [] <==> forall e :: e in s ==> !Keep(cfg, e)
  {
    if s == [] {
    } else {
      FilterBounds(cfg, s[1..]);
    }
  }

  lemma {:induction false} FilterInsert(cfg: Config, x: Inst, s: seq<Inst>)
    requires Sorted(s)
    ensures Filter(cfg, Insert(x, s)) ==
            if Keep(cfg, x) then Insert(x, Filter(cfg, s)) else Filter(cfg, s)
  {
    if s == [] {
      assert [x][1..] == [];
    } else if s[0].sn <= x.sn {
      FilterInsert(cfg, x, s[1..]);
      var t := Insert(x, s[1..]);
      assert ([s[0]] + t)[1..] == t;
      if Keep(cfg, s[0]) {
        var f := Filter(cfg, s[1..]);
        assert ([s[0]] + f)[1..] == f;
      }
    } else {
      assert ([x] + s)[1..] == s;
      InsertFront(cfg, x, s);
    }
  }

  lemma {:induction false} InsertFront(cfg: Config, x: Inst, s: seq<Inst>)
    requires forall e :: e in s ==> e.sn > x.sn
    ensures Insert(x, Filter(cfg, s)) == [x] + Filter(cfg, s)
  {
    if s != [] && !Keep(cfg, s[0]) { InsertFront(cfg, x, s[1..]); }
  }

  // Filtering the sorted list and sorting the filtered list are the same.
  lemma {:induction false} FilterSort(cfg: Config, s: seq<Inst>)
    ensures Filter(cfg, SortBySn(s)) == SortBySn(Filter(cfg, s))
  {
    if s == [] {
    } else {
      hide SortBySn;
      var p, x := s[..|s| - 1], s[|s| - 1];
      FilterSort(cfg, p);
      SortSorts(p);
      FilterInsert(cfg, x, SortBySn(p));
      SortSnoc(p, x);
      SortSnoc(Filter(cfg, p), x);
      FilterConcat(cfg, p, [x]);
      assert p + [x] == s && [x][1..] == [];
      assert Filter(cfg, p) + [] == Filter(cfg, p);
    }
  }

  // ----- assembling instructions -----

  const BLANK := Inst(0, 0, 0, map[], "", "", "")

  predicate Stops(cfg: Config, tick: int, sn: int) {
    || (cfg.stopTick > 0 && tick > cfg.stopTick + cfg.drift)
    || (cfg.stopSn > 0 && sn > cfg.stopSn + cfg.max)
  }

  function OnFetch(c: Inst, l: Line): Inst
    requires l.Fetch?
  {
    c.(fetch := l.tick, pc := l.pc, upc := l.upc, sn := l.sn, disasm := l.disasm)
  }

  function OnRetire(cfg: Config, c: Inst, l: Line): Inst
    requires l.Retire?
  {
    c.(retire := l.tick,
       disasm := if l.tick == 0 then "-----" + c.disasm else c.disasm,
       stages := if cfg.storeCompletions then c.stages[l.store := l.storeTick] else c.stages)
  }

  // The instructions handed to the queue, from the record `c` being filled in.
  function Arrivals(cfg: Config, lines: seq<Line>, c: Inst): seq<Inst> {
    if lines == [] then []
    else
      var l, rest := lines[0], lines[1..];
      match l
      case Other => Arrivals(cfg, rest, c)
      case Fetch(_, _, _, _, _) =>
        if Stops(cfg, l.tick, l.sn) then [] else Arrivals(cfg, rest, OnFetch(c, l))
      case Mark(_, _) => Arrivals(cfg, rest, c.(stages := c.stages[l.stage := l.tick]))
      case Retire(_, _, _) =>
        var done := OnRetire(cfg, c, l);
        [done] + Arrivals(cfg, rest, done)
  }

  predicate Reached(cfg: Config, l: Line) {
    if cfg.startTick != 0 then l != Other && l.tick >= cfg.startTick
    else if cfg.startSn != 0 then l.Fetch? && l.sn >= cfg.startSn
    else true
  }

  function DropUntilReached(cfg: Config, lines: seq<Line>): seq<Line> {
    if lines == [] || Reached(cfg, lines[0]) then lines else DropUntilReached(cfg, lines[1..])
  }

  function DropUntilFetch(lines: seq<Line>): seq<Line> {
    if lines == [] || lines[0].Fetch? then lines else DropUntilFetch(lines[1..])
  }

  function Region(cfg: Config, lines: seq<Line>): seq<Line> {
    DropUntilFetch(DropUntilReached(cfg, lines))
  }

  // Everything the viewer prints for a trace.
  function Printed(cfg: Config, lines: seq<Line>): seq<Inst> {
    Filter(cfg, Stream(Arrivals(cfg, Region(cfg, lines), BLANK), cfg.min, cfg.max))
  }

  // ----- the program -----

  class Viewer {
    const cfg: Config
    var queue: seq<Inst>
    var printed: seq<Inst>

    constructor (cfg: Config)
      ensures this.cfg == cfg && queue == [] && printed == []
    {
      this.cfg := cfg;
      queue, printed := [], [];
    }

    method PrintInsts(lower: nat)
      modifies this
      ensures var r := Drain(Queue(old(queue), []), lower);
        queue == r.queue && printed == old(printed) + Filter(cfg, r.drained)
    {
      queue := SortBySn(queue);
      ghost var s := queue;
      ghost var k := 0;
      while |queue| > lower
        invariant 0 <= k <= Monus(|s|, lower)
        invariant queue == s[k..]
        invariant printed == old(printed) + Filter(cfg, s[..k])
      {
        var item := queue[0];
        queue := queue[1..];
        FilterConcat(cfg, s[..k], [item]);
        assert s[..k] + [item] == s[..k + 1] && [item][1..] == [];
        assert Filter(cfg, s[..k]) + [] == Filter(cfg, s[..k]);
        if Keep(cfg, item) {
          printed := printed + [item];
        }
        k := k + 1;
      }
      assert k == Monus(|s|, lower);
      assert [] + s[..k] == s[..k];
    }

    method QueueInst(inst: Inst)
      modifies this
      ensures var r := Push(Queue(old(queue), []), inst, cfg.min, cfg.max);
        queue == r.queue && printed == old(printed) + Filter(cfg, r.drained)
    {
      queue := queue + [inst];
      if |queue| > cfg.max {
        PrintInsts(cfg.min);
      } else {
        assert printed + [] == printed;
      }
    }

    method ProcessTrace(lines: seq<Line>)
      requires queue == [] && printed == []
      modifies this
      ensures printed == Printed(cfg, lines)
    {
      var i := 0;
      while i < |lines| && !Reached(cfg, lines[i])
        invariant 0 <= i <= |lines|
        invariant DropUntilReached(cfg, lines) == DropUntilReached(cfg, lines[i..])
      {
        i := i + 1;
      }
      assert DropUntilReached(cfg, lines) == lines[i..];
      while i < |lines| && !lines[i].Fetch?
        invariant 0 <= i <= |lines|
        invariant Region(cfg, lines) == DropUntilFetch(lines[i..])
      {
        i := i + 1;
      }
      assert Region(cfg, lines) == lines[i..];
      RegionOfInterest(lines, i);
    }

    method RegionOfInterest(lines: seq<Line>, start: nat)
      requires queue == [] && printed == [] && start <= |lines|
      modifies this
      ensures printed == Filter(cfg, Stream(Arrivals(cfg, lines[start..], BLANK), cfg.min, cfg.max))
    {
      hide SortBySn, Push, Drain, Filter, Arrivals, Stops, OnFetch, OnRetire;
      ArrivalsEmpty(cfg);
      var i, c, stopped := start, BLANK, false;
      ghost var fed, q := [], Queue([], []);
      ghost var all := Arrivals(cfg, lines[start..], BLANK);
      FilterBounds(cfg, []);
      while i < |lines| && !stopped
        invariant start <= i <= |lines|
        invariant all == fed + (if stopped then [] else Arrivals(cfg, lines[i..], c))
        invariant q == Feed(Queue([], []), fed, cfg.min, cfg.max)
        invariant queue == q.queue && printed == Filter(cfg, q.drained)
        decreases |lines| - i, if stopped then 0 else 1
      {
        var l := lines[i];
        ArrivalsAt(cfg, lines, i, c);
        match l
        case Other => i := i + 1;
        case Fetch(_, _, _, _, _) =>
          if Stops(cfg, l.tick, l.sn) {
            stopped := true;
          } else {
            c := OnFetch(c, l);
            i := i + 1;
          }
        case Mark(_, _) =>
          c := c.(stages := c.stages[l.stage := l.tick]);
          i := i + 1;
        case Retire(_, _, _) =>
          c := OnRetire(cfg, c, l);
          QueueInst(c);
          FeedOne(cfg, q, fed, c);
          fed, q := fed + [c], Push(q, c, cfg.min, cfg.max);
          i := i + 1;
      }
      assert lines[|lines|..] == [] && all == fed;
      PrintInsts(0);
      FlushPrints(cfg, q);
    }
  }

  lemma ArrivalsEmpty(cfg: Config)
    ensures forall c :: Arrivals(cfg, [], c) == []
  {
  }

  lemma ArrivalsAt(cfg: Config, lines: seq<Line>, i: nat, c: Inst)
    requires i < |lines|
    ensures var l, rest := lines[i], lines[i + 1..];
      Arrivals(cfg, lines[i..], c) ==
      match l
      case Other => Arrivals(cfg, rest, c)
      case Fetch(_, _, _, _, _) =>
        (if Stops(cfg, l.tick, l.sn) then [] else Arrivals(cfg, rest, OnFetch(c, l)))
      case Mark(_, _) => Arrivals(cfg, rest, c.(stages := c.stages[l.stage := l.tick]))
      case Retire(_, _, _) => [OnRetire(cfg, c, l)] + Arrivals(cfg, rest, OnRetire(cfg, c, l))
  {
    assert lines[i..][1..] == lines[i + 1..];
  }

  lemma FlushPrints(cfg: Config, q: Queue)
    ensures Filter(cfg, q.drained) + Filter(cfg, Drain(Queue(q.queue, []), 0).drained) ==
            Filter(cfg, Drain(q, 0).drained)
  {
    FlushAll(q);
    FlushAll(Queue(q.queue, []));
    FilterConcat(cfg, q.drained, SortBySn(q.queue));
    assert [] + SortBySn(q.queue) == SortBySn(q.queue);
  }

  lemma FeedOne(cfg: Config, q: Queue, fed: seq<Inst>, x: Inst)
    requires q == Feed(Queue([], []), fed, cfg.min, cfg.max)
    ensures Push(q, x, cfg.min, cfg.max) == Feed(Queue([], []), fed + [x], cfg.min, cfg.max)
    ensures Push(q, x, cfg.min, cfg.max).queue == Push(Queue(q.queue, []), x, cfg.min, cfg.max).queue
    ensures Filter(cfg, Push(q, x, cfg.min, cfg.max).drained) ==
            Filter(cfg, q.drained) + Filter(cfg, Push(Queue(q.queue, []), x, cfg.min, cfg.max).drained)
  {
    hide SortBySn;
    FeedSplit(Queue([], []), fed, [x], cfg.min, cfg.max);
    assert [x][1..] == [];
    var e := Push(Queue(q.queue, []), x, cfg.min, cfg.max).drained;
    assert Push(q, x, cfg.min, cfg.max).drained == q.drained + e;
    FilterConcat(cfg, q.drained, e);
  }

  // ----- whole traces -----

  // What the simulator writes per instruction: a fetch line, a line per further
  // stage, a retire line.
  datatype Block = Block(fetch: int, pc: string, upc: string, sn: int, disasm: string,
                         marks: seq<(string, int)>, retire: int, store: string, storeTick: int)

  function MarkLines(ms: seq<(string, int)>): seq<Line> {
    if ms == [] then [] else [Mark(ms[0].0, ms[0].1)] + MarkLines(ms[1..])
  }

  function Body(b: Block): seq<Line> {
    MarkLines(b.marks) + [Retire(b.retire, b.store, b.storeTick)]
  }

  function Lines(bs: seq<Block>): seq<Line> {
    if bs == [] then []
    else
      var b := bs[0];
      [Fetch(b.fetch, b.pc, b.upc, b.sn, b.disasm)] + (Body(b) + Lines(bs[1..]))
  }

  function Quiet(lines: seq<Line>): seq<Line> {
    if lines == [] then []
    else if lines[0] == Other then Quiet(lines[1..])
    else [lines[0]] + Quiet(lines[1..])
  }

  function Apply(stages: map<string, int>, ms: seq<(string, int)>): map<string, int>
    decreases |ms|
  {
    if ms == [] then stages else Apply(stages[ms[0].0 := ms[0].1], ms[1..])
  }

  function StagesOf(cfg: Config, b: Block, before: map<string, int>): map<string, int> {
    var s := Apply(before, b.marks);
    if cfg.storeCompletions then s[b.store := b.storeTick] else s
  }

  function InstOf(cfg: Config, b: Block): Inst {
    Inst(b.sn, b.fetch, b.retire, StagesOf(cfg, b, map[]), b.pc, b.upc,
         if b.retire == 0 then "-----" + b.disasm else b.disasm)
  }

  function Insts(cfg: Config, bs: seq<Block>): (r: seq<Inst>)
    ensures |r| == |bs|
    ensures forall i :: 0 <= i < |bs| ==> r[i] == InstOf(cfg, bs[i])
  {
    if bs == [] then [] else [InstOf(cfg, bs[0])] + Insts(cfg, bs[1..])
  }

  // Every instruction reports the same stages, so a record never shows a tick
  // left over from the previous instruction.
  ghost predicate Uniform(cfg: Config, bs: seq<Block>, names: set<string>) {
    forall b :: b in bs ==> StagesOf(cfg, b, map[]).Keys == names
  }

  // Index of the first instruction in the region of interest.
  function First(cfg: Config, bs: seq<Block>): (k: nat)
    ensures k <= |bs|
  {
    if bs == [] || Reached(cfg, Fetch(bs[0].fetch, "", "", bs[0].sn, "")) then 0
    else if exists l :: l in Body(bs[0]) && Reached(cfg, l) then 1
    else 1 + First(cfg, bs[1..])
  }

  // Number of instructions before the first one whose fetch ends the run.
  function Taken(cfg: Config, bs: seq<Block>): (m: nat)
    ensures m <= |bs|
    ensures forall i :: 0 <= i < m ==> !Stops(cfg, bs[i].fetch, bs[i].sn)
    ensures m < |bs| ==> Stops(cfg, bs[m].fetch, bs[m].sn)
  {
    if bs == [] || Stops(cfg, bs[0].fetch, bs[0].sn) then 0 else 1 + Taken(cfg, bs[1..])
  }

  // Index just past the region of interest.
  function End(cfg: Config, bs: seq<Block>): (e: nat)
    ensures First(cfg, bs) <= e <= |bs|
    ensures e < |bs| ==> Stops(cfg, bs[e].fetch, bs[e].sn)
  {
    First(cfg, bs) + Taken(cfg, bs[First(cfg, bs)..])
  }

  // A line of another kind makes no difference anywhere, and no other line is lost.
  lemma {:induction false} QuietDrops(a: seq<Line>, l: Line, b: seq<Line>)
    ensures Quiet(a + [l] + b) == Quiet(a) + (if l == Other then [] else [l]) + Quiet(b)
  {
    if a == [] {
      assert (a + [l] + b)[0] == l && (a + [l] + b)[1..] == b;
    } else {
      assert (a + [l] + b)[0] == a[0] && (a + [l] + b)[1..] == a[1..] + [l] + b;
      QuietDrops(a[1..], l, b);
    }
  }

  lemma {:induction false} QuietArrivals(cfg: Config, lines: seq<Line>, c: Inst)
    ensures Arrivals(cfg, lines, c) == Arrivals(cfg, Quiet(lines), c)
  {
    if lines == [] {
    } else {
      var l, rest := lines[0], lines[1..];
      assert ([l] + Quiet(rest))[1..] == Quiet(rest);
      match l
      case Other => QuietArrivals(cfg, rest, c);
      case Fetch(_, _, _, _, _) => QuietArrivals(cfg, rest, OnFetch(c, l));
      case Mark(_, _) => QuietArrivals(cfg, rest, c.(stages := c.stages[l.stage := l.tick]));
      case Retire(_, _, _) => QuietArrivals(cfg, rest, OnRetire(cfg, c, l));
    }
  }

  lemma {:induction false} QuietFetch(lines: seq<Line>)
    ensures Quiet(DropUntilFetch(lines)) == DropUntilFetch(Quiet(lines))
  {
    if lines != [] && !lines[0].Fetch? {
      QuietFetch(lines[1..]);
      var q := Quiet(lines[1..]);
      assert ([lines[0]] + q)[1..] == q;
    }
  }

  lemma {:induction false} QuietRegion(cfg: Config, lines: seq<Line>)
    ensures Quiet(Region(cfg, lines)) == Region(cfg, Quiet(lines))
  {
    if lines == [] {
    } else if Reached(cfg, lines[0]) {
      QuietFetch(lines);
      if lines[0] == Other {
        assert forall l :: Reached(cfg, l);
      }
    } else {
      QuietRegion(cfg, lines[1..]);
      var q := Quiet(lines[1..]);
      assert ([lines[0]] + q)[1..] == q;
    }
  }

  lemma {:induction false} BodySkips(cfg: Config, ns: seq<Line>, rest: seq<Line>)
    requires forall l :: l in ns ==> !l.Fetch?
    ensures DropUntilFetch(ns + rest) == DropUntilFetch(rest)
    ensures Region(cfg, ns + rest) ==
            if exists l :: l in ns && Reached(cfg, l) then DropUntilFetch(rest) else Region(cfg, rest)
  {
    if ns == [] {
      assert ns + rest == rest;
    } else {
      assert (ns + rest)[1..] == ns[1..] + rest;
      BodySkips(cfg, ns[1..], rest);
      assert forall l :: l in ns <==> l == ns[0] || l in ns[1..];
    }
  }

  lemma {:induction false} MarkLinesAreMarks(ms: seq<(string, int)>)
    ensures forall l :: l in MarkLines(ms) ==> l.Mark?
  {
    if ms == [] {
    } else {
      MarkLinesAreMarks(ms[1..]);
    }
  }

  // Skipping lines is skipping whole instructions, and none of them is printable.
  lemma {:induction false} RegionIsSuffix(cfg: Config, bs: seq<Block>)
    ensures Region(cfg, Lines(bs)) == Lines(bs[First(cfg, bs)..])
    ensures forall i :: 0 <= i < First(cfg, bs) ==> !Keep(cfg, InstOf(cfg, bs[i]))
  {
    if bs == [] {
    } else {
      var b, tail := bs[0], Body(bs[0]) + Lines(bs[1..]);
      var f := Fetch(b.fetch, b.pc, b.upc, b.sn, b.disasm);
      assert Lines(bs)[0] == f && Lines(bs)[1..] == tail;
      assert Reached(cfg, f) == Reached(cfg, Fetch(b.fetch, "", "", b.sn, ""));
      if Reached(cfg, f) {
        assert bs[0..] == bs;
      } else {
        MarkLinesAreMarks(b.marks);
        BodySkips(cfg, Body(b), Lines(bs[1..]));
        assert !Keep(cfg, InstOf(cfg, b));
        RegionIsSuffix(cfg, bs[1..]);
        assert bs[1..][First(cfg, bs[1..])..] == bs[1 + First(cfg, bs[1..])..];
      }
    }
  }

  lemma {:induction false} ApplyOverrides(before: map<string, int>, ms: seq<(string, int)>)
    ensures Apply(before, ms) == before + Apply(map[], ms)
    decreases |ms|
  {
    if ms == [] {
    } else {
      var k, v := ms[0].0, ms[0].1;
      ApplyOverrides(before[k := v], ms[1..]);
      ApplyOverrides(map[k := v], ms[1..]);
    }
  }

  lemma NoLeftovers(cfg: Config, b: Block, before: map<string, int>)
    requires before.Keys <= StagesOf(cfg, b, map[]).Keys
    ensures StagesOf(cfg, b, before) == StagesOf(cfg, b, map[])
  {
    ApplyOverrides(before, b.marks);
  }

  lemma {:induction false} MarksArrive(cfg: Config, ms: seq<(string, int)>, rest: seq<Line>, c: Inst)
    ensures Arrivals(cfg, MarkLines(ms) + rest, c) == Arrivals(cfg, rest, c.(stages := Apply(c.stages, ms)))
    decreases |ms|
  {
    if ms == [] {
      assert MarkLines(ms) + rest == rest;
    } else {
      assert (MarkLines(ms) + rest)[1..] == MarkLines(ms[1..]) + rest;
      MarksArrive(cfg, ms[1..], rest, c.(stages := c.stages[ms[0].0 := ms[0].1]));
    }
  }

  lemma BlockArrives(cfg: Config, bs: seq<Block>, c: Inst)
    requires bs != [] && !Stops(cfg, bs[0].fetch, bs[0].sn)
    requires c.stages.Keys <= StagesOf(cfg, bs[0], map[]).Keys
    ensures var x := InstOf(cfg, bs[0]);
      Arrivals(cfg, Lines(bs), c) == [x] + Arrivals(cfg, Lines(bs[1..]), x)
  {
    var b := bs[0];
    var r := Retire(b.retire, b.store, b.storeTick);
    var f := Fetch(b.fetch, b.pc, b.upc, b.sn, b.disasm);
    var tail := [r] + Lines(bs[1..]);
    var c1 := OnFetch(c, f);
    var c2 := c1.(stages := Apply(c1.stages, b.marks));
    hide Arrivals, Apply, MarkLines;
    assert Lines(bs) == [f] + (MarkLines(b.marks) + tail);
    NoLeftovers(cfg, b, c.stages);
    assert OnRetire(cfg, c2, r) == InstOf(cfg, b);
    hide *;
    FetchArrives(cfg, f, MarkLines(b.marks) + tail, c);
    MarksArrive(cfg, b.marks, tail, c1);
    RetireArrives(cfg, r, Lines(bs[1..]), c2);
  }

  lemma FetchArrives(cfg: Config, f: Line, rest: seq<Line>, c: Inst)
    requires f.Fetch? && !Stops(cfg, f.tick, f.sn)
    ensures Arrivals(cfg, [f] + rest, c) == Arrivals(cfg, rest, OnFetch(c, f))
  {
    assert ([f] + rest)[1..] == rest;
  }

  lemma RetireArrives(cfg: Config, r: Line, rest: seq<Line>, c: Inst)
    requires r.Retire?
    ensures Arrivals(cfg, [r] + rest, c) == [OnRetire(cfg, c, r)] + Arrivals(cfg, rest, OnRetire(cfg, c, r))
  {
    assert ([r] + rest)[1..] == rest;
  }

  // The queue receives exactly the instructions before the one that ends the run.
  lemma {:induction false} BlocksArrive(cfg: Config, bs: seq<Block>, c: Inst, names: set<string>)
    requires Uniform(cfg, bs, names) && c.stages.Keys <= names
    ensures Arrivals(cfg, Lines(bs), c) == Insts(cfg, bs[..Taken(cfg, bs)])
    decreases |bs|
  {
    if bs != [] && !Stops(cfg, bs[0].fetch, bs[0].sn) {
      hide Arrivals, InstOf;
      var x := InstOf(cfg, bs[0]);
      BlockArrives(cfg, bs, c);
      assert x.stages == StagesOf(cfg, bs[0], map[]) by { InstStages(cfg, bs[0]); }
      BlocksArrive(cfg, bs[1..], x, names);
      var m := Taken(cfg, bs[1..]);
      assert bs[..m + 1][1..] == bs[1..][..m];
    }
  }

  lemma InstStages(cfg: Config, b: Block)
    ensures InstOf(cfg, b).stages == StagesOf(cfg, b, map[])
  {
  }

  lemma InstsSlice(cfg: Config, bs: seq<Block>, i: nat, j: nat)
    requires i <= j <= |bs|
    ensures Insts(cfg, bs[i..j]) == Insts(cfg, bs)[i..j]
  {
  }

  // A slice of a list is displaced no more than the list.
  lemma DisplacedSlice(a: seq<Inst>, i: nat, j: nat, min: nat)
    requires i <= j <= |a| && DisplacedAtMost(a, min)
    ensures DisplacedAtMost(a[i..j], min)
  {
    forall k | 0 <= k < j - i ensures CountLarger(a[i..j][..k], a[i..j][k].sn) <= min {
      assert a[..i + k] == a[..i] + a[i..j][..k];
      CountConcat(a[..i], a[i..j][..k], a[i + k].sn);
      assert CountLarger(a[..i + k], a[i + k].sn) <= min;
    }
  }

  // Stopping at the first fetch past the end of the range loses nothing printable.
  ghost predicate StopLosesNothing(cfg: Config, bs: seq<Block>) {
    forall j :: End(cfg, bs) <= j < |bs| ==> !Keep(cfg, InstOf(cfg, bs[j]))
  }

  // The documented assumption behind tick_drift, and its counterpart for sequence numbers.
  ghost predicate DriftBounded(cfg: Config, bs: seq<Block>) {
    forall i, j :: 0 <= i < j < |bs| ==>
      bs[i].fetch <= bs[j].fetch + cfg.drift && bs[i].sn <= bs[j].sn + cfg.max
  }

  lemma DriftBoundSuffices(cfg: Config, bs: seq<Block>)
    requires DriftBounded(cfg, bs)
    ensures StopLosesNothing(cfg, bs)
  {
  }

  // The instructions that enter the queue: those from the first one kept in view up
  // to the first fetch past the end of the range.
  function Queued(cfg: Config, bs: seq<Block>): seq<Inst> {
    Insts(cfg, bs)[First(cfg, bs)..End(cfg, bs)]
  }

  // What the options ask to see, bounds included.
  ghost predicate Wanted(cfg: Config, x: Inst) {
    && (cfg.startSn > 0 ==> cfg.startSn <= x.sn)
    && (cfg.stopSn > 0 ==> x.sn <= cfg.stopSn)
    && (cfg.startTick > 0 ==> cfg.startTick <= x.fetch)
    && (cfg.stopTick > 0 ==> x.fetch <= cfg.stopTick)
    && (cfg.onlyCommitted ==> x.retire != 0)
  }

  lemma {:induction false} FilterCounts(cfg: Config, s: seq<Inst>, x: Inst)
    ensures multiset(Filter(cfg, s))[x] == if Wanted(cfg, x) then multiset(s)[x] else 0
  {
    if s == [] {
    } else {
      FilterCounts(cfg, s[1..], x);
      assert s == [s[0]] + s[1..];
    }
  }

  // However the trace is ordered, each instruction that is queued and wanted is
  // printed as often as it occurs, and no other one is.
  lemma PrintedIff(cfg: Config, lines: seq<Line>, bs: seq<Block>, names: set<string>, x: Inst)
    requires cfg.min <= cfg.max
    requires Quiet(lines) == Lines(bs) && Uniform(cfg, bs, names)
    ensures multiset(Printed(cfg, lines))[x] == if Wanted(cfg, x) then multiset(Queued(cfg, bs))[x] else 0
  {
    QueuedArrive(cfg, lines, bs, names);
    hide Arrivals, Region, Queued, Stream, Filter, Wanted;
    StreamConserves(Queued(cfg, bs), 0, cfg.min, cfg.max);
    FilterCounts(cfg, Stream(Queued(cfg, bs), cfg.min, cfg.max), x);
  }

  lemma QueuedArrive(cfg: Config, lines: seq<Line>, bs: seq<Block>, names: set<string>)
    requires Quiet(lines) == Lines(bs) && Uniform(cfg, bs, names)
    ensures Arrivals(cfg, Region(cfg, lines), BLANK) == Queued(cfg, bs)
  {
    hide Region, Quiet, Lines, Arrivals, First, Taken;
    var k, e := First(cfg, bs), End(cfg, bs);
    QuietRegion(cfg, lines);
    QuietArrivals(cfg, Region(cfg, lines), BLANK);
    RegionIsSuffix(cfg, bs);
    BlocksArrive(cfg, bs[k..], BLANK, names);
    assert bs[k..][..e - k] == bs[k..e];
    InstsSlice(cfg, bs, k, e);
  }

  // A line of the instruction after its fetch reaches the tick.
  ghost predicate ReachesLater(b: Block, tick: int) {
    b.retire >= tick || exists i :: 0 <= i < |b.marks| && b.marks[i].1 >= tick
  }

  ghost predicate PastEnd(cfg: Config, b: Block) {
    || (cfg.stopTick > 0 && b.fetch > cfg.stopTick + cfg.drift)
    || (cfg.stopSn > 0 && b.sn > cfg.stopSn + cfg.max)
  }

  // Where reading starts: a start tick skips to the first fetch from it on or after
  // a line that reaches it, a start number alone to the first fetch with it or a
  // larger one.
  ghost predicate StartsAt(cfg: Config, bs: seq<Block>, k: nat)
    requires k <= |bs|
  {
    if cfg.startTick != 0 then
      && (forall i :: 0 <= i < k ==> bs[i].fetch < cfg.startTick)
      && (forall i :: 0 <= i < k - 1 ==> !ReachesLater(bs[i], cfg.startTick))
      && (k < |bs| && bs[k].fetch < cfg.startTick ==> k > 0 && ReachesLater(bs[k - 1], cfg.startTick))
    else if cfg.startSn != 0 then
      (forall i :: 0 <= i < k ==> bs[i].sn < cfg.startSn) && (k < |bs| ==> bs[k].sn >= cfg.startSn)
    else k == 0
  }

  // Reading ends at the first fetch past either end.
  ghost predicate EndsAt(cfg: Config, bs: seq<Block>, k: nat, e: nat)
    requires k <= e <= |bs|
  {
    (forall i :: k <= i < e ==> !PastEnd(cfg, bs[i])) && (e < |bs| ==> PastEnd(cfg, bs[e]))
  }

  // Which instructions are queued.
  lemma QueuedBounds(cfg: Config, bs: seq<Block>)
    ensures var k, e := First(cfg, bs), End(cfg, bs);
      StartsAt(cfg, bs, k) && EndsAt(cfg, bs, k, e) && Queued(cfg, bs) == Insts(cfg, bs)[k..e]
  {
    FirstBounds(cfg, bs);
    hide First, StartsAt;
    var k, e := First(cfg, bs), End(cfg, bs);
    forall i | k <= i < e ensures !PastEnd(cfg, bs[i]) {
      assert bs[k..][i - k] == bs[i];
    }
  }

  lemma {:induction false} FirstBounds(cfg: Config, bs: seq<Block>)
    ensures StartsAt(cfg, bs, First(cfg, bs))
  {
    if bs == [] {
    } else {
      FirstBounds(cfg, bs[1..]);
      BodyReaches(cfg, bs[0]);
    }
  }

  lemma BodyReaches(cfg: Config, b: Block)
    ensures cfg.startTick != 0 ==>
      ((exists l :: l in Body(b) && Reached(cfg, l)) <==> ReachesLater(b, cfg.startTick))
    ensures cfg.startTick == 0 && cfg.startSn != 0 ==> !exists l :: l in Body(b) && Reached(cfg, l)
  {
    MarkLinesAt(b.marks);
    var ls := MarkLines(b.marks);
    var last := Retire(b.retire, b.store, b.storeTick);
    assert Body(b) == ls + [last] && Body(b)[|ls|] == last;
    hide MarkLines;
    if cfg.startTick != 0 && ReachesLater(b, cfg.startTick) {
      if b.retire >= cfg.startTick {
        assert last in Body(b) && Reached(cfg, last);
      } else {
        var i :| 0 <= i < |b.marks| && b.marks[i].1 >= cfg.startTick;
        assert Body(b)[i] == ls[i];
        assert ls[i] in Body(b) && Reached(cfg, ls[i]);
      }
    }
    if l :| l in Body(b) && Reached(cfg, l) {
      var i :| 0 <= i < |Body(b)| && Body(b)[i] == l;
      assert i < |ls| ==> l == ls[i] == Mark(b.marks[i].0, b.marks[i].1);
    }
  }

  lemma {:induction false} MarkLinesAt(ms: seq<(string, int)>)
    ensures |MarkLines(ms)| == |ms|
    ensures forall i :: 0 <= i < |ms| ==> MarkLines(ms)[i] == Mark(ms[i].0, ms[i].1)
  {
    if ms == [] {
    } else {
      MarkLinesAt(ms[1..]);
    }
  }

  lemma PrintedIsRegion(cfg: Config, lines: seq<Line>, bs: seq<Block>, names: set<string>)
    requires cfg.min <= cfg.max
    requires Quiet(lines) == Lines(bs) && Uniform(cfg, bs, names)
    requires OrderedAtDrains(Queued(cfg, bs), cfg.min, cfg.max)
    ensures Printed(cfg, lines) == SortBySn(Filter(cfg, Queued(cfg, bs)))
  {
    hide Region, Quiet, SortBySn, Lines, Arrivals, Feed, Drain, Filter, OrderedAtDrains, Queued;
    var mid := Queued(cfg, bs);
    QueuedArrive(cfg, lines, bs, names);
    StreamSortsIffOrdered(mid, cfg.min, cfg.max);
    FilterSort(cfg, mid);
  }

  // The viewer prints the whole trace, sorted and filtered, exactly when stopping
  // early loses nothing; the start of the region never loses anything.
  lemma PrintsSortedTrace(cfg: Config, lines: seq<Line>, bs: seq<Block>, names: set<string>)
    requires cfg.min <= cfg.max
    requires Quiet(lines) == Lines(bs) && Uniform(cfg, bs, names)
    requires OrderedAtDrains(Queued(cfg, bs), cfg.min, cfg.max)
    ensures Printed(cfg, lines) == Filter(cfg, SortBySn(Insts(cfg, bs))) <==> StopLosesNothing(cfg, bs)
  {
    assert Queued(cfg, bs) == Insts(cfg, bs)[First(cfg, bs)..End(cfg, bs)];
    hide *;
    PrintedIsRegion(cfg, lines, bs, names);
    var all := Insts(cfg, bs);
    var k, e := First(cfg, bs), End(cfg, bs);
    RegionIsSuffix(cfg, bs);
    FilterSort(cfg, all);
    FilterThree(cfg, all, k, e);
    LossIsPrintable(cfg, bs);
    SortTail(Filter(cfg, all[k..e]), Filter(cfg, all[e..]));
  }

  // What the documented assumptions about displacement and drift amount to.
  lemma DocumentedAssumptionsPrintTrace(cfg: Config, lines: seq<Line>, bs: seq<Block>, names: set<string>)
    requires cfg.min <= cfg.max
    requires Quiet(lines) == Lines(bs) && Uniform(cfg, bs, names)
    requires DisplacedAtMost(Insts(cfg, bs), cfg.min) && DriftBounded(cfg, bs)
    ensures Printed(cfg, lines) == Filter(cfg, SortBySn(Insts(cfg, bs)))
  {
    assert Queued(cfg, bs) == Insts(cfg, bs)[First(cfg, bs)..End(cfg, bs)];
    hide *;
    DisplacedSlice(Insts(cfg, bs), First(cfg, bs), End(cfg, bs), cfg.min);
    DocumentedAssumptionSuffices(Queued(cfg, bs), cfg.min, cfg.max);
    DriftBoundSuffices(cfg, bs);
    PrintsSortedTrace(cfg, lines, bs, names);
  }

  lemma SortTail(m: seq<Inst>, r: seq<Inst>)
    ensures SortBySn(m + r) == SortBySn(m) <==> r == []
  {
    assert |SortBySn(m + r)| == |m| + |r| && |SortBySn(m)| == |m|;
    assert r == [] ==> m + r == m;
  }

  lemma LossIsPrintable(cfg: Config, bs: seq<Block>)
    ensures StopLosesNothing(cfg, bs) <==> Filter(cfg, Insts(cfg, bs)[End(cfg, bs)..]) == []
  {
    hide Keep, InstOf, First, Taken, Insts, Filter, End;
    var all, e := Insts(cfg, bs), End(cfg, bs);
    var lost := all[e..];
    FilterBounds(cfg, lost);
    forall j | e <= j < |bs| ensures InstOf(cfg, bs[j]) in lost {
      assert lost[j - e] == InstOf(cfg, bs[j]);
    }
    forall x | x in lost ensures exists j :: e <= j < |bs| && x == InstOf(cfg, bs[j]) {
      var i :| 0 <= i < |lost| && lost[i] == x;
      assert x == InstOf(cfg, bs[e + i]);
    }
  }

  lemma FilterThree(cfg: Config, all: seq<Inst>, k: nat, e: nat)
    requires k <= e <= |all|
    requires forall i :: 0 <= i < k ==> !Keep(cfg, all[i])
    ensures Filter(cfg, all) == Filter(cfg, all[k..e]) + Filter(cfg, all[e..])
  {
    assert all == all[..k] + (all[k..e] + all[e..]);
    FilterConcat(cfg, all[..k], all[k..e] + all[e..]);
    FilterConcat(cfg, all[k..e], all[e..]);
    FilterBounds(cfg, all[..k]);
  }
}
