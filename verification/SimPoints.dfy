/** Planning and taking SimPoint checkpoints. */
module SimPoints {
  import opened Options


  datatype Point = Point(interval: nat, weight: real, start: nat, warmup: nat)

  // One line of the analysis files: the interval and its weight.
  type Analysis = (nat, real)

  function PlanOne(a: Analysis, length: nat, warmup: nat): (p: Point)
    ensures p.start + p.warmup == a.0 * length && p.warmup <= warmup
    ensures p.warmup == warmup || p.start == 0
  {
    if a.0 * length - warmup > 0 then Point(a.0, a.1, a.0 * length - warmup, warmup)
    else Point(a.0, a.1, 0, a.0 * length)
  }

  function InsertPoint(p: Point, s: seq<Point>): seq<Point> {
    if s == [] then [p]
    else if s[0].start <= p.start then [s[0]] + InsertPoint(p, s[1..])
    else [p] + s
  }

  // simpoints.sort(key = starting instruction count)
  function SortPoints(s: seq<Point>): seq<Point> {
    if s == [] then [] else InsertPoint(s[|s| - 1], SortPoints(s[..|s| - 1]))
  }

  function PlanAll(lines: seq<Analysis>, length: nat, warmup: nat): seq<Point> {
    seq(|lines|, i requires 0 <= i < |lines| => PlanOne(lines[i], length, warmup))
  }

  function Plan(lines: seq<Analysis>, length: nat, warmup: nat): seq<Point> {
    SortPoints(PlanAll(lines, length, warmup))
  }

  ghost predicate Ascending(s: seq<Point>) {
    forall i, j :: 0 <= i < j < |s| ==> s[i].start <= s[j].start
  }

  lemma {:induction false} InsertPermutes(p: Point, s: seq<Point>)
    ensures multiset(InsertPoint(p, s)) == multiset(s) + multiset{p}
  {
    if s == [] {
    } else {
      assert s == [s[0]] + s[1..];
      if s[0].start <= p.start { InsertPermutes(p, s[1..]); }
    }
  }

  lemma {:induction false} InsertAscends(p: Point, s: seq<Point>)
    requires Ascending(s)
    ensures Ascending(InsertPoint(p, s))
  {
    if s != [] && s[0].start <= p.start {
      InsertAscends(p, s[1..]);
      InsertPermutes(p, s[1..]);
      var t := InsertPoint(p, s[1..]);
      forall i | 0 <= i < |t| ensures s[0].start <= t[i].start {
        assert t[i] in multiset(t);
        assert t[i] == p || t[i] in s[1..];
      }
    }
  }

  lemma {:induction false} SortPointFacts(s: seq<Point>)
    ensures Ascending(SortPoints(s)) && multiset(SortPoints(s)) == multiset(s)
  {
    if s == [] {
    } else {
      hide InsertPoint, Ascending;
      var q, p := s[..|s| - 1], s[|s| - 1];
      SortPointFacts(q);
      InsertPermutes(p, SortPoints(q));
      InsertAscends(p, SortPoints(q));
      assert s == q + [p];
    }
  }

  // The points with one start, in order.
  ghost function AtStart(s: seq<Point>, v: nat): seq<Point> {
    if s == [] then [] else (if s[0].start == v then [s[0]] else []) + AtStart(s[1..], v)
  }

  lemma AtStartCons(p: Point, s: seq<Point>, v: nat)
    ensures AtStart([p] + s, v) == (if p.start == v then [p] else []) + AtStart(s, v)
  {
    assert ([p] + s)[1..] == s;
  }

  lemma {:induction false} AtStartSnoc(s: seq<Point>, p: Point, v: nat)
    ensures AtStart(s + [p], v) == AtStart(s, v) + (if p.start == v then [p] else [])
  {
    if s == [] {
      assert s + [p] == [p] && [p][1..] == [];
    } else {
      assert (s + [p])[1..] == s[1..] + [p];
      AtStartSnoc(s[1..], p, v);
    }
  }

  lemma {:induction false} NoneAtStart(s: seq<Point>, v: nat)
    requires forall i :: 0 <= i < |s| ==> s[i].start != v
    ensures AtStart(s, v) == []
  {
    if s == [] {
    } else {
      NoneAtStart(s[1..], v);
    }
  }

  lemma {:induction false} InsertStable(p: Point, s: seq<Point>, v: nat)
    requires Ascending(s)
    ensures AtStart(InsertPoint(p, s), v) == AtStart(s, v) + (if p.start == v then [p] else [])
  {
    if s == [] {
      assert [p][1..] == [];
    } else if s[0].start <= p.start {
      var rest := InsertPoint(p, s[1..]);
      assert InsertPoint(p, s) == [s[0]] + rest;
      assert Ascending(s[1..]);
      hide InsertPoint, Ascending;
      InsertStable(p, s[1..], v);
      AtStartCons(s[0], rest, v);
      AtStartCons(s[0], s[1..], v);
      assert s == [s[0]] + s[1..];
    } else {
      AtStartCons(p, s, v);
      if p.start == v { NoneAtStart(s, v); }
    }
  }

  // Points with one start keep their order.
  lemma {:induction false} SortStable(s: seq<Point>, v: nat)
    ensures AtStart(SortPoints(s), v) == AtStart(s, v)
  {
    if s == [] {
    } else {
      var q, p := s[..|s| - 1], s[|s| - 1];
      SortStable(q, v);
      SortPointFacts(q);
      hide SortPoints, InsertPoint;
      InsertStable(p, SortPoints(q), v);
      AtStartSnoc(q, p, v);
      assert s == q + [p];
      assert SortPoints(s) == InsertPoint(p, SortPoints(q)) by { SortStep(s); }
    }
  }

  lemma SortStep(s: seq<Point>)
    requires s != []
    ensures SortPoints(s) == InsertPoint(s[|s| - 1], SortPoints(s[..|s| - 1]))
  {
  }

  // The plan holds one point per analysed interval, in ascending order of start,
  // and each point reaches its interval after its own warm-up.
  lemma PlanIsSound(lines: seq<Analysis>, length: nat, warmup: nat)
    ensures Ascending(Plan(lines, length, warmup))
    ensures multiset(Plan(lines, length, warmup)) == multiset(PlanAll(lines, length, warmup))
    ensures forall p :: p in Plan(lines, length, warmup) ==>
              p.start + p.warmup == p.interval * length && p.warmup <= warmup
  {
    var all, plan := PlanAll(lines, length, warmup), Plan(lines, length, warmup);
    SortPointFacts(all);
    forall p | p in plan ensures p.start + p.warmup == p.interval * length && p.warmup <= warmup {
      assert p in multiset(plan);
      assert p in all;
      var i :| 0 <= i < |all| && all[i] == p;
      assert p == PlanOne(lines[i], length, warmup);
    }
  }

  // ----- taking the checkpoints -----

  // Exits of the simulator: the next scheduled start, at an instruction count; a
  // checkpoint the guest asks for; anything else.
  datatype Exit = Found(inst: nat) | Guest | Other

  datatype Taken = Taken(index: nat, point: Point, inst: nat)

  function SkipGuests(env: seq<Exit>): (r: seq<Exit>)
    ensures |r| <= |env| && (r != [] ==> !r[0].Guest?)
  {
    if env == [] || !env[0].Guest? then env else SkipGuests(env[1..])
  }

  // takeSimpointCheckpoints from the point at position `k` on: `last` is the start
  // of the previous checkpoint (-1 for none), `at` the current instruction count.
  function Take(points: seq<Point>, k: nat, env: seq<Exit>, last: int, at: nat): (r: seq<Taken>)
    requires k <= |points|
    ensures |r| <= |points| - k
    decreases |points| - k
  {
    if k == |points| then []
    else
      var p := points[k];
      if p.start == last then [Taken(k, p, at)] + Take(points, k + 1, env, p.start, at)
      else
        var e := SkipGuests(env);
        if e == [] || !e[0].Found? then []
        else [Taken(k, p, e[0].inst)] + Take(points, k + 1, e[1..], p.start, e[0].inst)
  }

  // Without any point there is no exit cause to report, which is an error.
  method TakeCheckpoints(points: seq<Point>, env0: seq<Exit>) returns (r: Option<seq<Taken>>)
    ensures r == if points == [] then None else Some(Take(points, 0, env0, -1, 0))
  {
    var taken := [];
    var env, at, k := env0, 0, 0;
    var last: int := -1;
    while k < |points|
      invariant 0 <= k <= |points|
      invariant taken + Take(points, k, env, last, at) == Take(points, 0, env0, -1, 0)
    {
      var p := points[k];
      if p.start != last {
        ghost var e := env;
        while env != [] && env[0].Guest?
          invariant SkipGuests(env) == SkipGuests(e)
        {
          env := env[1..];
        }
        if env == [] || !env[0].Found? {
          assert taken + [] == taken;
          return Some(taken);
        }
        at := env[0].inst;
        env := env[1..];
      }
      ghost var rest := Take(points, k + 1, env, p.start, at);
      assert taken + ([Taken(k, p, at)] + rest) == taken + [Taken(k, p, at)] + rest;
      taken := taken + [Taken(k, p, at)];
      last := p.start;
      k := k + 1;
    }
    if |points| == 0 {
      return None;
    }
    assert taken + [] == taken;
    return Some(taken);
  }

  // The starts from position k on, repetitions of the previous one left out.
  function Stops(points: seq<Point>, k: nat, last: int): seq<nat>
    requires k <= |points|
    decreases |points| - k
  {
    if k == |points| then []
    else if points[k].start == last then Stops(points, k + 1, last)
    else [points[k].start] + Stops(points, k + 1, points[k].start)
  }

  lemma {:induction false} StopsAscend(points: seq<Point>, k: nat, last: int)
    requires k <= |points| && Ascending(points)
    requires forall i :: k <= i < |points| ==> last <= points[i].start
    ensures forall i :: 0 <= i < |Stops(points, k, last)| ==> last < Stops(points, k, last)[i]
    ensures forall i, j :: 0 <= i < j < |Stops(points, k, last)| ==>
              Stops(points, k, last)[i] < Stops(points, k, last)[j]
    decreases |points| - k
  {
    if k < |points| {
      if points[k].start == last {
        StopsAscend(points, k + 1, last);
      } else {
        StopsAscend(points, k + 1, points[k].start);
        var s := points[k].start;
        var rest := Stops(points, k + 1, s);
        assert forall i :: 0 <= i < |rest| ==> s < rest[i];
      }
    }
  }

  function WithoutGuests(env: seq<Exit>): seq<Exit> {
    if env == [] then []
    else if env[0].Guest? then WithoutGuests(env[1..])
    else [env[0]] + WithoutGuests(env[1..])
  }

  lemma {:induction false} SkipWithout(env: seq<Exit>)
    ensures var e := SkipGuests(env);
      WithoutGuests(env) == if e == [] then [] else [e[0]] + WithoutGuests(e[1..])
  {
    if env != [] && env[0].Guest? { SkipWithout(env[1..]); }
  }

  // The simulator stops at the given instruction counts, in order, whatever guest
  // checkpoints it reports in between.
  ghost predicate StopsAt(env: seq<Exit>, stops: seq<nat>) {
    var e := WithoutGuests(env);
    |stops| <= |e| && forall i :: 0 <= i < |stops| ==> e[i] == Found(stops[i])
  }

  lemma {:induction false} TakesEach(points: seq<Point>, k: nat, env: seq<Exit>, last: int, at: nat)
    requires k <= |points| && StopsAt(env, Stops(points, k, last)) && (last >= 0 ==> at == last)
    ensures var r := Take(points, k, env, last, at);
      && |r| == |points| - k
      && forall i :: 0 <= i < |r| ==> r[i] == Taken(k + i, points[k + i], points[k + i].start)
    decreases |points| - k
  {
    if k < |points| {
      var p := points[k];
      if p.start == last {
        TakesEach(points, k + 1, env, last, at);
      } else {
        SkipWithout(env);
        var e := SkipGuests(env);
        var stops := Stops(points, k, last);
        assert stops[0] == p.start && stops[1..] == Stops(points, k + 1, p.start);
        assert WithoutGuests(env)[0] == Found(p.start);
        assert e[0] == Found(p.start);
        assert WithoutGuests(e[1..]) == WithoutGuests(env)[1..];
        TakesEach(points, k + 1, e[1..], p.start, p.start);
      }
    }
  }

  // When the simulator stops at the distinct starts of the plan in ascending
  // order, one checkpoint is written per point, in order, each at its own start.
  lemma TakesPlan(lines: seq<Analysis>, length: nat, warmup: nat, env: seq<Exit>)
    requires StopsAt(env, Stops(Plan(lines, length, warmup), 0, -1))
    ensures var plan := Plan(lines, length, warmup);
      var taken := Take(plan, 0, env, -1, 0);
      && |taken| == |plan| == |lines|
      && (forall i :: 0 <= i < |taken| ==> taken[i] == Taken(i, plan[i], plan[i].start))
      && (forall i, j :: 0 <= i < j < |Stops(plan, 0, -1)| ==> Stops(plan, 0, -1)[i] < Stops(plan, 0, -1)[j])
  {
    hide *;
    var plan := Plan(lines, length, warmup);
    PlanIsSound(lines, length, warmup);
    PlanLength(lines, length, warmup);
    TakesEach(plan, 0, env, -1, 0);
    StopsAscend(plan, 0, -1);
  }

  lemma PlanLength(lines: seq<Analysis>, length: nat, warmup: nat)
    ensures |Plan(lines, length, warmup)| == |lines|
  {
    PlanIsSound(lines, length, warmup);
    hide Plan;
    var plan := Plan(lines, length, warmup);
    assert |multiset(plan)| == |plan| && |multiset(PlanAll(lines, length, warmup))| == |lines|;
  }

  // Number of stops the simulator makes before another exit ends the run.
  function Founds(env: seq<Exit>): nat {
    if env == [] then 0
    else match env[0]
      case Guest => Founds(env[1..])
      case Other => 0
      case Found(_) => 1 + Founds(env[1..])
  }

  // All checkpoints are taken exactly when there are enough stops for the
  // distinct starts; a repeated start costs no stop.
  lemma {:induction false} TakesAllIff(points: seq<Point>, k: nat, env: seq<Exit>, last: int, at: nat)
    requires k <= |points|
    ensures |Take(points, k, env, last, at)| == |points| - k <==> Founds(env) >= |Stops(points, k, last)|
    decreases |points| - k
  {
    if k < |points| {
      var p := points[k];
      if p.start == last {
        TakesAllIff(points, k + 1, env, last, at);
      } else {
        FoundsSkip(env);
        var e := SkipGuests(env);
        if e != [] && e[0].Found? {
          TakesAllIff(points, k + 1, e[1..], p.start, e[0].inst);
        }
      }
    }
  }

  lemma {:induction false} FoundsSkip(env: seq<Exit>)
    ensures Founds(env) == Founds(SkipGuests(env))
  {
    if env != [] && env[0].Guest? { FoundsSkip(env[1..]); }
  }
}
