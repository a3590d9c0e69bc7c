/** Taking checkpoints at scripted ticks (`--take-checkpoints=when,period`).

    The simulator is the environment: each simulate(n) either reaches its limit,
    having advanced exactly n ticks, or exits earlier for another cause.  A run is
    driven by the list of exits the environment will produce; when the list is
    used up the simulation exits for good, so every finite run is covered. */
module ScriptedCheckpoints {
  import opened Arithmetic

  datatype Cause = Limit | Guest | Other
  datatype Exit = Exit(cause: Cause, ticks: nat)

  // `checkpoints` lists the ticks at which checkpoints were written.
  datatype Sim = Sim(tick: nat, env: seq<Exit>, checkpoints: seq<nat>) {
    function Write(): Sim { this.(checkpoints := checkpoints + [tick]) }
  }

  function Min(a: nat, b: nat): nat { if a <= b then a else b }

  // m5.simulate(n)
  function Simulate(s: Sim, n: nat): (r: (Sim, Cause))
    ensures r.0.tick <= s.tick + n && r.0.checkpoints == s.checkpoints
    ensures r.1 == Limit ==> r.0.tick == s.tick + n
    ensures |r.0.env| <= |s.env| && (s.env != [] ==> |r.0.env| < |s.env|)
    ensures s.env == [] ==> r.1 == Other
  {
    if s.env == [] then (s, Other)
    else
      var e := s.env[0];
      var step := if e.cause == Limit then n else Min(e.ticks, n);
      (s.(tick := s.tick + step, env := s.env[1..]), e.cause)
  }

  // Simulating on to a target tick past the checkpoints the guest asks for.
  function Resume(s: Sim, cause: Cause, target: nat): (r: (Sim, Cause))
    requires s.tick <= target && (cause == Limit ==> s.tick == target)
    ensures r.0.tick <= target && r.0.checkpoints == s.checkpoints && r.1 != Guest
    ensures r.1 == Limit ==> r.0.tick == target
    ensures cause != Guest ==> r == (s, cause)
    ensures |r.0.env| <= |s.env|
    decreases |s.env|, cause == Guest
  {
    if cause != Guest then (s, cause)
    else
      var (t, c) := Simulate(s, target - s.tick);
      Resume(t, c, target)
  }

  // The loop over periods.  `cause` is the loop's exit_cause: the cause of the
  // FIRST exit of the last period, which the inner loop does not refresh.
  function Periods(s: Sim, at: nat, num: nat, cause: Cause, period: nat, maxtick: nat, max: nat): (r: Sim)
    requires at <= maxtick && s.tick <= at && (cause == Limit ==> s.tick == at)
    decreases |s.env|, cause == Limit
  {
    if num >= max || cause != Limit then s
    else if at + period > maxtick then Simulate(s, maxtick - at).0
    else
      var (t, first) := Simulate(s, period);
      var (u, last) := Resume(t, first, at + period);
      if last == Limit then Periods(u.Write(), at + period, num + 1, first, period, maxtick, max)
      else Periods(u, at + period, num, first, period, maxtick, max)
  }

  function ScriptRun(s: Sim, when: nat, period: nat, maxtick: nat, max: nat): Sim
    requires s.tick <= when <= maxtick
  {
    var (t, c) := Resume(s, Guest, when);
    if c == Limit then Periods(t.Write(), when, 1, c, period, maxtick, max) else t
  }

  // ----- the program -----

  class Machine {
    var sim: Sim

    method DoSimulate(n: nat) returns (c: Cause)
      modifies this
      ensures (sim, c) == Simulate(old(sim), n)
    {
      var r := Simulate(sim, n);
      sim, c := r.0, r.1;
    }

    method WriteCheckpoint()
      modifies this
      ensures sim == old(sim).Write()
    {
      sim := sim.Write();
    }

    // Skips the checkpoints the guest asks for on the way to a target tick.
    method Continue(cause0: Cause, target: nat) returns (cause: Cause)
      requires sim.tick <= target && (cause0 == Limit ==> sim.tick == target)
      modifies this
      ensures (sim, cause) == Resume(old(sim), cause0, target)
    {
      cause := cause0;
      while cause == Guest
        invariant sim.tick <= target && (cause == Limit ==> sim.tick == target)
        invariant Resume(old(sim), cause0, target) == Resume(sim, cause, target)
        decreases |sim.env|, cause == Guest
      {
        cause := DoSimulate(target - sim.tick);
      }
    }

    // scriptCheckpoints, in its tick form
    method Run(when: nat, period: nat, maxtick: nat, max: nat)
      requires sim.tick <= when <= maxtick
      modifies this
      ensures sim == ScriptRun(old(sim), when, period, maxtick, max)
    {
      hide Simulate, Resume;
      var cause := DoSimulate(when - sim.tick);
      cause := Continue(cause, when);
      ResumeUnfolds(old(sim), when);
      var num, at := 0, when;
      if cause == Limit {
        WriteCheckpoint();
        num := 1;
      }
      ghost var goal := ScriptRun(old(sim), when, period, maxtick, max);
      while num < max && cause == Limit
        invariant sim.tick <= at <= maxtick && (cause == Limit ==> sim.tick == at)
        invariant goal == Periods(sim, at, num, cause, period, maxtick, max)
        decreases |sim.env|, cause == Limit
      {
        if at + period > maxtick {
          cause := DoSimulate(maxtick - at);
          return;
        }
        cause := DoSimulate(period);
        at := at + period;
        var last := Continue(cause, at);
        if last == Limit {
          WriteCheckpoint();
          num := num + 1;
        }
      }
    }
  }

  lemma ResumeUnfolds(s: Sim, target: nat)
    requires s.tick <= target
    ensures var (t, c) := Simulate(s, target - s.tick); Resume(s, Guest, target) == Resume(t, c, target)
  {
    hide Simulate;
  }

  // ----- safety over whole runs -----

  // The ticks when, when + period, when + 2 period, ...
  function Schedule(when: nat, period: nat, n: nat): (r: seq<nat>)
    ensures |r| == n && forall k :: 0 <= k < n ==> r[k] == when + k * period
  {
    seq(n, k requires 0 <= k < n => when + k * period)
  }

  // From any point of the loop: checkpoints are added at the next period ends and
  // nowhere else, at most as many as are still allowed, and the tick limit holds.
  lemma {:induction false} PeriodsSafe(s: Sim, at: nat, num: nat, cause: Cause, period: nat, maxtick: nat, max: nat)
    requires at <= maxtick && s.tick <= at && (cause == Limit ==> s.tick == at)
    ensures var r := Periods(s, at, num, cause, period, maxtick, max);
      var n := |r.checkpoints| - |s.checkpoints|;
      && r.tick <= maxtick
      && 0 <= n && (n == 0 || num + n <= max)
      && r.checkpoints == s.checkpoints + Schedule(at + period, period, n)
    decreases |s.env|, cause == Limit
  {
    if num >= max || cause != Limit || at + period > maxtick {
      assert s.checkpoints + [] == s.checkpoints;
    } else {
      var (t, first) := Simulate(s, period);
      var (u, last) := Resume(t, first, at + period);
      if last == Limit {
        PeriodsSafe(u.Write(), at + period, num + 1, first, period, maxtick, max);
        var r := Periods(u.Write(), at + period, num + 1, first, period, maxtick, max);
        ScheduleCons(at + period, period, |r.checkpoints| - |u.Write().checkpoints|);
      } else {
        assert first != Limit;
        assert s.checkpoints + [] == s.checkpoints;
      }
    }
  }

  lemma ScheduleCons(when: nat, period: nat, n: nat)
    ensures Schedule(when, period, n + 1) == [when] + Schedule(when + period, period, n)
  {
    var l, r := Schedule(when, period, n + 1), [when] + Schedule(when + period, period, n);
    forall k | 0 <= k < n + 1 ensures l[k] == r[k] {
      if k > 0 {
        assert r[k] == when + period + (k - 1) * period;
        assert period + (k - 1) * period == k * period;
      }
    }
  }

  // Whatever the environment does: the k-th checkpoint is written at tick
  // when + (k - 1) * period, no more than max are written (one, when max is 0),
  // and the tick never passes maxtick.
  lemma ScriptRunSafe(s: Sim, when: nat, period: nat, maxtick: nat, max: nat)
    requires s.tick <= when <= maxtick && s.checkpoints == []
    ensures var r := ScriptRun(s, when, period, maxtick, max);
      && r.tick <= maxtick
      && r.checkpoints == Schedule(when, period, |r.checkpoints|)
      && |r.checkpoints| <= (if max == 0 then 1 else max)
  {
    var (t, c) := Resume(s, Guest, when);
    if c == Limit {
      PeriodsSafe(t.Write(), when, 1, c, period, maxtick, max);
      var r := Periods(t.Write(), when, 1, c, period, maxtick, max);
      ScheduleCons(when, period, |r.checkpoints| - 1);
      assert [] + [when] == [when];
    }
  }

  // ----- how many checkpoints a run takes -----

  // Guest checkpoint exits, then the limit.
  predicate ReachesLimit(env: seq<Exit>) {
    env != [] && (env[0].cause == Limit || (env[0].cause == Guest && ReachesLimit(env[1..])))
  }

  lemma {:induction false} ResumeReaches(s: Sim, cause: Cause, target: nat)
    requires s.tick <= target && (cause == Limit ==> s.tick == target)
    ensures Resume(s, cause, target).1 == Limit <==> cause == Limit || (cause == Guest && ReachesLimit(s.env))
    decreases |s.env|, cause == Guest
  {
    if cause == Guest {
      var (t, c) := Simulate(s, target - s.tick);
      ResumeReaches(t, c, target);
    }
  }

  // The number of checkpoints the options ask for from this point on.
  function Wanted(at: nat, num: nat, period: nat, maxtick: nat, max: nat): nat
    requires period > 0 && at <= maxtick
    decreases maxtick - at
  {
    if num >= max || at + period > maxtick then 0 else 1 + Wanted(at + period, num + 1, period, maxtick, max)
  }

  // As many as fit below both limits.
  lemma {:induction false} WantedIsMin(at: nat, num: nat, period: nat, maxtick: nat, max: nat)
    requires period > 0 && at <= maxtick
    ensures Wanted(at, num, period, maxtick, max)
      == if num >= max then 0 else Min(max - num, (maxtick - at) / period)
    decreases maxtick - at
  {
    var x := maxtick - at;
    if x < period {
      DivModUnique(x, period, 0, x);
    } else {
      ModShift(x - period, period, 1);
      if num < max { WantedIsMin(at + period, num + 1, period, maxtick, max); }
    }
  }

  // A period that begins with a guest checkpoint is the last one.
  ghost predicate Undisturbed(env: seq<Exit>, n: nat) {
    n == 0 || (|env| >= n && (forall i :: 0 <= i < n - 1 ==> env[i].cause == Limit) && ReachesLimit(env[n - 1..]))
  }

  lemma UndisturbedStep(env: seq<Exit>, n: nat)
    requires n > 0
    ensures Undisturbed(env, n) <==>
            && env != []
            && (if n == 1 then ReachesLimit(env) else env[0].cause == Limit && Undisturbed(env[1..], n - 1))
  {
    hide ReachesLimit;
    ReachesStep(env);
    if n == 1 {
      assert env[0..] == env;
    } else if env != [] {
      if |env| >= n { assert env[1..][n - 2..] == env[n - 1..]; }
      assert forall i :: 0 <= i < |env| - 1 ==> env[1..][i] == env[i + 1];
      assert forall i :: 1 <= i < |env| ==> env[i] == env[1..][i - 1];
    }
  }

  lemma WantedStep(at: nat, num: nat, period: nat, maxtick: nat, max: nat)
    requires period > 0 && at <= maxtick && num < max
    ensures at + period > maxtick ==> Wanted(at, num, period, maxtick, max) == 0
    ensures at + period <= maxtick ==>
      Wanted(at, num, period, maxtick, max) == 1 + Wanted(at + period, num + 1, period, maxtick, max)
  {
  }

  // All the wanted checkpoints are taken exactly when every wanted period but the
  // last runs straight to its limit and the last one reaches it in the end.
  lemma {:induction false} TakesAllIff(s: Sim, at: nat, num: nat, cause: Cause, period: nat, maxtick: nat, max: nat)
    requires at <= maxtick && s.tick <= at && (cause == Limit ==> s.tick == at) && period > 0
    ensures var r := Periods(s, at, num, cause, period, maxtick, max);
      var w := Wanted(at, num, period, maxtick, max);
      |r.checkpoints| == |s.checkpoints| + w <==> w == 0 || (cause == Limit && Undisturbed(s.env, w))
    decreases |s.env|, cause == Limit
  {
    hide ReachesLimit, Undisturbed, Wanted;
    var w := Wanted(at, num, period, maxtick, max);
    if num >= max {
      NothingWanted(at, num, period, maxtick, max);
    } else {
      WantedStep(at, num, period, maxtick, max);
      if cause == Limit && at + period <= maxtick {
        var (t, first) := Simulate(s, period);
        var (u, last) := Resume(t, first, at + period);
        ResumeReaches(t, first, at + period);
        UndisturbedStep(s.env, w);
        if last == Limit {
          PeriodsSafe(u.Write(), at + period, num + 1, first, period, maxtick, max);
          TakesAllIff(u.Write(), at + period, num + 1, first, period, maxtick, max);
        } else {
          PeriodsSafe(u, at + period, num, first, period, maxtick, max);
        }
        ReachesStep(s.env);
      }
    }
  }

  lemma ReachesStep(env: seq<Exit>)
    ensures ReachesLimit(env) <==>
      env != [] && (env[0].cause == Limit || (env[0].cause == Guest && ReachesLimit(env[1..])))
  {
  }

  lemma NothingWanted(at: nat, num: nat, period: nat, maxtick: nat, max: nat)
    requires period > 0 && at <= maxtick && num >= max
    ensures Wanted(at, num, period, maxtick, max) == 0
  {
  }

  // The exits after the first one that is not a guest checkpoint.
  function AfterFirst(env: seq<Exit>): seq<Exit> {
    if env == [] then [] else if env[0].cause == Guest then AfterFirst(env[1..]) else env[1..]
  }

  lemma {:induction false} ResumeUses(s: Sim, target: nat)
    requires s.tick <= target
    ensures Resume(s, Guest, target).0.env == AfterFirst(s.env)
    decreases |s.env|
  {
    if s.env == [] {
    } else if s.env[0].cause == Guest {
      ResumeUses(Simulate(s, target - s.tick).0, target);
    }
  }

  // The whole run takes every checkpoint the options ask for exactly when the
  // first tick is reached and the periods after it are undisturbed in that sense.
  lemma ScriptTakesAllIff(s: Sim, when: nat, period: nat, maxtick: nat, max: nat)
    requires s.tick <= when <= maxtick && s.checkpoints == [] && period > 0
    ensures var r := ScriptRun(s, when, period, maxtick, max);
      var w := Wanted(when, 1, period, maxtick, max);
      |r.checkpoints| == 1 + w <==>
        ReachesLimit(s.env) && (w == 0 || Undisturbed(AfterFirst(s.env), w))
  {
    ResumeUses(s, when);
    var (t, c) := Resume(s, Guest, when);
    ResumeReaches(s, Guest, when);
    if c == Limit {
      TakesAllIff(t.Write(), when, 1, c, period, maxtick, max);
    }
  }

  // When the simulator only ever stops at its limits, the run goes on to the last
  // tick, unless the number of checkpoints ends it before: then it ends with the
  // last of them.
  lemma {:induction false} LimitsOnlyEnd(s: Sim, at: nat, num: nat, period: nat, maxtick: nat, max: nat)
    requires at <= maxtick && s.tick == at && period > 0
    requires |s.env| > Wanted(at, num, period, maxtick, max) && forall i :: 0 <= i < |s.env| ==> s.env[i].cause == Limit
    ensures var w := Wanted(at, num, period, maxtick, max);
      var r := Periods(s, at, num, Limit, period, maxtick, max);
      && |r.checkpoints| == |s.checkpoints| + w
      && r.tick == if num + w >= max then at + w * period else maxtick
    decreases maxtick - at
  {
    if num >= max || at + period > maxtick {
    } else {
      var (t, first) := Simulate(s, period);
      LimitsOnlyEnd(t.Write(), at + period, num + 1, period, maxtick, max);
      var w := Wanted(at, num, period, maxtick, max);
      assert at + period + (w - 1) * period == at + w * period;
    }
  }

  lemma ScriptLimitsOnlyEnd(s: Sim, when: nat, period: nat, maxtick: nat, max: nat)
    requires s.tick <= when <= maxtick && s.checkpoints == [] && period > 0
    requires |s.env| > 1 + Wanted(when, 1, period, maxtick, max)
    requires forall i :: 0 <= i < |s.env| ==> s.env[i].cause == Limit
    ensures var w := Wanted(when, 1, period, maxtick, max);
      var r := ScriptRun(s, when, period, maxtick, max);
      && |r.checkpoints| == 1 + w
      && r.tick == if 1 + w >= max then when + w * period else maxtick
  {
    var (t, c) := Simulate(s, when - s.tick);
    ResumeUnfolds(s, when);
    LimitsOnlyEnd(t.Write(), when, 1, period, maxtick, max);
  }

  // A guest checkpoint inside the second period ends the run two checkpoints
  // early, although the limit of that period is reached and its checkpoint taken.
  lemma GuestCheckpointEndsRun()
    ensures var env := [Exit(Limit, 0), Exit(Guest, 40), Exit(Limit, 0), Exit(Limit, 0), Exit(Limit, 0)];
      && ScriptRun(Sim(0, env, []), 100, 50, 1000, 4).checkpoints == [100, 150]
      && Wanted(100, 1, 50, 1000, 4) == 3
  {
    var env := [Exit(Limit, 0), Exit(Guest, 40), Exit(Limit, 0), Exit(Limit, 0), Exit(Limit, 0)];
    var s0 := Sim(0, env, []);
    var s1 := Sim(100, env[1..], []);
    assert Simulate(s0, 100) == (s1, Limit);
    assert Resume(s0, Guest, 100) == (s1, Limit);
    var s2 := Sim(140, env[2..], [100]);
    assert s1.Write() == Sim(100, env[1..], [100]);
    assert env[1..][0] == env[1] && env[1..][1..] == env[2..];
    assert Simulate(s1.Write(), 50) == (s2, Guest);
    var s3 := Sim(150, env[3..], [100]);
    assert env[2..][0] == env[2] && env[2..][1..] == env[3..];
    assert Simulate(s2, 10) == (s3, Limit);
    assert Resume(s2, Guest, 150) == (s3, Limit);
    assert s3.Write() == Sim(150, env[3..], [100, 150]);
    assert Periods(s3.Write(), 150, 2, Guest, 50, 1000, 4) == s3.Write();
  }
}
