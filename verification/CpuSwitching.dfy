/** Switching between two sets of CPUs at a fixed interval (`--repeat-switch`). */
module CpuSwitching {
  import opened ScriptedCheckpoints

  type Cpu = int
  type Pairs = seq<(Cpu, Cpu)>

  // `legal` records whether every switch so far replaced running CPUs by idle
  // ones; `negative` whether simulate() was ever asked for fewer than 0 ticks.
  datatype State = State(sim: Sim, active: set<Cpu>, legal: bool, negative: bool)

  function Olds(pairs: Pairs): set<Cpu> { set p | p in pairs :: p.0 }

  function News(pairs: Pairs): set<Cpu> { set p | p in pairs :: p.1 }

  // m5.switchCpus
  function Switch(st: State, pairs: Pairs): State {
    st.(active := st.active - Olds(pairs) + News(pairs),
        legal := st.legal && Olds(pairs) <= st.active && News(pairs) !! st.active)
  }

  function Swapped(pairs: Pairs): (r: Pairs)
    ensures |r| == |pairs| && forall i :: 0 <= i < |r| ==> r[i] == (pairs[i].1, pairs[i].0)
  {
    seq(|pairs|, i requires 0 <= i < |pairs| => (pairs[i].1, pairs[i].0))
  }

  lemma SwappedSets(pairs: Pairs)
    ensures Olds(Swapped(pairs)) == News(pairs) && News(Swapped(pairs)) == Olds(pairs)
  {
    var r := Swapped(pairs);
    forall c ensures c in Olds(r) <==> c in News(pairs) {
      if c in Olds(r) { var i :| 0 <= i < |r| && r[i].0 == c; assert pairs[i] in pairs; }
      if c in News(pairs) { var i :| 0 <= i < |pairs| && pairs[i].1 == c; assert r[i] in r; }
    }
    forall c ensures c in News(r) <==> c in Olds(pairs) {
      if c in News(r) { var i :| 0 <= i < |r| && r[i].1 == c; assert pairs[i] in pairs; }
      if c in Olds(pairs) { var i :| 0 <= i < |pairs| && pairs[i].0 == c; assert r[i] in r; }
    }
  }

  // One pair whose first CPU is idle or whose second is running is noticed.
  lemma IllegalIsNoticed(st: State, pairs: Pairs, p: (Cpu, Cpu))
    requires p in pairs && (p.0 !in st.active || p.1 in st.active)
    ensures !Switch(st, pairs).legal
  {
    assert p.0 in Olds(pairs) && p.1 in News(pairs);
  }

  // repeatSwitch, from any point of its loop
  function SwitchRun(st: State, pairs: Pairs, maxtick: nat, freq: nat): State
    decreases |st.sim.env|
  {
    var (sim, cause) := Simulate(st.sim, freq);
    if cause != Limit then st.(sim := sim)
    else
      var t := Switch(st.(sim := sim), pairs);
      if maxtick < sim.tick then t.(negative := true)
      else if maxtick - sim.tick <= freq then t.(sim := Simulate(sim, maxtick - sim.tick).0)
      else SwitchRun(t, Swapped(pairs), maxtick, freq)
  }

  lemma {:induction false} IllegalStays(st: State, pairs: Pairs, maxtick: nat, freq: nat)
    requires !st.legal
    ensures !SwitchRun(st, pairs, maxtick, freq).legal
    decreases |st.sim.env|
  {
    var (sim, cause) := Simulate(st.sim, freq);
    if cause == Limit && maxtick - sim.tick > freq {
      IllegalStays(Switch(st.(sim := sim), pairs), Swapped(pairs), maxtick, freq);
    }
  }

  class Switcher {
    var st: State

    method SwapList(pairs: Pairs) returns (r: Pairs)
      ensures r == Swapped(pairs)
    {
      r := [];
      for i := 0 to |pairs|
        invariant |r| == i && forall k :: 0 <= k < i ==> r[k] == (pairs[k].1, pairs[k].0)
      {
        r := r + [(pairs[i].1, pairs[i].0)];
      }
    }

    method RepeatSwitch(pairs0: Pairs, maxtick: nat, freq: nat)
      modifies this
      ensures st == SwitchRun(old(st), pairs0, maxtick, freq)
    {
      hide Simulate;
      var pairs := pairs0;
      while true
        invariant SwitchRun(old(st), pairs0, maxtick, freq) == SwitchRun(st, pairs, maxtick, freq)
        decreases |st.sim.env|
      {
        var r := Simulate(st.sim, freq);
        st := st.(sim := r.0);
        if r.1 != Limit {
          return;
        }
        st := Switch(st, pairs);
        pairs := SwapList(pairs);
        if maxtick < st.sim.tick {
          st := st.(negative := true);
          return;
        }
        if maxtick - st.sim.tick <= freq {
          st := st.(sim := Simulate(st.sim, maxtick - st.sim.tick).0);
          return;
        }
      }
    }
  }

  // The running CPUs are the first components, the idle ones the second.
  ghost predicate Aligned(st: State, pairs: Pairs) {
    Olds(pairs) <= st.active && News(pairs) !! st.active
  }

  lemma AlignedStep(st: State, pairs: Pairs)
    requires Aligned(st, pairs)
    ensures Aligned(Switch(st, pairs), Swapped(pairs))
    ensures Switch(st, pairs).legal == st.legal
    ensures Switch(Switch(st, pairs), Swapped(pairs)).active == st.active
  {
    SwappedSets(pairs);
    assert Olds(pairs) !! News(pairs);
  }

  // Before every switch of every run the first components are running and the
  // second are idle; the run ends with the CPUs it started with or their partners.
  lemma {:induction false} SwitchesAreLegal(st: State, pairs: Pairs, maxtick: nat, freq: nat)
    requires Aligned(st, pairs) && st.legal
    ensures var r := SwitchRun(st, pairs, maxtick, freq);
      r.legal && (r.active == st.active || r.active == st.active - Olds(pairs) + News(pairs))
    decreases |st.sim.env|
  {
    var (sim, cause) := Simulate(st.sim, freq);
    if cause == Limit {
      hide Simulate, Swapped, Aligned;
      var s1 := st.(sim := sim);
      assert Aligned(s1, pairs) by { AlignedSim(st, sim, pairs); }
      AlignedStep(s1, pairs);
      var t := Switch(s1, pairs);
      if sim.tick <= maxtick && maxtick - sim.tick > freq {
        SwitchesAreLegal(t, Swapped(pairs), maxtick, freq);
      }
    }
  }

  lemma AlignedSim(st: State, sim: Sim, pairs: Pairs)
    requires Aligned(st, pairs)
    ensures Aligned(st.(sim := sim), pairs)
  {
  }

  lemma {:induction false} EnoughTicksIsSafe(st: State, pairs: Pairs, maxtick: nat, freq: nat)
    requires st.sim.tick + freq <= maxtick && !st.negative
    ensures var r := SwitchRun(st, pairs, maxtick, freq); r.sim.tick <= maxtick && !r.negative
    decreases |st.sim.env|
  {
    hide Swapped, Olds, News;
    var (sim, cause) := Simulate(st.sim, freq);
    if cause == Limit && maxtick - sim.tick > freq {
      EnoughTicksIsSafe(Switch(st.(sim := sim), pairs), Swapped(pairs), maxtick, freq);
    }
  }

  // The tick limit is kept by every environment exactly when a whole interval is
  // left at the start: the first interval is simulated without looking.
  lemma TickLimitIff(tick: nat, active: set<Cpu>, pairs: Pairs, maxtick: nat, freq: nat)
    requires tick <= maxtick
    ensures (forall env :: var r := SwitchRun(State(Sim(tick, env, []), active, true, false), pairs, maxtick, freq);
               r.sim.tick <= maxtick && !r.negative)
            <==> tick + freq <= maxtick
  {
    if tick + freq <= maxtick {
      forall env ensures
        var r := SwitchRun(State(Sim(tick, env, []), active, true, false), pairs, maxtick, freq);
        r.sim.tick <= maxtick && !r.negative
      {
        EnoughTicksIsSafe(State(Sim(tick, env, []), active, true, false), pairs, maxtick, freq);
      }
    } else {
      var env := [Exit(Limit, 0)];
      var r := SwitchRun(State(Sim(tick, env, []), active, true, false), pairs, maxtick, freq);
      assert r.negative;
    }
  }

  // ----- endless environments -----

  // repeatSwitch against a simulator that never runs out of exits, the next one
  // being env(at); with the number of exits used.  The remaining ticks decrease
  // from one interval to the next, whatever the simulator does.
  function EndlessRun(st: State, env: nat -> Exit, at: nat, pairs: Pairs, maxtick: nat, freq: nat): (r: (State, nat))
    requires freq > 0
    ensures r.1 >= 1
    decreases maxtick - st.sim.tick
  {
    var (sim, cause) := Simulate(st.sim.(env := [env(at)]), freq);
    if cause != Limit then (st.(sim := sim), 1)
    else
      var t := Switch(st.(sim := sim), pairs);
      if maxtick < sim.tick then (t.(negative := true), 1)
      else if maxtick - sim.tick <= freq then
        (t.(sim := Simulate(sim.(env := [env(at + 1)]), maxtick - sim.tick).0), 2)
      else
        var (u, n) := EndlessRun(t, env, at + 1, Swapped(pairs), maxtick, freq);
        (u, n + 1)
  }

  function Ahead(env: nat -> Exit, at: nat, k: nat): (r: seq<Exit>)
    ensures |r| == k
    decreases k
  {
    if k == 0 then [] else [env(at)] + Ahead(env, at + 1, k - 1)
  }

  lemma AheadStep(env: nat -> Exit, at: nat, k: nat)
    requires k > 0
    ensures Ahead(env, at, k)[0] == env(at) && Ahead(env, at, k)[1..] == Ahead(env, at + 1, k - 1)
  {
  }

  // A simulation step looks at one exit only.
  lemma SimulateFirst(s: Sim, env: seq<Exit>, n: nat)
    requires env != []
    ensures var r := Simulate(s.(env := [env[0]]), n);
      Simulate(s.(env := env), n) == (r.0.(env := env[1..]), r.1)
  {
  }

  lemma SwitchIgnoresSim(st: State, sim: Sim, pairs: Pairs)
    ensures Switch(st.(sim := sim), pairs) == Switch(st, pairs).(sim := sim)
  {
  }

  // The number of exits used is bounded by the remaining ticks alone.
  lemma {:induction false} StopsInTime(st: State, env: nat -> Exit, at: nat, pairs: Pairs, maxtick: nat, freq: nat)
    requires freq > 0 && st.sim.tick + freq <= maxtick
    ensures freq * (EndlessRun(st, env, at, pairs, maxtick, freq).1 - 1) <= maxtick - st.sim.tick
    decreases maxtick - st.sim.tick
  {
    var (sim, cause) := Simulate(st.sim.(env := [env(at)]), freq);
    if cause == Limit && maxtick - sim.tick > freq {
      var t := Switch(st.(sim := sim), pairs);
      StopsInTime(t, env, at + 1, Swapped(pairs), maxtick, freq);
      var n := EndlessRun(t, env, at + 1, Swapped(pairs), maxtick, freq).1;
      assert freq * n == freq * (n - 1) + freq;
    }
  }

  function With(st: State, env: seq<Exit>): State { st.(sim := st.sim.(env := env)) }

  // One interval against a list of exits.
  lemma OneInterval(st: State, env: seq<Exit>, pairs: Pairs, maxtick: nat, freq: nat)
    requires env != []
    ensures var (sim, cause) := Simulate(st.sim.(env := [env[0]]), freq);
      var t := Switch(st.(sim := sim), pairs);
      SwitchRun(With(st, env), pairs, maxtick, freq) ==
        if cause != Limit then With(st.(sim := sim), env[1..])
        else if maxtick < sim.tick then With(t.(negative := true), env[1..])
        else if maxtick - sim.tick <= freq then t.(sim := Simulate(sim.(env := env[1..]), maxtick - sim.tick).0)
        else SwitchRun(With(t, env[1..]), Swapped(pairs), maxtick, freq)
  {
    hide Simulate, Switch, Swapped;
    var (sim, cause) := Simulate(st.sim.(env := [env[0]]), freq);
    SimulateFirst(st.sim, env, freq);
    SwitchIgnoresSim(st, sim, pairs);
    SwitchIgnoresSim(With(st, env), sim.(env := env[1..]), pairs);
    SwitchIgnoresSim(st, st.sim.(env := env), pairs);
  }

  // Any list of exits long enough gives the same run, so that what holds for every
  // finite environment holds for every endless one.
  lemma {:induction false} FinitePartSuffices(
      st: State, env: nat -> Exit, at: nat, k: nat, pairs: Pairs, maxtick: nat, freq: nat)
    requires freq > 0 && EndlessRun(st, env, at, pairs, maxtick, freq).1 <= k
    ensures var (r, n) := EndlessRun(st, env, at, pairs, maxtick, freq);
      SwitchRun(With(st, Ahead(env, at, k)), pairs, maxtick, freq) == With(r, Ahead(env, at + n, k - n))
    decreases k
  {
    hide SwitchRun, Simulate, Switch, Swapped, Ahead;
    var ahead := Ahead(env, at, k);
    var (sim, cause) := Simulate(st.sim.(env := [env(at)]), freq);
    AheadStep(env, at, k);
    OneInterval(st, ahead, pairs, maxtick, freq);
    if cause == Limit && sim.tick <= maxtick {
      if maxtick - sim.tick <= freq {
        AheadStep(env, at + 1, k - 1);
        SimulateFirst(sim, ahead[1..], maxtick - sim.tick);
      } else {
        FinitePartSuffices(Switch(st.(sim := sim), pairs), env, at + 1, k - 1, Swapped(pairs), maxtick, freq);
      }
    }
  }
}
