/** What every run of the checkpoint migration keeps, and exactly when it aborts. */
module UpgradeSchedules {
  import opened CheckpointUpgrader
  import opened Options

  function Union(rounds: seq<set<Tag>>): set<Tag> {
    if rounds == [] then {} else rounds[0] + Union(rounds[1..])
  }

  lemma UpdateTwice(tb: Table, tags: set<Tag>, a: set<Tag>, b: set<Tag>)
    requires a !! b
    ensures Update(tb, Update(tb, tags, a), b) == Update(tb, tags, a + b)
  {
  }

  // One round of a run, taken apart.
  lemma Unfold(tb: Table, pending: set<Tag>, tags: set<Tag>)
    requires Consistent(tb, pending, tags)
    ensures pending <= tb.Keys && Ready(tb, pending, tags) <= pending
    ensures var ready := Ready(tb, pending, tags);
      var run := Migration(tb, pending, tags);
      if ready == {} then run == Run([], tags, pending)
      else
        var rest := Migration(tb, pending - ready, Update(tb, tags, ready));
        && |pending - ready| < |pending|
        && Consistent(tb, pending - ready, Update(tb, tags, ready))
        && run.rounds != [] && run.rounds[0] == ready && run.rounds[1..] == rest.rounds
        && run.tags == rest.tags && run.stuck == rest.stuck
  {
    hide Update;
    var ready := Ready(tb, pending, tags);
    if ready != {} {
      RoundDone(tb, pending, tags, []);
      ConsistentStep(tb, pending, tags, ready);
      var rest := Migration(tb, pending - ready, Update(tb, tags, ready));
      assert ([ready] + rest.rounds)[1..] == rest.rounds;
    }
  }

  // ----- accounting -----

  lemma UnionStep(rounds: seq<set<Tag>>)
    ensures rounds == [] ==> Union(rounds) == {}
    ensures rounds != [] ==> Union(rounds) == rounds[0] + Union(rounds[1..])
  {
  }

  lemma Regroup(pending: set<Tag>, ready: set<Tag>, stuck: set<Tag>)
    requires ready <= pending && stuck <= pending - ready
    ensures ready + (pending - ready - stuck) == pending - stuck
    ensures ready !! (pending - ready - stuck)
  {
  }

  // Rounds are non-empty and together they are what is not stuck; there are at
  // most as many as pending tags; the tags reached are the ones the updates
  // leave; and what is stuck is stuck for good.
  lemma {:induction false} RunAccounting(tb: Table, pending: set<Tag>, tags: set<Tag>)
    requires Consistent(tb, pending, tags)
    ensures pending <= tb.Keys
    ensures var run := Migration(tb, pending, tags);
      && run.stuck <= pending
      && Union(run.rounds) == pending - run.stuck
      && run.tags == Update(tb, tags, pending - run.stuck)
      && (forall j :: 0 <= j < |run.rounds| ==> run.rounds[j] != {})
      && |run.rounds| <= |pending|
      && Consistent(tb, run.stuck, run.tags)
      && Ready(tb, run.stuck, run.tags) == {}
    decreases |pending|
  {
    hide *;
    Unfold(tb, pending, tags);
    var run := Migration(tb, pending, tags);
    UnionStep(run.rounds);
    var ready := Ready(tb, pending, tags);
    if ready == {} {
      UpdateNothing(tb, tags);
    } else {
      RunAccounting(tb, pending - ready, Update(tb, tags, ready));
      Regroup(pending, ready, run.stuck);
      UpdateTwice(tb, tags, ready, pending - ready - run.stuck);
      assert forall j :: 1 <= j < |run.rounds| ==> run.rounds[j] == run.rounds[1..][j - 1];
    }
  }

  lemma UpdateNothing(tb: Table, tags: set<Tag>)
    ensures Update(tb, tags, {}) == tags
  {
  }

  lemma PendingIsConsistent(tb: Table, tags: set<Tag>)
    ensures Consistent(tb, Pending(tb, tags), tags)
    ensures Update(tb, tags, Pending(tb, tags)) == tags + Ups(tb) - Downs(tb)
    ensures Pending(tb, tags + Ups(tb) - Downs(tb)) == {}
  {
  }

  // A finished migration leaves the initial tags plus every upgrade tag minus
  // every downgrade tag; tags no upgrader knows are kept; nothing is pending.
  lemma FinalTags(tb: Table, tags: set<Tag>)
    ensures Consistent(tb, Pending(tb, tags), tags) && Pending(tb, tags) <= tb.Keys
    ensures var run := Migration(tb, Pending(tb, tags), tags);
      run.stuck == {} ==> run.tags == tags + Ups(tb) - Downs(tb) && Pending(tb, run.tags) == {}
  {
    hide *;
    var p := Pending(tb, tags);
    PendingIsConsistent(tb, tags);
    RunAccounting(tb, p, tags);
    assert p - {} == p;
  }

  // Processing a rewritten file again changes nothing if and only if the file has
  // no linear version and no tags under Globals, which are read before the ones
  // just written, or those leave nothing to apply.
  lemma IdempotentIff(
      tb: Table, legacy: map<int, Tag>, edit: Edit, file: CptFile, log: seq<Tag>, again: CptFile, log': seq<Tag>)
    requires Processed(tb, legacy, edit, file, log) == Rewritten(again)
    ensures Processed(tb, legacy, edit, again, log') == Unchanged <==>
      again.cptVer.None? && (again.globals.Some? ==> Pending(tb, again.globals.value) == {})
  {
    hide Migration, Pending, Edited;
    var tags := again.rootGlobals.value.value;
    FinalTags(tb, BeginOf(legacy, file).tags);
    NothingReady(tb, {}, tags);
    if again.cptVer.None? && again.globals.Some? {
      FinalTags(tb, again.globals.value);
      NothingReady(tb, {}, again.globals.value);
    }
  }

  // Which outcome a file has.  A version is unknown when a number up to it has no
  // script; a file without a linear version is left alone exactly when no script ran.
  lemma Outcomes(tb: Table, legacy: map<int, Tag>, edit: Edit, file: CptFile, log: seq<Tag>)
    requires BeginOf(legacy, file).From? ==>
      var tags := BeginOf(legacy, file).tags; Linearizes(log, Migration(tb, Pending(tb, tags), tags).rounds)
    ensures var r := Processed(tb, legacy, edit, file, log);
      && (r == UnknownVersion <==> file.cptVer.Some? && exists i :: 2 <= i <= file.cptVer.value && i !in legacy)
      && (r == NoVersionInfo <==>
           file.cptVer.None? && file.globals.None? && (file.rootGlobals.None? || file.rootGlobals.value.None?))
      && (r == Unchanged ==> file.cptVer.None? && log == [])
      && (r.Rewritten? || r == MissingSection ==> file.cptVer.Some? || log != [])
      && (r.Aborted? ==> r.stuck != {})
  {
    var b := BeginOf(legacy, file);
    hide Migration, Linearizes, Edited, Pending, Consistent, Lists;
    if b.From? {
      var p := Pending(tb, b.tags);
      FinalTags(tb, b.tags);
      LogListsApplied(tb, p, b.tags, log);
      EmptyListIff(log, p - Migration(tb, p, b.tags).stuck);
      assert p - {} == p;
    }
  }

  // What a linear version means for the scripts: none is run for an upgrade up to
  // it, and in a run that finishes every other upgrade is run once, and of the
  // downgrades those up to it.
  lemma VersionRuns(tb: Table, legacy: map<int, Tag>, file: CptFile, log: seq<Tag>)
    requires file.cptVer.Some? && BeginOf(legacy, file).From?
    requires var tags := BeginOf(legacy, file).tags;
      Linearizes(log, Migration(tb, Pending(tb, tags), tags).rounds)
    ensures forall i :: 2 <= i <= file.cptVer.value ==> i in legacy && (legacy[i] in Ups(tb) ==> legacy[i] !in log)
    ensures forall i, j :: 0 <= i < j < |log| ==> log[i] != log[j]
    ensures var tags := BeginOf(legacy, file).tags;
      Migration(tb, Pending(tb, tags), tags).stuck == {} ==>
        && (forall t :: t in Ups(tb) ==> (t in log <==> !UpTo(legacy, file.cptVer.value, t)))
        && (forall t :: t in Downs(tb) ==> (t in log <==> UpTo(legacy, file.cptVer.value, t)))
  {
    hide Migration, Linearizes, Consistent;
    var tags := BeginOf(legacy, file).tags;
    FinalTags(tb, tags);
    LogListsApplied(tb, Pending(tb, tags), tags, log);
    assert forall t :: t in tags <==> UpTo(legacy, file.cptVer.value, t);
    hide BeginOf;
  }

  // The tag belongs to one of the versions 2 to v.
  ghost predicate UpTo(legacy: map<int, Tag>, v: int, t: Tag) {
    exists i :: 2 <= i <= v && i in legacy && legacy[i] == t
  }

  // Every other file starts from the tags it lists: Globals first.
  lemma ListedRuns(tb: Table, legacy: map<int, Tag>, file: CptFile, log: seq<Tag>, tags: set<Tag>)
    requires file.cptVer.None?
    requires if file.globals.Some? then tags == file.globals.value else file.rootGlobals == Some(Some(tags))
    requires Linearizes(log, Migration(tb, Pending(tb, tags), tags).rounds)
    ensures BeginOf(legacy, file) == From(tags, file, false)
    ensures forall t :: t in log ==> (t in Ups(tb) && t !in tags) || (t in Downs(tb) && t in tags)
    ensures Migration(tb, Pending(tb, tags), tags).stuck == {} ==>
      forall t :: (t in Ups(tb) && t !in tags) || (t in Downs(tb) && t in tags) ==> t in log
  {
    hide Migration, Linearizes, Consistent;
    FinalTags(tb, tags);
    LogListsApplied(tb, Pending(tb, tags), tags, log);
  }

  // Scripts that leave the version of a file alone.
  ghost predicate KeepsVersion(edit: Edit) {
    forall t, f :: edit(t, f).cptVer == f.cptVer && edit(t, f).globals == f.globals
  }

  lemma {:induction false} EditedKeeps(edit: Edit, log: seq<Tag>, file: CptFile)
    requires KeepsVersion(edit)
    ensures Edited(edit, log, file).cptVer == file.cptVer && Edited(edit, log, file).globals == file.globals
  {
    if log == [] {
    } else {
      EditedKeeps(edit, log[..|log| - 1], file);
    }
  }

  // With such scripts it can be told from the file at the start, and where it fails
  // the second pass begins with the same tags as the first.
  lemma IdempotentFromStartIff(
      tb: Table, legacy: map<int, Tag>, edit: Edit, file: CptFile, log: seq<Tag>, again: CptFile, log': seq<Tag>)
    requires KeepsVersion(edit) && Processed(tb, legacy, edit, file, log) == Rewritten(again)
    ensures Processed(tb, legacy, edit, again, log') == Unchanged <==>
      file.globals.None? || (file.cptVer.Some? && Pending(tb, file.globals.value) == {})
    ensures file.cptVer.None? && file.globals.Some? ==>
      BeginOf(legacy, again) == From(BeginOf(legacy, file).tags, again, false)
  {
    IdempotentIff(tb, legacy, edit, file, log, again, log');
    hide Migration, Pending, Edited, KeepsVersion;
    EditedKeeps(edit, log, BeginOf(legacy, file).file);
  }

  // ----- a file that is never up to date -----

  const ONE_UPGRADE: Table := map["b" := Script("b", [], [], true, None)]

  lemma OneUpgradeRuns()
    ensures Pending(ONE_UPGRADE, {"a"}) == {"b"} == ONE_UPGRADE.Keys
    ensures Migration(ONE_UPGRADE, {"b"}, {"a"}) == Run([{"b"}], {"a", "b"}, {})
  {
    var tb := ONE_UPGRADE;
    assert tb["b"].depends == [];
    assert Deps(tb, "b") == {} && Ups(tb) == {"b"} && Downs(tb) == {};
    assert Ready(tb, {"b"}, {"a"}) == {"b"} && {"b"} - {"b"} == {};
    assert Update(tb, {"a"}, {"b"}) == {"a", "b"};
    NothingReady(tb, {}, {"a", "b"});
  }

  // With tags under Globals the upgrade is applied at every pass, and without a
  // section root.globals the tags cannot be written at all.
  lemma GlobalsHideRewrite(legacy: map<int, Tag>, edit: Edit)
    requires forall t, f :: edit(t, f) == f
    ensures var f := CptFile(None, Some({"a"}), Some(None));
      var again := f.(rootGlobals := Some(Some({"a", "b"})));
      && Processed(ONE_UPGRADE, legacy, edit, f, ["b"]) == Rewritten(again)
      && Processed(ONE_UPGRADE, legacy, edit, again, ["b"]) == Rewritten(again)
      && Processed(ONE_UPGRADE, legacy, edit, f.(rootGlobals := None), ["b"]) == MissingSection
  {
    OneUpgradeRuns();
    hide Migration, Pending;
    assert ["b"][..0] == [];
    assert forall f :: Edited(edit, ["b"], f) == f;
  }

  lemma {:induction false} InUnion(rounds: seq<set<Tag>>, j: nat, t: Tag)
    requires j < |rounds| && t in rounds[j]
    ensures t in Union(rounds)
  {
    if j == 0 {
    } else {
      InUnion(rounds[1..], j - 1, t);
    }
  }

  lemma LinearizesStep(log: seq<Tag>, rounds: seq<set<Tag>>)
    requires Linearizes(log, rounds)
    ensures rounds == [] ==> log == []
    ensures rounds != [] ==>
      var n := |rounds[0]|;
      n <= |log| && Lists(log[..n], rounds[0]) && Linearizes(log[n..], rounds[1..]) && log[..n] + log[n..] == log
  {
  }

  lemma ListsNothing()
    ensures Lists([], {})
  {
  }

  // Every log lists each applied tag exactly once.
  lemma {:induction false} LogListsApplied(tb: Table, pending: set<Tag>, tags: set<Tag>, log: seq<Tag>)
    requires Consistent(tb, pending, tags) && pending <= tb.Keys
    requires Linearizes(log, Migration(tb, pending, tags).rounds)
    ensures Lists(log, pending - Migration(tb, pending, tags).stuck)
    decreases |pending|
  {
    hide *;
    Unfold(tb, pending, tags);
    var run := Migration(tb, pending, tags);
    LinearizesStep(log, run.rounds);
    var ready := Ready(tb, pending, tags);
    if ready == {} {
      ListsNothing();
      assert pending - pending == {};
    } else {
      var n := |ready|;
      LogListsApplied(tb, pending - ready, Update(tb, tags, ready), log[n..]);
      RunAccounting(tb, pending - ready, Update(tb, tags, ready));
      Regroup(pending, ready, run.stuck);
      ListsConcat(log[..n], ready, log[n..], pending - ready - run.stuck);
    }
  }

  lemma EmptyListIff(a: seq<Tag>, A: set<Tag>)
    requires Lists(a, A)
    ensures a == [] <==> A == {}
  {
    if a != [] {
      assert a[0] in A;
    }
  }

  lemma ListsConcat(a: seq<Tag>, A: set<Tag>, b: seq<Tag>, B: set<Tag>)
    requires Lists(a, A) && Lists(b, B) && A !! B
    ensures Lists(a + b, A + B)
  {
    var s := a + b;
    forall i, j | 0 <= i < j < |s| ensures s[i] != s[j] {
      if i < |a| <= j { assert a[i] in a && b[j - |a|] in b; }
    }
  }

  // ----- dependencies -----

  // When a round starts, the tags are those its predecessors left, and every tag
  // of the round has all its dependencies among them.
  lemma {:induction false} DependenciesPresent(tb: Table, pending: set<Tag>, tags: set<Tag>, j: nat)
    requires Consistent(tb, pending, tags) && pending <= tb.Keys
    requires j < |Migration(tb, pending, tags).rounds|
    ensures var run := Migration(tb, pending, tags);
      && Union(run.rounds[..j]) <= pending - run.rounds[j]
      && run.rounds[j] <= Ready(tb, pending, Update(tb, tags, Union(run.rounds[..j])))
    decreases |pending|
  {
    hide *;
    Unfold(tb, pending, tags);
    var ready := Ready(tb, pending, tags);
    var run := Migration(tb, pending, tags);
    UnionStep(run.rounds[..j]);
    if j == 0 {
      UpdateNothing(tb, tags);
    } else {
      var tags' := Update(tb, tags, ready);
      DependenciesPresent(tb, pending - ready, tags', j - 1);
      var rest := Migration(tb, pending - ready, tags');
      var u := Union(rest.rounds[..j - 1]);
      assert run.rounds[..j][1..] == rest.rounds[..j - 1];
      assert run.rounds[j] == rest.rounds[j - 1];
      UpdateTwice(tb, tags, ready, u);
      ReadyGrows(tb, pending - ready, pending, Update(tb, tags', u));
      assert run.rounds[j] !! ready;
    }
  }

  lemma ReadyGrows(tb: Table, a: set<Tag>, b: set<Tag>, tags: set<Tag>)
    requires a <= b <= tb.Keys
    ensures Ready(tb, a, tags) <= Ready(tb, b, tags) && Ready(tb, a, tags) <= a
  {
  }

  // Relative to the round of a tag, a pending upgrade it depends on has run in an
  // earlier round, and a downgrade it depends on has not run in any earlier round.
  lemma DependencyOrder(tb: Table, tags: set<Tag>, j: nat, t: Tag, d: Tag)
    requires var run := Migration(tb, Pending(tb, tags), tags);
      j < |run.rounds| && t in run.rounds[j]
    requires t in tb && d in Deps(tb, t)
    ensures var run := Migration(tb, Pending(tb, tags), tags);
      && (d in Pending(tb, tags) && d in Ups(tb) ==> d in Union(run.rounds[..j]))
      && (d in Downs(tb) ==> d in tags && d !in Union(run.rounds[..j]))
  {
    hide Migration, Union;
    FinalTags(tb, tags);
    DependenciesPresent(tb, Pending(tb, tags), tags, j);
  }

  // ----- the documented rule for downgraded dependencies -----

  // "Removed and its downgrader executed before": in an earlier round, since the
  // order within a round is arbitrary.
  ghost predicate RemovesFirst(tb: Table, rounds: seq<set<Tag>>) {
    forall j, t, d :: 0 <= j < |rounds| && t in rounds[j] && t in tb && d in Deps(tb, t) && d in Downs(tb) ==>
      d in Union(rounds[..j])
  }

  // The code meets the rule in a finished migration exactly when no pending tag
  // depends on a downgraded tag, that is, when there is nothing to order.
  lemma RemovesFirstIff(tb: Table, tags: set<Tag>)
    requires Migration(tb, Pending(tb, tags), tags).stuck == {}
    ensures RemovesFirst(tb, Migration(tb, Pending(tb, tags), tags).rounds) <==>
            forall t :: t in Pending(tb, tags) ==> Deps(tb, t) !! Downs(tb)
  {
    var p := Pending(tb, tags);
    var rounds := Migration(tb, p, tags).rounds;
    FinalTags(tb, tags);
    RunAccounting(tb, p, tags);
    if RemovesFirst(tb, rounds) {
      forall t | t in p ensures Deps(tb, t) !! Downs(tb) {
        var j := RoundOf(rounds, t);
        forall d | d in Deps(tb, t) ensures d !in Downs(tb) {
          DependencyOrder(tb, tags, j, t, d);
        }
      }
    } else {
      var j, t, d :| 0 <= j < |rounds| && t in rounds[j] && t in tb && d in Deps(tb, t) && d in Downs(tb)
        && d !in Union(rounds[..j]);
      InUnion(rounds, j, t);
    }
  }

  lemma {:induction false} RoundOf(rounds: seq<set<Tag>>, t: Tag) returns (j: nat)
    requires t in Union(rounds)
    ensures j < |rounds| && t in rounds[j]
  {
    if t in rounds[0] {
      j := 0;
    } else {
      j := RoundOf(rounds[1..], t);
      j := j + 1;
    }
  }

  // ----- completeness -----

  ghost predicate Respects(tb: Table, tags: set<Tag>, order: seq<Tag>) {
    forall i :: 0 <= i < |order| ==>
      order[i] in tb && forall d :: d in Deps(tb, order[i]) ==> d in tags || d in order[..i]
  }

  // No pending tag depends on a tag that is about to be removed.
  ghost predicate Settled(tb: Table, pending: set<Tag>) {
    pending <= tb.Keys && forall t :: t in pending ==> Deps(tb, t) !! pending * Downs(tb)
  }

  lemma {:induction false} SomeList(S: set<Tag>) returns (s: seq<Tag>)
    ensures Lists(s, S)
  {
    if S == {} {
      s := [];
    } else {
      var t :| t in S;
      s := SomeList(S - {t});
      ListsExtend(s, S - {t}, t);
      s := s + [t];
      assert S - {t} + {t} == S;
    }
  }

  lemma {:induction false} SomeLog(rounds: seq<set<Tag>>) returns (log: seq<Tag>)
    ensures Linearizes(log, rounds)
  {
    if rounds == [] {
      log := [];
    } else {
      var chunk := SomeList(rounds[0]);
      var rest := SomeLog(rounds[1..]);
      ListsLength(chunk, rounds[0]);
      log := chunk + rest;
      assert log[..|chunk|] == chunk && log[|chunk|..] == rest;
    }
  }

  // Whatever order the rounds are iterated in, the log respects dependencies.
  lemma {:induction false} LogRespects(tb: Table, pending: set<Tag>, tags: set<Tag>, log: seq<Tag>)
    requires Consistent(tb, pending, tags) && pending <= tb.Keys
    requires Linearizes(log, Migration(tb, pending, tags).rounds)
    ensures Respects(tb, tags, log)
    decreases |pending|
  {
    hide *;
    Unfold(tb, pending, tags);
    LinearizesStep(log, Migration(tb, pending, tags).rounds);
    var ready := Ready(tb, pending, tags);
    if ready == {} {
      RespectsNothing(tb, tags);
    } else {
      var n := |ready|;
      LogRespects(tb, pending - ready, Update(tb, tags, ready), log[n..]);
      ReadyGrows(tb, pending, pending, tags);
      RespectsConcat(tb, tags, pending, log[..n], log[n..]);
    }
  }

  lemma RespectsNothing(tb: Table, tags: set<Tag>)
    ensures Respects(tb, tags, [])
  {
  }

  lemma RespectsConcat(tb: Table, tags: set<Tag>, pending: set<Tag>, a: seq<Tag>, b: seq<Tag>)
    requires pending <= tb.Keys && Lists(a, Ready(tb, pending, tags))
    requires Respects(tb, Update(tb, tags, Ready(tb, pending, tags)), b)
    ensures Respects(tb, tags, a + b)
  {
    var s := a + b;
    forall i | 0 <= i < |s|
      ensures s[i] in tb && forall d :: d in Deps(tb, s[i]) ==> d in tags || d in s[..i]
    {
      if i < |a| {
        assert a[i] in a;
      } else {
        assert s[..i] == a + b[..i - |a|];
        assert s[i] == b[i - |a|];
      }
    }
  }

  lemma {:induction false} OrderNeverSticks(tb: Table, pending: set<Tag>, tags: set<Tag>, order: seq<Tag>, k: nat)
    requires Consistent(tb, pending, tags) && Settled(tb, pending)
    requires Lists(order, pending) && Respects(tb, tags, order) && k <= |order|
    ensures forall i :: 0 <= i < k ==> order[i] !in Migration(tb, pending, tags).stuck
    decreases k
  {
    hide Migration, Union, Consistent, Settled;
    if k == 0 {
    } else {
      OrderNeverSticks(tb, pending, tags, order, k - 1);
      RunAccounting(tb, pending, tags);
      var run := Migration(tb, pending, tags);
      NextIsNotStuck(tb, pending, tags, run, order, k - 1);
    }
  }

  lemma NextIsNotStuck(tb: Table, pending: set<Tag>, tags: set<Tag>, run: Run, order: seq<Tag>, k: nat)
    requires Settled(tb, pending) && run.stuck <= pending
    requires run.tags == Update(tb, tags, pending - run.stuck) && Ready(tb, run.stuck, run.tags) == {}
    requires Lists(order, pending) && Respects(tb, tags, order) && k < |order|
    requires forall i :: 0 <= i < k ==> order[i] !in run.stuck
    ensures order[k] !in run.stuck
  {
    var t := order[k];
    hide Deps;
    assert t in order;
    forall d | d in Deps(tb, t) ensures d in run.tags {
      assert d !in pending * Downs(tb);
      if d !in tags {
        var i :| 0 <= i < k && order[i] == d;
        assert d in order;
      }
    }
    assert t !in Ready(tb, run.stuck, run.tags);
  }

  // Then the greedy rounds finish exactly when some order of the pending tags
  // respects all dependencies.
  lemma FinishesIffOrderExists(tb: Table, tags: set<Tag>)
    requires Settled(tb, Pending(tb, tags))
    ensures Migration(tb, Pending(tb, tags), tags).stuck == {} <==>
            exists order :: Lists(order, Pending(tb, tags)) && Respects(tb, tags, order)
  {
    hide Migration, Linearizes, Lists, Respects, Consistent, Settled;
    var p := Pending(tb, tags);
    var run := Migration(tb, p, tags);
    FinalTags(tb, tags);
    if run.stuck == {} {
      var log := SomeLog(run.rounds);
      LogListsApplied(tb, p, tags, log);
      LogRespects(tb, p, tags, log);
      assert p - {} == p;
    }
    if order :| Lists(order, p) && Respects(tb, tags, order) {
      OrderNeverSticks(tb, p, tags, order, |order|);
      RunAccounting(tb, p, tags);
      AllListed(order, p);
    }
  }

  lemma AllListed(order: seq<Tag>, S: set<Tag>)
    requires Lists(order, S)
    ensures forall t :: t in S ==> exists i :: 0 <= i < |order| && order[i] == t
  {
  }

  // ----- levels -----

  // The round a tag is due in: one after the last pending upgrade it depends on,
  // and no later than the removal of any tag it depends on.
  ghost predicate Due(tb: Table, pending: set<Tag>, tags: set<Tag>, level: map<Tag, nat>, t: Tag)
    requires pending <= tb.Keys && t in pending && level.Keys == pending
  {
    && (forall d :: d in Deps(tb, t) ==>
         if d !in pending then d in tags
         else if d in Ups(tb) then level[d] < level[t]
         else level[t] <= level[d])
    && (level[t] > 0 ==> exists d :: d in Deps(tb, t) && d in pending * Ups(tb) && level[d] + 1 == level[t])
  }

  ghost predicate Levels(tb: Table, pending: set<Tag>, tags: set<Tag>, level: map<Tag, nat>) {
    pending <= tb.Keys && level.Keys == pending && forall t :: t in pending ==> Due(tb, pending, tags, level, t)
  }

  // What is ready is what is due in the first round.
  lemma ReadyIsDue(tb: Table, pending: set<Tag>, tags: set<Tag>, level: map<Tag, nat>)
    requires Consistent(tb, pending, tags) && Levels(tb, pending, tags, level)
    ensures forall t :: t in pending ==> (t in Ready(tb, pending, tags) <==> level[t] == 0)
  {
    hide Deps;
    forall t | t in pending ensures t in Ready(tb, pending, tags) <==> level[t] == 0 {
      assert Due(tb, pending, tags, level, t);
    }
  }

  // A tag due later leads down to one that is due at once.
  lemma {:induction false} SomeDueNow(tb: Table, pending: set<Tag>, tags: set<Tag>, level: map<Tag, nat>, t: Tag)
    requires Levels(tb, pending, tags, level) && t in pending
    ensures exists d :: d in pending && level[d] == 0
    decreases level[t]
  {
    hide Deps;
    assert Due(tb, pending, tags, level, t);
    if level[t] == 0 {
    } else {
      var d :| d in Deps(tb, t) && d in pending * Ups(tb) && level[d] + 1 == level[t];
      SomeDueNow(tb, pending, tags, level, d);
    }
  }

  lemma SomeReady(tb: Table, pending: set<Tag>, tags: set<Tag>, level: map<Tag, nat>)
    requires Consistent(tb, pending, tags) && Levels(tb, pending, tags, level) && pending != {}
    ensures Ready(tb, pending, tags) != {}
  {
    hide Deps, Due;
    var t :| t in pending;
    SomeDueNow(tb, pending, tags, level, t);
    ReadyIsDue(tb, pending, tags, level);
  }

  ghost function Lowered(level: map<Tag, nat>): map<Tag, nat> {
    map t | t in level && level[t] > 0 :: (level[t] - 1) as nat
  }

  lemma LoweredLevels(tb: Table, pending: set<Tag>, tags: set<Tag>, level: map<Tag, nat>)
    requires Consistent(tb, pending, tags) && Levels(tb, pending, tags, level)
    ensures var ready := Ready(tb, pending, tags);
      Levels(tb, pending - ready, Update(tb, tags, ready), Lowered(level))
  {
    var ready := Ready(tb, pending, tags);
    ReadyIsDue(tb, pending, tags, level);
    hide Deps, Ready;
    var rest, next, low := pending - ready, Update(tb, tags, ready), Lowered(level);
    assert low.Keys == rest;
    forall t | t in rest ensures Due(tb, rest, next, low, t) {
      assert Due(tb, pending, tags, level, t);
      LoweredDue(tb, pending, tags, level, ready, t);
    }
  }

  lemma LoweredDue(tb: Table, pending: set<Tag>, tags: set<Tag>, level: map<Tag, nat>, ready: set<Tag>, t: Tag)
    requires Consistent(tb, pending, tags) && pending <= tb.Keys && level.Keys == pending && ready <= pending
    requires forall d :: d in pending ==> (d in ready <==> level[d] == 0)
    requires t in pending - ready && Due(tb, pending, tags, level, t)
    ensures Lowered(level).Keys == pending - ready
    ensures Due(tb, pending - ready, Update(tb, tags, ready), Lowered(level), t)
  {
    hide Deps;
    var low := Lowered(level);
    assert low.Keys == pending - ready;
    if low[t] > 0 {
      var d :| d in Deps(tb, t) && d in pending * Ups(tb) && level[d] + 1 == level[t];
      assert d in (pending - ready) * Ups(tb) && low[d] + 1 == low[t];
    }
  }

  lemma {:induction false} LevelsFinish(tb: Table, pending: set<Tag>, tags: set<Tag>, level: map<Tag, nat>)
    requires Consistent(tb, pending, tags) && Levels(tb, pending, tags, level)
    ensures Migration(tb, pending, tags).stuck == {}
    decreases |pending|
  {
    hide *;
    Unfold(tb, pending, tags);
    var ready := Ready(tb, pending, tags);
    if pending == {} {
    } else {
      SomeReady(tb, pending, tags, level);
      LoweredLevels(tb, pending, tags, level);
      LevelsFinish(tb, pending - ready, Update(tb, tags, ready), Lowered(level));
    }
  }

  ghost function Raised(ready: set<Tag>, level: map<Tag, nat>): (r: map<Tag, nat>)
    ensures r.Keys == ready + level.Keys
  {
    map t | t in ready + level.Keys :: if t in level then level[t] + 1 else 0
  }

  // A tag of the first round, and a later one with one of its dependencies.
  lemma FirstDue(tb: Table, pending: set<Tag>, tags: set<Tag>, level: map<Tag, nat>, t: Tag)
    requires Consistent(tb, pending, tags) && level.Keys == pending
    requires t in pending && Deps(tb, t) <= tags && level[t] == 0
    ensures Due(tb, pending, tags, level, t)
  {
    hide Deps;
  }

  lemma LaterDep(tb: Table, pending: set<Tag>, tags: set<Tag>, ready: set<Tag>, level: map<Tag, nat>, t: Tag, d: Tag)
    requires Consistent(tb, pending, tags) && pending <= tb.Keys && ready <= pending && level.Keys == pending - ready
    requires t in level && Due(tb, pending - ready, Update(tb, tags, ready), level, t) && d in Deps(tb, t)
    ensures Raised(ready, level).Keys == pending
    ensures var high := Raised(ready, level);
      if d !in pending then d in tags
      else if d in Ups(tb) then high[d] < high[t]
      else high[t] <= high[d]
    ensures level[t] == 0 && d !in tags ==> d in ready * Ups(tb)
  {
    hide Deps;
    assert Raised(ready, level).Keys == pending;
  }

  lemma LaterDue(tb: Table, pending: set<Tag>, tags: set<Tag>, ready: set<Tag>, level: map<Tag, nat>, t: Tag)
    requires Consistent(tb, pending, tags) && pending <= tb.Keys && ready <= pending && level.Keys == pending - ready
    requires t in level && Due(tb, pending - ready, Update(tb, tags, ready), level, t) && !(Deps(tb, t) <= tags)
    ensures Raised(ready, level).Keys == pending
    ensures Due(tb, pending, tags, Raised(ready, level), t)
  {
    hide Deps, Update, Consistent;
    var high := Raised(ready, level);
    assert high.Keys == pending;
    forall d | d in Deps(tb, t)
      ensures if d !in pending then d in tags else if d in Ups(tb) then high[d] < high[t] else high[t] <= high[d]
    {
      LaterDep(tb, pending, tags, ready, level, t, d);
    }
    if level[t] == 0 {
      var d :| d in Deps(tb, t) && d !in tags;
      LaterDep(tb, pending, tags, ready, level, t, d);
      assert d in pending * Ups(tb) && high[d] + 1 == high[t];
    } else {
      var d :| d in Deps(tb, t) && d in (pending - ready) * Ups(tb) && level[d] + 1 == level[t];
      assert d in pending * Ups(tb) && high[d] + 1 == high[t];
    }
  }

  lemma {:induction false} FinishedLevels(tb: Table, pending: set<Tag>, tags: set<Tag>) returns (level: map<Tag, nat>)
    requires Consistent(tb, pending, tags) && pending <= tb.Keys && Migration(tb, pending, tags).stuck == {}
    ensures Levels(tb, pending, tags, level)
    decreases |pending|
  {
    Unfold(tb, pending, tags);
    if pending == {} {
      level := map[];
    } else {
      hide Due, Deps, Consistent, Update, Migration;
      var ready := Ready(tb, pending, tags);
      var low := FinishedLevels(tb, pending - ready, Update(tb, tags, ready));
      level := Raised(ready, low);
      assert level.Keys == pending;
      forall t | t in pending ensures Due(tb, pending, tags, level, t) {
        if t in ready {
          FirstDue(tb, pending, tags, level, t);
        } else {
          LaterDue(tb, pending, tags, ready, low, t);
        }
      }
    }
  }

  // Whatever is pending, migration finishes if and only if every tag can be given
  // the round it is due in: after the upgrades it depends on, not after the removals.
  lemma FinishesIffLevels(tb: Table, tags: set<Tag>)
    ensures Pending(tb, tags) <= tb.Keys
    ensures Migration(tb, Pending(tb, tags), tags).stuck == {} <==>
            exists level :: Levels(tb, Pending(tb, tags), tags, level)
  {
    hide Migration, Levels, Consistent;
    var p := Pending(tb, tags);
    FinalTags(tb, tags);
    if Migration(tb, p, tags).stuck == {} {
      var level := FinishedLevels(tb, p, tags);
    }
    if level :| Levels(tb, p, tags, level) {
      LevelsFinish(tb, p, tags, level);
    }
  }

  // ----- cycles -----

  ghost predicate IsPath(tb: Table, S: set<Tag>, c: seq<Tag>) {
    && (forall i :: 0 <= i < |c| ==> c[i] in S && c[i] in tb)
    && (forall i :: 0 <= i < |c| - 1 ==> c[i + 1] in Deps(tb, c[i]))
  }

  ghost predicate IsCycle(tb: Table, S: set<Tag>, c: seq<Tag>) {
    c != [] && IsPath(tb, S, c) && c[0] in Deps(tb, c[|c| - 1])
  }

  // If every tag of a set depends on a tag of the set, the set holds a cycle.
  lemma {:induction false} WalkToCycle(tb: Table, S: set<Tag>, path: seq<Tag>) returns (c: seq<Tag>)
    requires S <= tb.Keys && path != [] && IsPath(tb, S, path)
    requires forall i, j :: 0 <= i < j < |path| ==> path[i] != path[j]
    requires forall t :: t in S ==> Deps(tb, t) * S != {}
    ensures IsCycle(tb, S, c)
    decreases |S| - |path|
  {
    hide Deps;
    PathFits(path, S);
    var last := path[|path| - 1];
    var next :| next in Deps(tb, last) * S;
    if next in path {
      var i :| 0 <= i < |path| && path[i] == next;
      c := path[i..];
    } else {
      PathFits(path + [next], S);
      c := WalkToCycle(tb, S, path + [next]);
    }
  }

  lemma PathFits(path: seq<Tag>, S: set<Tag>)
    requires forall i, j :: 0 <= i < j < |path| ==> path[i] != path[j]
    requires forall t :: t in path ==> t in S
    ensures |path| <= |S|
  {
    var T := set t | t in path;
    ListsLength(path, T);
    assert S == T + (S - T);
  }

  lemma {:induction false} CycleSticks(tb: Table, pending: set<Tag>, tags: set<Tag>, c: seq<Tag>)
    requires Consistent(tb, pending, tags) && Settled(tb, pending)
    requires IsCycle(tb, pending, c)
    ensures Migration(tb, pending, tags).stuck != {}
    decreases |pending|
  {
    hide *;
    Unfold(tb, pending, tags);
    var ready := Ready(tb, pending, tags);
    CycleNotReady(tb, pending, tags, c);
    SettledShrinks(tb, pending, ready);
    if ready != {} {
      CycleSticks(tb, pending - ready, Update(tb, tags, ready), c);
    }
  }

  lemma CycleNotReady(tb: Table, pending: set<Tag>, tags: set<Tag>, c: seq<Tag>)
    requires Consistent(tb, pending, tags) && Settled(tb, pending)
    requires IsCycle(tb, pending, c)
    ensures pending != {} && IsCycle(tb, pending - Ready(tb, pending, tags), c)
  {
    assert c[0] in pending;
    forall i | 0 <= i < |c| ensures c[i] !in Ready(tb, pending, tags) {
      var d := if i < |c| - 1 then c[i + 1] else c[0];
      assert d in Deps(tb, c[i]) && d in pending && d !in pending * Downs(tb) && d !in tags;
    }
  }

  lemma SettledShrinks(tb: Table, pending: set<Tag>, batch: set<Tag>)
    requires Settled(tb, pending)
    ensures Settled(tb, pending - batch)
  {
    hide Deps;
  }

  lemma {:induction false} MissingSticks(tb: Table, pending: set<Tag>, tags: set<Tag>, t: Tag, d: Tag)
    requires Consistent(tb, pending, tags) && t in pending && pending <= tb.Keys
    requires d in Deps(tb, t) && d !in tags && d !in Ups(tb)
    ensures Migration(tb, pending, tags).stuck != {}
    decreases |pending|
  {
    hide Migration, Consistent, Union;
    Unfold(tb, pending, tags);
    var ready := Ready(tb, pending, tags);
    if ready != {} {
      MissingSticks(tb, pending - ready, Update(tb, tags, ready), t, d);
    }
  }

  ghost predicate Closed(tb: Table) {
    forall t :: t in tb ==> Deps(tb, t) <= tb.Keys
  }

  // With every dependency loaded and none about to be removed, migration aborts
  // exactly when the pending tags hold a dependency cycle or one of them depends on
  // a tag that only has a downgrader.
  lemma AbortsIffCycle(tb: Table, tags: set<Tag>)
    requires Closed(tb) && Settled(tb, Pending(tb, tags))
    ensures Migration(tb, Pending(tb, tags), tags).stuck != {} <==>
            || (exists c :: IsCycle(tb, Pending(tb, tags), c))
            || (exists t :: t in Pending(tb, tags) && Deps(tb, t) * Downs(tb) != {})
  {
    hide Migration, IsCycle, Consistent, Deps;
    var p := Pending(tb, tags);
    FinalTags(tb, tags);
    var run := Migration(tb, p, tags);
    if run.stuck != {} && forall t :: t in p ==> Deps(tb, t) * Downs(tb) == {} {
      StuckHasCycle(tb, tags);
    }
    if c :| IsCycle(tb, p, c) {
      CycleSticks(tb, p, tags, c);
    }
    if t :| t in p && Deps(tb, t) * Downs(tb) != {} {
      var d :| d in Deps(tb, t) * Downs(tb);
      assert d !in p * Downs(tb);
      MissingSticks(tb, p, tags, t, d);
    }
  }

  // The cycle is to be found among the tags the abort message lists.
  lemma StuckHasCycle(tb: Table, tags: set<Tag>)
    requires Closed(tb)
    requires Migration(tb, Pending(tb, tags), tags).stuck != {}
    requires forall t :: t in Pending(tb, tags) ==> Deps(tb, t) * Downs(tb) == {}
    ensures exists c :: IsCycle(tb, Migration(tb, Pending(tb, tags), tags).stuck, c)
                     && IsCycle(tb, Pending(tb, tags), c)
  {
    hide *;
    var p := Pending(tb, tags);
    FinalTags(tb, tags);
    RunAccounting(tb, p, tags);
    var run := Migration(tb, p, tags);
    StuckDependsOnStuck(tb, tags, run);
    var t :| t in run.stuck;
    OneStepPath(tb, run.stuck, t);
    var c := WalkToCycle(tb, run.stuck, [t]);
    CycleWiden(tb, run.stuck, p, c);
  }

  lemma OneStepPath(tb: Table, S: set<Tag>, t: Tag)
    requires t in S && S <= tb.Keys
    ensures IsPath(tb, S, [t])
  {
  }

  lemma StuckDependsOnStuck(tb: Table, tags: set<Tag>, run: Run)
    requires Closed(tb) && run.stuck <= Pending(tb, tags)
    requires forall t :: t in Pending(tb, tags) ==> Deps(tb, t) * Downs(tb) == {}
    requires run.tags == Update(tb, tags, Pending(tb, tags) - run.stuck) && Ready(tb, run.stuck, run.tags) == {}
    ensures forall t :: t in run.stuck ==> Deps(tb, t) * run.stuck != {}
  {
    hide Deps;
    forall t | t in run.stuck ensures Deps(tb, t) * run.stuck != {} {
      assert t !in Ready(tb, run.stuck, run.tags);
      var d :| d in Deps(tb, t) && d !in run.tags;
      assert d !in Deps(tb, t) * Downs(tb);
      assert d in Ups(tb);
      assert d in Deps(tb, t) * run.stuck;
    }
  }

  lemma CycleWiden(tb: Table, S: set<Tag>, T: set<Tag>, c: seq<Tag>)
    requires IsCycle(tb, S, c) && S <= T
    ensures IsCycle(tb, T, c)
  {
  }

  // ----- a small table -----

  // "new" depends on "old", which has a downgrader.
  const ON_DOWNGRADE: Table :=
    map["new" := Script("new", ["old"], [], true, None), "old" := Script("old", [], [], false, None)]

  lemma OnDowngradeFacts()
    ensures ON_DOWNGRADE.Keys == {"new", "old"}
    ensures Ups(ON_DOWNGRADE) == {"new"} && Downs(ON_DOWNGRADE) == {"old"}
    ensures Deps(ON_DOWNGRADE, "new") == {"old"} && Deps(ON_DOWNGRADE, "old") == {}
  {
    assert ON_DOWNGRADE["new"].depends == ["old"] && ON_DOWNGRADE["old"].depends == [];
  }

  lemma BothReady()
    ensures Pending(ON_DOWNGRADE, {"old"}) == {"new", "old"}
    ensures ON_DOWNGRADE.Keys == {"new", "old"}
    ensures Ready(ON_DOWNGRADE, {"new", "old"}, {"old"}) == {"new", "old"}
  {
    hide Deps;
    OnDowngradeFacts();
  }

  lemma BothOrders()
    ensures Lists(["new", "old"], {"new", "old"}) && Lists(["old", "new"], {"new", "old"})
  {
  }

  // With "old" present, both run in one round, so in either order.
  lemma DependentMayRunBeforeRemoval()
    ensures Migration(ON_DOWNGRADE, Pending(ON_DOWNGRADE, {"old"}), {"old"}).rounds == [{"new", "old"}]
    ensures Linearizes(["new", "old"], [{"new", "old"}]) && Linearizes(["old", "new"], [{"new", "old"}])
  {
    hide *;
    var tb := ON_DOWNGRADE;
    var both := {"new", "old"};
    BothReady();
    RoundDone(tb, both, {"old"}, []);
    assert both - both == {};
    NothingReady(tb, {}, Update(tb, {"old"}, both));
    BothOrders();
    OneRound(["new", "old"], both);
    OneRound(["old", "new"], both);
  }

  // With "old" absent, as it is after its removal, "new" can never run, although
  // there is no cycle.
  lemma DependentStuckAfterRemoval()
    ensures Migration(ON_DOWNGRADE, Pending(ON_DOWNGRADE, {}), {}).stuck == {"new"}
    ensures forall c :: !IsCycle(ON_DOWNGRADE, {"new"}, c)
  {
    hide Migration, Deps;
    var tb := ON_DOWNGRADE;
    OnDowngradeFacts();
    assert Pending(tb, {}) == {"new"} && Ready(tb, {"new"}, {}) == {};
    NothingReady(tb, {"new"}, {});
    assert "new" !in Deps(tb, "new");
    forall c ensures !IsCycle(tb, {"new"}, c) {
      assert c != [] && c[0] == "new" && c[|c| - 1] == "new" ==> c[0] !in Deps(tb, c[|c| - 1]);
    }
  }

  lemma OneRound(log: seq<Tag>, S: set<Tag>)
    requires Lists(log, S)
    ensures Linearizes(log, [S])
  {
    ListsLength(log, S);
    assert log[..|log|] == log && log[|log|..] == [] && [S][1..] == [];
  }

  // "new" depends on "old", which has a downgrader, and on "mid".
  const STRANDED: Table :=
    map["new" := Script("new", ["old", "mid"], [], true, None), "mid" := Script("mid", [], [], true, None),
        "old" := Script("old", [], [], false, None)]

  lemma StrandedFacts()
    ensures STRANDED.Keys == {"new", "mid", "old"}
    ensures Ups(STRANDED) == {"new", "mid"} && Downs(STRANDED) == {"old"}
    ensures Deps(STRANDED, "new") == {"old", "mid"} && Deps(STRANDED, "mid") == {} && Deps(STRANDED, "old") == {}
  {
    assert STRANDED["new"].depends == ["old", "mid"] && STRANDED["mid"].depends == [];
    assert STRANDED["old"].depends == [];
  }

  // When a dependency is about to be removed, the rounds can stick although an
  // order exists: "old" goes in the first round, before "new" is ready.
  lemma RemovalCanStrand()
    ensures Pending(STRANDED, {"old"}) == {"new", "mid", "old"} == STRANDED.Keys
    ensures Migration(STRANDED, Pending(STRANDED, {"old"}), {"old"}).stuck == {"new"}
    ensures Lists(["mid", "new", "old"], Pending(STRANDED, {"old"})) && Respects(STRANDED, {"old"}, ["mid", "new", "old"])
  {
    hide Migration, Deps, Ups, Downs;
    var tb, p := STRANDED, {"new", "mid", "old"};
    StrandedFacts();
    assert Pending(tb, {"old"}) == p;
    StrandedRounds();
    StrandedOrder();
  }

  lemma StrandedRounds()
    ensures STRANDED.Keys == {"new", "mid", "old"}
    ensures Migration(STRANDED, {"new", "mid", "old"}, {"old"}).stuck == {"new"}
  {
    var tb, p := STRANDED, {"new", "mid", "old"};
    StrandedFacts();
    hide Migration, Deps, Ups, Downs;
    assert Ready(tb, p, {"old"}) == {"mid", "old"};
    assert Update(tb, {"old"}, {"mid", "old"}) == {"mid"};
    assert p - {"mid", "old"} == {"new"};
    Unfold(tb, p, {"old"});
    assert Ready(tb, {"new"}, {"mid"}) == {};
    NothingReady(tb, {"new"}, {"mid"});
  }

  lemma StrandedOrder()
    ensures Lists(["mid", "new", "old"], {"new", "mid", "old"})
    ensures Respects(STRANDED, {"old"}, ["mid", "new", "old"])
  {
    StrandedFacts();
    hide Deps;
    var o := ["mid", "new", "old"];
    assert o[..1] == ["mid"];
  }
}
