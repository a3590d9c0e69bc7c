/** The checkpoint migration scheduler: upgraders carry a tag and depend on other
    tags; a checkpoint carries a set of tags; migration applies, in rounds, every
    upgrader whose tag is missing and every downgrader whose tag is present. */
module CheckpointUpgrader {
  import opened Options

  type Tag = string

  datatype Script = Script(tag: Tag, depends: seq<Tag>, fwdDepends: seq<Tag>, upgrades: bool,
                           legacyVersion: Option<int>)

  type Table = map<Tag, Script>

  function Ups(tb: Table): set<Tag> { set t | t in tb && tb[t].upgrades }

  function Downs(tb: Table): set<Tag> { set t | t in tb && !tb[t].upgrades }

  function Deps(tb: Table, t: Tag): set<Tag>
    requires t in tb
  {
    set d | d in tb[t].depends
  }

  function Pending(tb: Table, tags: set<Tag>): set<Tag> {
    (Ups(tb) - tags) + (Downs(tb) * tags)
  }

  function Ready(tb: Table, pending: set<Tag>, tags: set<Tag>): set<Tag>
    requires pending <= tb.Keys
  {
    set t | t in pending && Deps(tb, t) <= tags
  }

  // The tags after a batch of upgraders and downgraders has run.
  function Update(tb: Table, tags: set<Tag>, batch: set<Tag>): set<Tag> {
    (tags + batch * Ups(tb)) - batch * Downs(tb)
  }

  // What a whole migration does: the rounds applied, the tags reached, and what
  // is left when no pending tag is ready (empty when the migration succeeds).
  datatype Run = Run(rounds: seq<set<Tag>>, tags: set<Tag>, stuck: set<Tag>)

  function Migration(tb: Table, pending: set<Tag>, tags: set<Tag>): Run
    requires pending <= tb.Keys
    decreases |pending|
  {
    var ready := Ready(tb, pending, tags);
    if ready == {} then Run([], tags, pending)
    else
      RemoveShrinks(pending, ready);
      var rest := Migration(tb, pending - ready, Update(tb, tags, ready));
      Run([ready] + rest.rounds, rest.tags, rest.stuck)
  }

  lemma RemoveShrinks(a: set<Tag>, b: set<Tag>)
    requires b <= a && b != {}
    ensures |a - b| < |a|
  {
    assert a == (a - b) + b;
  }

  // A pending upgrade tag is absent and a pending downgrade tag is present; this
  // is what keeps tags.remove from failing.
  ghost predicate Consistent(tb: Table, pending: set<Tag>, tags: set<Tag>) {
    && pending <= tb.Keys
    && forall t :: t in pending ==> (tb[t].upgrades <==> t !in tags)
  }

  lemma ConsistentStep(tb: Table, pending: set<Tag>, tags: set<Tag>, batch: set<Tag>)
    requires Consistent(tb, pending, tags) && batch <= pending
    ensures Consistent(tb, pending - batch, Update(tb, tags, batch))
    ensures Update(tb, tags, batch) == tags + batch * Ups(tb) - batch * Downs(tb)
  {
  }

  lemma NothingReady(tb: Table, pending: set<Tag>, tags: set<Tag>)
    requires pending <= tb.Keys && (pending == {} || Ready(tb, pending, tags) == {})
    ensures Migration(tb, pending, tags) == Run([], tags, pending)
  {
  }

  lemma RoundDone(tb: Table, pending: set<Tag>, tags: set<Tag>, done: seq<set<Tag>>)
    requires pending <= tb.Keys && Ready(tb, pending, tags) != {}
    ensures var ready := Ready(tb, pending, tags);
      var rest := Migration(tb, pending - ready, Update(tb, tags, ready));
      && Migration(tb, pending, tags) == Run([ready] + rest.rounds, rest.tags, rest.stuck)
      && done + ([ready] + rest.rounds) == (done + [ready]) + rest.rounds
      && ready <= pending && |pending - ready| < |pending|
  {
    RemoveShrinks(pending, Ready(tb, pending, tags));
  }

  // ----- loading -----

  ghost predicate DistinctTags(scripts: seq<Script>) {
    forall i, j :: 0 <= i < j < |scripts| ==> scripts[i].tag != scripts[j].tag
  }

  // The tables as the upgrader files leave them, before dependencies are resolved.
  function Loaded(scripts: seq<Script>): Table {
    if scripts == [] then map[]
    else var s := scripts[|scripts| - 1]; Loaded(scripts[..|scripts| - 1])[s.tag := s]
  }

  function LegacyOf(scripts: seq<Script>): map<int, Tag> {
    if scripts == [] then map[]
    else
      var s := scripts[|scripts| - 1];
      var before := LegacyOf(scripts[..|scripts| - 1]);
      if s.legacyVersion.Some? then before[s.legacyVersion.value := s.tag] else before
  }

  // Script k is the last one with legacy version v.
  ghost predicate LastWith(scripts: seq<Script>, v: int, k: nat) {
    && k < |scripts| && scripts[k].legacyVersion == Some(v)
    && forall j :: k < j < |scripts| ==> scripts[j].legacyVersion != Some(v)
  }

  lemma {:induction false} LegacyOfIff(scripts: seq<Script>, v: int)
    ensures v in LegacyOf(scripts) <==> exists k :: 0 <= k < |scripts| && scripts[k].legacyVersion == Some(v)
    ensures v in LegacyOf(scripts) ==> exists k: nat :: LastWith(scripts, v, k) && LegacyOf(scripts)[v] == scripts[k].tag
  {
    if scripts == [] {
    } else {
      var n := |scripts| - 1;
      LegacyOfIff(scripts[..n], v);
      if scripts[n].legacyVersion == Some(v) {
        assert LastWith(scripts, v, n);
      } else if v in LegacyOf(scripts[..n]) {
        var k: nat :| LastWith(scripts[..n], v, k) && LegacyOf(scripts[..n])[v] == scripts[..n][k].tag;
        assert LastWith(scripts, v, k);
      }
    }
  }

  // An upgrader that the legacy loop has reached depends on its predecessor and
  // on nothing else of its own.
  function OwnDepends(s: Script, legacy: map<int, Tag>, upTo: int): seq<Tag> {
    if s.legacyVersion.Some? then
      var v := s.legacyVersion.value;
      if 3 <= v < upTo && v in legacy && v - 1 in legacy && legacy[v] == s.tag then [legacy[v - 1]] else s.depends
    else s.depends
  }

  function Linked(tb: Table, legacy: map<int, Tag>, upTo: int): Table {
    map t | t in tb :: tb[t].(depends := OwnDepends(tb[t], legacy, upTo))
  }

  // Resolution of one tag's forward dependencies: each named tag gains it.
  function Forward(tb: Table, tag: Tag, fwd: seq<Tag>): (r: Table)
    requires forall d :: d in fwd ==> d in tb
    ensures r.Keys == tb.Keys
  {
    if fwd == [] then tb
    else
      var d := fwd[|fwd| - 1];
      var before := Forward(tb, tag, fwd[..|fwd| - 1]);
      before[d := before[d].(depends := before[d].depends + [tag])]
  }

  // The two tables differ in dependencies only.
  ghost predicate SameScripts(a: Table, b: Table) {
    a.Keys == b.Keys && forall t :: t in a ==> b[t] == a[t].(depends := b[t].depends)
  }

  lemma {:induction false} ForwardDeps(tb: Table, tag: Tag, fwd: seq<Tag>)
    requires forall d :: d in fwd ==> d in tb
    ensures SameScripts(tb, Forward(tb, tag, fwd))
    ensures forall t :: t in tb ==>
              Deps(Forward(tb, tag, fwd), t) == Deps(tb, t) + (if t in fwd then {tag} else {})
  {
    if fwd == [] {
    } else {
      var p, d := fwd[..|fwd| - 1], fwd[|fwd| - 1];
      assert fwd == p + [d];
      ForwardDeps(tb, tag, p);
    }
  }

  // All forward dependencies of the first k scripts have been added to `own`.
  ghost predicate Resolved(own: Table, tb: Table, scripts: seq<Script>, k: nat)
    requires k <= |scripts|
  {
    && SameScripts(own, tb)
    && forall t, d :: t in own ==>
         (d in Deps(tb, t) <==> d in Deps(own, t) || exists j :: 0 <= j < k && scripts[j].tag == d && t in scripts[j].fwdDepends)
  }

  lemma ResolvedStep(own: Table, tb: Table, scripts: seq<Script>, k: nat)
    requires k < |scripts| && Resolved(own, tb, scripts, k)
    requires forall d :: d in scripts[k].fwdDepends ==> d in tb
    ensures Resolved(own, Forward(tb, scripts[k].tag, scripts[k].fwdDepends), scripts, k + 1)
  {
    hide Deps, Forward;
    var s := scripts[k];
    ForwardDeps(tb, s.tag, s.fwdDepends);
  }

  // Loading succeeds exactly when the legacy chain has its base and every tag
  // named by a dependency, in either direction, is loaded.
  ghost predicate Loadable(scripts: seq<Script>) {
    var tb, legacy := Loaded(scripts), LegacyOf(scripts);
    && (3 in legacy ==> 2 in legacy)
    && forall i :: 0 <= i < |scripts| ==> Satisfied(scripts[i], legacy, ChainEnd(legacy), tb.Keys)
  }

  // Every tag the script depends on, or makes depend on it, is loaded.
  ghost predicate Satisfied(s: Script, legacy: map<int, Tag>, end: int, loaded: set<Tag>) {
    && (forall d :: d in s.fwdDepends ==> d in loaded)
    && (forall d :: d in OwnDepends(s, legacy, end) ==> d in loaded)
  }

  ghost function ChainEnd(legacy: map<int, Tag>): (n: int)
    ensures n >= 3 && n !in legacy && forall k :: 3 <= k < n ==> k in legacy
  {
    ChainEndFrom(legacy, 3)
  }

  ghost function ChainEndFrom(legacy: map<int, Tag>, i: int): (n: int)
    ensures n >= i && n !in legacy && forall k :: i <= k < n ==> k in legacy
    decreases |set k | k in legacy && k >= i|
  {
    if i in legacy then AboveShrinks(legacy, i); ChainEndFrom(legacy, i + 1) else i
  }

  lemma AboveShrinks(legacy: map<int, Tag>, i: int)
    requires i in legacy
    ensures |set k | k in legacy && k >= i + 1| < |set k | k in legacy && k >= i|
  {
    assert (set k | k in legacy && k >= i) == (set k | k in legacy && k >= i + 1) + {i};
  }

  // ----- the program -----

  ghost predicate Lists(s: seq<Tag>, S: set<Tag>) {
    && (forall i, j :: 0 <= i < j < |s| ==> s[i] != s[j])
    && (forall t :: t in s <==> t in S)
  }

  // A log runs through the rounds one after the other, each in some order.
  ghost predicate Linearizes(log: seq<Tag>, rounds: seq<set<Tag>>)
    decreases |rounds|
  {
    if rounds == [] then log == []
    else
      var n := |rounds[0]|;
      n <= |log| && Lists(log[..n], rounds[0]) && Linearizes(log[n..], rounds[1..])
  }

  lemma LinearizesNothing()
    ensures Linearizes([], [])
  {
  }

  lemma {:induction false} LinearizesSnoc(log: seq<Tag>, rounds: seq<set<Tag>>, chunk: seq<Tag>, S: set<Tag>)
    requires Linearizes(log, rounds) && Lists(chunk, S)
    ensures Linearizes(log + chunk, rounds + [S])
    decreases |rounds|
  {
    ListsLength(chunk, S);
    if rounds == [] {
      assert log + chunk == chunk && chunk[..|chunk|] == chunk && chunk[|chunk|..] == [];
      assert ([] + [S])[1..] == [];
    } else {
      var n := |rounds[0]|;
      LinearizesSnoc(log[n..], rounds[1..], chunk, S);
      assert (log + chunk)[..n] == log[..n] && (log + chunk)[n..] == log[n..] + chunk;
      assert (rounds + [S])[1..] == rounds[1..] + [S];
    }
  }

  lemma {:induction false} ListsLength(s: seq<Tag>, S: set<Tag>)
    requires Lists(s, S)
    ensures |s| == |S|
  {
    if s == [] {
      assert S == {};
    } else {
      var t := s[|s| - 1];
      var p := s[..|s| - 1];
      assert s == p + [t];
      assert t in s;
      assert Lists(p, S - {t});
      ListsLength(p, S - {t});
    }
  }

  lemma {:induction false} ListsExtend(s: seq<Tag>, S: set<Tag>, t: Tag)
    requires Lists(s, S) && t !in S
    ensures Lists(s + [t], S + {t})
  {
  }

  lemma {:induction false} LoadedKeys(scripts: seq<Script>)
    ensures forall t :: t in Loaded(scripts) <==> exists i :: 0 <= i < |scripts| && scripts[i].tag == t
    ensures forall t :: t in Loaded(scripts) ==> Loaded(scripts)[t].tag == t
  {
    if scripts == [] {
    } else {
      var p := scripts[..|scripts| - 1];
      LoadedKeys(p);
      assert forall i :: 0 <= i < |p| ==> scripts[i] == p[i];
    }
  }

  lemma {:induction false} LoadedScripts(scripts: seq<Script>)
    requires DistinctTags(scripts)
    ensures forall i :: 0 <= i < |scripts| ==>
              scripts[i].tag in Loaded(scripts) && Loaded(scripts)[scripts[i].tag] == scripts[i]
  {
    if scripts == [] {
    } else {
      var p := scripts[..|scripts| - 1];
      LoadedScripts(p);
      assert forall i :: 0 <= i < |p| ==> scripts[i] == p[i];
    }
  }

  // A legacy version names a loaded script that claims it.
  lemma {:induction false} LegacyFacts(scripts: seq<Script>)
    requires DistinctTags(scripts)
    ensures forall v :: v in LegacyOf(scripts) ==>
              var t := LegacyOf(scripts)[v];
              t in Loaded(scripts) && Loaded(scripts)[t].legacyVersion == Some(v)
  {
    if scripts == [] {
    } else {
      var p, s := scripts[..|scripts| - 1], scripts[|scripts| - 1];
      LegacyFacts(p);
      LoadedKeys(p);
      assert s.tag !in Loaded(p) by {
        assert forall i :: 0 <= i < |p| ==> scripts[i] == p[i] && scripts[i].tag != s.tag;
      }
    }
  }

  lemma LinkedNothing(scripts: seq<Script>)
    ensures Linked(Loaded(scripts), LegacyOf(scripts), 3) == Loaded(scripts)
  {
  }

  lemma LinkedKeys(tb: Table, legacy: map<int, Tag>, i: int)
    ensures SameScripts(tb, Linked(tb, legacy, i))
    ensures Ups(Linked(tb, legacy, i)) == Ups(tb) && Downs(Linked(tb, legacy, i)) == Downs(tb)
  {
    hide OwnDepends;
  }

  lemma LinkedStep(scripts: seq<Script>, i: int)
    requires DistinctTags(scripts)
    requires var legacy := LegacyOf(scripts); i >= 3 && i in legacy && i - 1 in legacy
    ensures var tb, legacy := Loaded(scripts), LegacyOf(scripts);
      var t, b := legacy[i], Linked(tb, legacy, i);
      && t in tb
      && Linked(tb, legacy, i + 1) == b[t := b[t].(depends := [legacy[i - 1]])]
  {
    hide Loaded, LegacyOf, OwnDepends;
    LegacyFacts(scripts);
    LoadedKeys(scripts);
    var tb, legacy := Loaded(scripts), LegacyOf(scripts);
    forall u | u in tb
      ensures OwnDepends(tb[u], legacy, i + 1) ==
              if u == legacy[i] then [legacy[i - 1]] else OwnDepends(tb[u], legacy, i)
    {
      OwnDependsStep(tb[u], legacy, i);
    }
  }

  lemma OwnDependsStep(s: Script, legacy: map<int, Tag>, i: int)
    requires i >= 3 && i in legacy && i - 1 in legacy
    ensures OwnDepends(s, legacy, i + 1) ==
            if s.legacyVersion == Some(i) && legacy[i] == s.tag then [legacy[i - 1]] else OwnDepends(s, legacy, i)
  {
  }

  lemma LinkedFacts(scripts: seq<Script>, end: int)
    requires DistinctTags(scripts)
    ensures var own := Linked(Loaded(scripts), LegacyOf(scripts), end);
      && own.Keys == Loaded(scripts).Keys
      && (forall t :: t in own <==> exists i :: 0 <= i < |scripts| && scripts[i].tag == t)
      && forall i :: 0 <= i < |scripts| ==>
           && scripts[i].tag in own
           && forall d :: d in Deps(own, scripts[i].tag) <==> d in OwnDepends(scripts[i], LegacyOf(scripts), end)
  {
    hide Loaded, LegacyOf, OwnDepends;
    LoadedKeys(scripts);
    LoadedScripts(scripts);
  }

  lemma ResolvedNothing(own: Table, scripts: seq<Script>)
    ensures Resolved(own, own, scripts, 0)
  {
  }

  // What the audit of script k sees is its own dependencies plus loaded tags.
  lemma AuditFacts(own: Table, tb: Table, scripts: seq<Script>, k: nat, legacy: map<int, Tag>, end: int)
    requires k < |scripts| && Resolved(own, tb, scripts, k)
    requires forall i :: 0 <= i < |scripts| ==> scripts[i].tag in own
    requires forall d :: d in Deps(own, scripts[k].tag) <==> d in OwnDepends(scripts[k], legacy, end)
    ensures scripts[k].tag in tb
    ensures (forall d :: d in scripts[k].fwdDepends ==> d in tb) && (forall d :: d in Deps(tb, scripts[k].tag) ==> d in tb)
      <==> Satisfied(scripts[k], legacy, end, own.Keys)
  {
    hide Deps, OwnDepends;
  }

  lemma ClosedAfter(own: Table, tb: Table, scripts: seq<Script>, legacy: map<int, Tag>, end: int)
    requires Resolved(own, tb, scripts, |scripts|)
    requires forall t :: t in own <==> exists i :: 0 <= i < |scripts| && scripts[i].tag == t
    requires forall i :: 0 <= i < |scripts| ==>
      forall d :: d in Deps(own, scripts[i].tag) <==> d in OwnDepends(scripts[i], legacy, end)
    requires forall i :: 0 <= i < |scripts| ==> Satisfied(scripts[i], legacy, end, own.Keys)
    ensures forall t :: t in tb ==> Deps(tb, t) <= tb.Keys
  {
    hide Deps, OwnDepends;
  }

  // ----- one checkpoint file -----

  // What a checkpoint file says of its version: an old linear number, the tags
  // under Globals, and those under root.globals, a section it may lack.
  datatype CptFile = CptFile(cptVer: Option<int>, globals: Option<set<Tag>>, rootGlobals: Option<Option<set<Tag>>>)

  // What the scripts do to that.
  type Edit = (Tag, CptFile) -> CptFile

  datatype FileResult =
    | NoVersionInfo
    | UnknownVersion
    | Aborted(stuck: set<Tag>)
    | Unchanged
    | MissingSection
    | Rewritten(file: CptFile)

  function Edited(edit: Edit, log: seq<Tag>, file: CptFile): CptFile {
    if log == [] then file else edit(log[|log| - 1], Edited(edit, log[..|log| - 1], file))
  }

  // The scripts edit the file one after the other.
  lemma {:induction false} EditsInOrder(edit: Edit, log: seq<Tag>, files: seq<CptFile>)
    requires |files| == |log| + 1 && forall k :: 0 <= k < |log| ==> files[k + 1] == edit(log[k], files[k])
    ensures Edited(edit, log, files[0]) == files[|log|]
  {
    if log == [] {
    } else {
      EditsInOrder(edit, log[..|log| - 1], files[..|log|]);
    }
  }

  lemma EditedNothing(edit: Edit, file: CptFile)
    ensures Edited(edit, [], file) == file
  {
  }

  lemma EditedSnoc(edit: Edit, log: seq<Tag>, t: Tag, file: CptFile)
    ensures Edited(edit, log + [t], file) == edit(t, Edited(edit, log, file))
  {
    assert (log + [t])[..|log|] == log;
  }

  lemma {:induction false} EditedConcat(edit: Edit, a: seq<Tag>, b: seq<Tag>, file: CptFile)
    ensures Edited(edit, a + b, file) == Edited(edit, b, Edited(edit, a, file))
  {
    if b == [] {
      assert a + b == a;
    } else {
      assert (a + b)[..|a + b| - 1] == a + b[..|b| - 1];
      EditedConcat(edit, a, b[..|b| - 1], file);
    }
  }

  function LegacyTags(legacy: map<int, Tag>, v: int): set<Tag>
    requires forall i :: 2 <= i <= v ==> i in legacy
  {
    set i | 2 <= i <= v :: legacy[i]
  }

  // Where migration starts from.
  datatype Begin = NoInfo | BadVersion | From(tags: set<Tag>, file: CptFile, changed: bool)

  function BeginOf(legacy: map<int, Tag>, file: CptFile): Begin {
    if file.cptVer.Some? then
      var v := file.cptVer.value;
      if forall i :: 2 <= i <= v ==> i in legacy then From(LegacyTags(legacy, v), file.(cptVer := None), true)
      else BadVersion
    else if file.globals.Some? then From(file.globals.value, file, false)
    else if file.rootGlobals.Some? && file.rootGlobals.value.Some? then From(file.rootGlobals.value.value, file, false)
    else NoInfo
  }

  // The outcome for one file, `log` being the order in which the scripts were run.
  function Processed(tb: Table, legacy: map<int, Tag>, edit: Edit, file: CptFile, log: seq<Tag>): FileResult {
    match BeginOf(legacy, file)
    case NoInfo => NoVersionInfo
    case BadVersion => UnknownVersion
    case From(tags, f, changed) =>
      var run := Migration(tb, Pending(tb, tags), tags);
      if run.stuck != {} then Aborted(run.stuck)
      else if !changed && Pending(tb, tags) == {} then Unchanged
      else
        var g := Edited(edit, log, f);
        if g.rootGlobals.None? then MissingSection else Rewritten(g.(rootGlobals := Some(Some(run.tags))))
  }

  class Upgraders {
    var tagSet: set<Tag>
    var untagSet: set<Tag>
    var byTag: Table
    var legacy: map<int, Tag>

    ghost predicate Valid()
      reads this
    {
      && tagSet == Ups(byTag)
      && untagSet == Downs(byTag)
      && (forall t :: t in byTag ==> byTag[t].tag == t)
      && (forall v :: v in legacy ==> legacy[v] in byTag)
    }

    constructor ()
      ensures Valid() && byTag == map[] && legacy == map[]
    {
      tagSet, untagSet, byTag, legacy := {}, {}, map[], map[];
    }

    // Upgrader.__init__
    method Load(s: Script, ghost before: seq<Script>)
      requires Valid() && byTag == Loaded(before) && legacy == LegacyOf(before)
      requires DistinctTags(before + [s])
      modifies this
      ensures Valid() && byTag == Loaded(before + [s]) && legacy == LegacyOf(before + [s])
    {
      assert (before + [s])[..|before|] == before;
      LoadedKeys(before);
      assert s.tag !in byTag by {
        forall i | 0 <= i < |before| ensures before[i].tag != s.tag {
          assert (before + [s])[i] == before[i] && (before + [s])[|before|] == s;
        }
      }
      if s.upgrades {
        tagSet := tagSet + {s.tag};
      } else {
        untagSet := untagSet + {s.tag};
      }
      if s.legacyVersion.Some? {
        legacy := legacy[s.legacyVersion.value := s.tag];
      }
      byTag := byTag[s.tag := s];
    }

    // The legacy loop of load_all; fails when version 3 has no predecessor.
    method LinkLegacy(ghost scripts: seq<Script>) returns (ok: bool)
      requires Valid() && byTag == Loaded(scripts) && legacy == LegacyOf(scripts) && DistinctTags(scripts)
      modifies `byTag
      ensures ok <==> (3 in legacy ==> 2 in legacy)
      ensures ok ==> Valid() && byTag == Linked(Loaded(scripts), legacy, ChainEnd(legacy))
    {
      hide Loaded, LegacyOf, OwnDepends, Linked;
      ghost var tb := byTag;
      var i := 3;
      LinkedNothing(scripts);
      while i in legacy
        invariant i >= 3 && forall k :: 3 <= k < i ==> k in legacy
        invariant i > 3 ==> 2 in legacy
        invariant byTag == Linked(tb, legacy, i)
        decreases |set k | k in legacy && k >= i|
      {
        if i - 1 !in legacy {
          return false;
        }
        AboveShrinks(legacy, i);
        LinkedStep(scripts, i);
        LinkedKeys(tb, legacy, i);
        var t := legacy[i];
        byTag := byTag[t := byTag[t].(depends := [legacy[i - 1]])];
        i := i + 1;
      }
      assert i == ChainEnd(legacy);
      LinkedKeys(tb, legacy, i);
      ok := true;
    }

    method AddForward(s: Script) returns (ok: bool)
      requires Valid()
      modifies `byTag
      ensures ok <==> forall d :: d in s.fwdDepends ==> d in old(byTag)
      ensures ok ==> byTag == Forward(old(byTag), s.tag, s.fwdDepends)
    {
      var fwd := s.fwdDepends;
      for k := 0 to |fwd|
        invariant forall d :: d in fwd[..k] ==> d in old(byTag)
        invariant byTag == Forward(old(byTag), s.tag, fwd[..k])
      {
        var d := fwd[k];
        assert fwd[..k + 1] == fwd[..k] + [d] && fwd[..k + 1][..k] == fwd[..k];
        if d !in byTag {
          return false;
        }
        byTag := byTag[d := byTag[d].(depends := byTag[d].depends + [s.tag])];
      }
      assert fwd[..|fwd|] == fwd;
      ok := true;
    }

    method DependsLoaded(tag: Tag) returns (ok: bool)
      requires tag in byTag
      ensures ok <==> forall d :: d in Deps(byTag, tag) ==> d in byTag
    {
      var depends := byTag[tag].depends;
      for k := 0 to |depends|
        invariant forall j :: 0 <= j < k ==> depends[j] in byTag
      {
        if depends[k] !in byTag {
          assert depends[k] in Deps(byTag, tag);
          return false;
        }
      }
      ok := true;
    }

    // One tag of the resolution loop of load_all.
    method ResolveTag(s: Script) returns (ok: bool)
      requires Valid() && s.tag in byTag
      modifies `byTag
      ensures ok <==>
        && (forall d :: d in s.fwdDepends ==> d in old(byTag))
        && (forall d :: d in Deps(old(byTag), s.tag) ==> d in old(byTag))
      ensures ok ==> Valid() && byTag == Forward(old(byTag), s.tag, s.fwdDepends)
    {
      hide Forward, Deps;
      ok := AddForward(s);
      if ok {
        ForwardDeps(old(byTag), s.tag, s.fwdDepends);
        ok := DependsLoaded(s.tag);
      }
    }

    // Upgrader.load_all
    method LoadAll(scripts: seq<Script>) returns (ok: bool)
      requires Valid() && byTag == map[] && legacy == map[] && DistinctTags(scripts)
      modifies this
      ensures ok <==> Loadable(scripts)
      ensures ok ==>
        var own := Linked(Loaded(scripts), legacy, ChainEnd(legacy));
        && Valid() && legacy == LegacyOf(scripts)
        && Resolved(own, byTag, scripts, |scripts|)
        && forall t :: t in byTag ==> Deps(byTag, t) <= byTag.Keys
    {
      for k := 0 to |scripts|
        invariant Valid() && byTag == Loaded(scripts[..k]) && legacy == LegacyOf(scripts[..k])
      {
        assert scripts[..k] + [scripts[k]] == scripts[..k + 1];
        Load(scripts[k], scripts[..k]);
      }
      assert scripts[..|scripts|] == scripts;
      ok := LinkLegacy(scripts);
      if !ok {
        return;
      }
      ok := ResolveAll(scripts);
    }

    method ResolveAll(scripts: seq<Script>) returns (ok: bool)
      requires Valid() && DistinctTags(scripts) && legacy == LegacyOf(scripts) && (3 in legacy ==> 2 in legacy)
      requires byTag == Linked(Loaded(scripts), legacy, ChainEnd(legacy))
      modifies `byTag
      ensures ok <==> Loadable(scripts)
      ensures ok ==>
        && Valid()
        && Resolved(old(byTag), byTag, scripts, |scripts|)
        && forall t :: t in byTag ==> Deps(byTag, t) <= byTag.Keys
    {
      hide Deps, OwnDepends, Loaded, LegacyOf, Forward, Linked, Resolved, DistinctTags, Satisfied;
      ghost var own := byTag;
      ghost var end := ChainEnd(legacy);
      ResolvedNothing(own, scripts);
      LinkedFacts(scripts, end);
      for k := 0 to |scripts|
        invariant Valid() && Resolved(own, byTag, scripts, k)
        invariant forall i :: 0 <= i < k ==> Satisfied(scripts[i], legacy, end, own.Keys)
      {
        ghost var before := byTag;
        AuditFacts(own, byTag, scripts, k, legacy, end);
        ok := ResolveTag(scripts[k]);
        if !ok {
          assert !Loadable(scripts);
          return;
        }
        ResolvedStep(own, before, scripts, k);
      }
      ClosedAfter(own, byTag, scripts, legacy, end);
      ok := true;
    }

    // Upgrader.ready
    method IsReady(tag: Tag, tags: set<Tag>) returns (r: bool)
      requires tag in byTag
      ensures r <==> Deps(byTag, tag) <= tags
    {
      var depends := byTag[tag].depends;
      for i := 0 to |depends|
        invariant forall k :: 0 <= k < i ==> depends[k] in tags
      {
        if depends[i] !in tags {
          assert depends[i] in Deps(byTag, tag);
          return false;
        }
      }
      return true;
    }

    method ReadyTags(pending: set<Tag>, tags: set<Tag>) returns (ready: set<Tag>)
      requires pending <= byTag.Keys
      ensures ready == Ready(byTag, pending, tags)
    {
      ready := {};
      var unseen := pending;
      while unseen != {}
        invariant unseen <= pending
        invariant ready == Ready(byTag, pending - unseen, tags)
      {
        var t :| t in unseen;
        var ok := IsReady(t, tags);
        if ok {
          ready := ready + {t};
        }
        unseen := unseen - {t};
      }
      assert pending - unseen == pending;
    }

    // One round: the ready tags are updated in whatever order the set yields them.
    method ApplyRound(ready: set<Tag>, tags0: set<Tag>, edit: Edit, file0: CptFile, ghost pending: set<Tag>)
      returns (tags: set<Tag>, file: CptFile, order: seq<Tag>)
      requires Valid() && Consistent(byTag, pending, tags0) && ready <= pending
      ensures tags == Update(byTag, tags0, ready)
      ensures Lists(order, ready) && file == Edited(edit, order, file0)
    {
      hide Edited;
      EditedNothing(edit, file0);
      tags, file, order := tags0, file0, [];
      var todo := ready;
      while todo != {}
        invariant todo <= ready
        invariant Lists(order, ready - todo)
        invariant tags == Update(byTag, tags0, ready - todo) && file == Edited(edit, order, file0)
      {
        var t :| t in todo;
        ListsExtend(order, ready - todo, t);
        assert ready - (todo - {t}) == (ready - todo) + {t};
        if byTag[t].upgrades {
          tags := tags + {t};
        } else {
          assert t in tags;
          tags := tags - {t};
        }
        EditedSnoc(edit, order, t, file0);
        file, order := edit(t, file), order + [t];
        todo := todo - {t};
      }
      assert ready - todo == ready;
    }

    // The worklist loop of process_file.
    method Migrate(tags0: set<Tag>, edit: Edit, file0: CptFile)
      returns (tags: set<Tag>, file: CptFile, log: seq<Tag>, stuck: set<Tag>)
      requires Valid()
      ensures var run := Migration(byTag, Pending(byTag, tags0), tags0);
        tags == run.tags && stuck == run.stuck && Linearizes(log, run.rounds)
      ensures file == Edited(edit, log, file0)
    {
      hide Migration, Linearizes, Lists, Update, Ready, Deps;
      tags, file, log := tags0, file0, [];
      assert Linearizes(log, []) by { LinearizesNothing(); }
      assert forall r: seq<set<Tag>> :: [] + r == r;
      var toApply := (tagSet - tags) + (untagSet * tags);
      ghost var run := Migration(byTag, toApply, tags0);
      ghost var done: seq<set<Tag>> := [];
      while toApply != {}
        invariant Consistent(byTag, toApply, tags)
        invariant var rest := Migration(byTag, toApply, tags);
          run == Run(done + rest.rounds, rest.tags, rest.stuck)
        invariant Linearizes(log, done) && file == Edited(edit, log, file0)
        decreases |toApply|
      {
        var ready := ReadyTags(toApply, tags);
        if ready == {} {
          NothingReady(byTag, toApply, tags);
          assert done + [] == done;
          return tags, file, log, toApply;
        }
        RoundDone(byTag, toApply, tags, done);
        ConsistentStep(byTag, toApply, tags, ready);
        var chunk;
        tags, file, chunk := ApplyRound(ready, tags, edit, file, toApply);
        EditedConcat(edit, log, chunk, file0);
        LinearizesSnoc(log, done, chunk, ready);
        log, done := log + chunk, done + [ready];
        toApply := toApply - ready;
      }
      NothingReady(byTag, toApply, tags);
      assert done + [] == done;
      stuck := {};
    }

    // process_file
    method ProcessFile(file: CptFile, edit: Edit) returns (r: FileResult, log: seq<Tag>)
      requires Valid()
      ensures r == Processed(byTag, legacy, edit, file, log)
      ensures BeginOf(legacy, file).From? ==>
        var tags := BeginOf(legacy, file).tags;
        Linearizes(log, Migration(byTag, Pending(byTag, tags), tags).rounds)
    {
      hide Migration, Linearizes, Edited;
      log := [];
      var cpt, tags, change := file, {}, false;
      if cpt.cptVer.Some? {
        var v := cpt.cptVer.value;
        var i := 2;
        while i <= v
          invariant 2 <= i && (i == 2 || i <= v + 1) && (forall k :: 2 <= k < i ==> k in legacy)
          invariant tags == set k | 2 <= k < i :: legacy[k]
        {
          if i !in legacy {
            return UnknownVersion, log;
          }
          tags := tags + {legacy[i]};
          i := i + 1;
        }
        assert tags == LegacyTags(legacy, v);
        change, cpt := true, cpt.(cptVer := None);
      } else if cpt.globals.Some? {
        tags := cpt.globals.value;
      } else if cpt.rootGlobals.Some? && cpt.rootGlobals.value.Some? {
        tags := cpt.rootGlobals.value.value;
      } else {
        return NoVersionInfo, log;
      }
      var toApply := (tagSet - tags) + (untagSet * tags);
      var final, stuck;
      final, cpt, log, stuck := Migrate(tags, edit, cpt);
      if stuck != {} {
        return Aborted(stuck), log;
      }
      if !change && toApply == {} {
        return Unchanged, log;
      }
      if cpt.rootGlobals.None? {
        return MissingSection, log;
      }
      return Rewritten(cpt.(rootGlobals := Some(Some(final)))), log;
    }
  }
}
