/** The recursive cache and tester hierarchy of the memory tester.

    `caches[d]` is the fan-out of every subsystem at depth d below main memory,
    `testers[d]` the number of testers each of them carries; depth d is level
    |caches| - d.  There is one more tester entry than cache entries. */
module CacheTree {
  import opened Arithmetic

  datatype Spec = Spec(caches: seq<nat>, testers: seq<nat>) {
    // What the script checks before building.
    predicate Valid() {
      && |caches| >= 1
      && |testers| == |caches| + 1
      && testers[|caches|] != 0
      && forall i :: 0 <= i < |caches| ==> caches[i] >= 1
    }
  }

  // ----- counting -----

  // Number of subsystems at depth k.
  function Multiplier(caches: seq<nat>, k: nat): nat
    requires k <= |caches|
  {
    if k == 0 then 1 else Multiplier(caches, k - 1) * caches[k - 1]
  }

  function SumFirst(caches: seq<nat>, testers: seq<nat>, k: nat): nat
    requires k <= |testers| && k <= |caches| + 1
  {
    if k == 0 then 0 else SumFirst(caches, testers, k - 1) + testers[k - 1] * Multiplier(caches, k - 1)
  }

  function Total(caches: seq<nat>, testers: seq<nat>): nat {
    SumFirst(caches, testers, if |testers| < |caches| + 1 then |testers| else |caches| + 1)
  }

  method NumTesters(caches: seq<nat>, testers: seq<nat>) returns (total: nat)
    ensures total == Total(caches, testers)
  {
    var multiplier := [1];
    for i := 0 to |caches|
      invariant |multiplier| == i + 1
      invariant forall k :: 0 <= k <= i ==> multiplier[k] == Multiplier(caches, k)
    {
      multiplier := multiplier + [multiplier[i] * caches[i]];
    }
    total := 0;
    var i := 0;
    while i < |testers| && i < |multiplier|
      invariant 0 <= i <= |testers| && i <= |multiplier|
      invariant total == SumFirst(caches, testers, i)
    {
      total := total + testers[i] * multiplier[i];
      i := i + 1;
    }
  }

  // Testers of one subtree rooted at a level.
  function Subtree(sp: Spec, level: nat): nat
    requires sp.Valid() && level <= |sp.caches|
  {
    var d := |sp.caches| - level;
    sp.testers[d] + (if level == 0 then 0 else sp.caches[d] * Subtree(sp, level - 1))
  }

  // Subsystems at level l of one subtree rooted at a level.
  function Fanout(caches: seq<nat>, level: nat, l: nat): nat
    requires level <= |caches|
  {
    if level < l then 0
    else if level == l then 1
    else caches[|caches| - level] * Fanout(caches, level - 1, l)
  }

  lemma Distribute(m: nat, t: nat, c: nat, s: nat)
    ensures m * (t + c * s) == t * m + (m * c) * s
  {
    assert m * (t + c * s) == m * t + m * (c * s);
    assert m * (c * s) == (m * c) * s;
  }

  // The closed form counts what the recursion counts.
  lemma {:induction false} SumIsSubtree(sp: Spec, k: nat)
    requires sp.Valid() && k <= |sp.caches|
    ensures SumFirst(sp.caches, sp.testers, k) + Multiplier(sp.caches, k) * Subtree(sp, |sp.caches| - k)
         == Subtree(sp, |sp.caches|)
  {
    if k == 0 {
      assert Multiplier(sp.caches, 0) == 1;
    } else {
      SumIsSubtree(sp, k - 1);
      var l := |sp.caches| - k;
      var m, t, c, s := Multiplier(sp.caches, k - 1), sp.testers[k - 1], sp.caches[k - 1], Subtree(sp, l);
      assert Subtree(sp, l + 1) == t + c * s;
      Distribute(m, t, c, s);
    }
  }

  lemma TotalIsSubtree(sp: Spec)
    requires sp.Valid()
    ensures Total(sp.caches, sp.testers) == Subtree(sp, |sp.caches|)
  {
    var n := |sp.caches|;
    SumIsSubtree(sp, n);
    assert Subtree(sp, 0) == sp.testers[n];
  }

  lemma {:induction false} FanoutIsMultiplier(caches: seq<nat>, level: nat, l: nat)
    requires l <= level <= |caches|
    ensures Multiplier(caches, |caches| - l) == Multiplier(caches, |caches| - level) * Fanout(caches, level, l)
    decreases level - l
  {
    if l < level {
      FanoutIsMultiplier(caches, level - 1, l);
      var d := |caches| - level;
      Distribute(Multiplier(caches, d), 0, caches[d], Fanout(caches, level - 1, l));
    }
  }

  // ----- building -----

  // The subsystem names in use at each level are 0 .. next[level] - 1.
  ghost predicate NamesExact(names: set<(nat, nat)>, next: seq<nat>) {
    forall l: nat, i: nat :: (l, i) in names <==> l < |next| && i < next[l]
  }

  // Every level has gained m times the subsystems of one subtree.
  ghost predicate Grown(caches: seq<nat>, before: seq<nat>, after: seq<nat>, m: nat, level: nat)
    requires level <= |caches|
  {
    |after| == |before| && forall l :: 0 <= l < |after| ==> after[l] == before[l] + m * Fanout(caches, level, l)
  }

  lemma GrownOnce(caches: seq<nat>, a: seq<nat>, b: seq<nat>, c: seq<nat>, m: nat, level: nat)
    requires level <= |caches| && Grown(caches, a, b, m, level) && Grown(caches, b, c, 1, level)
    ensures Grown(caches, a, c, m + 1, level)
  {
    forall l | 0 <= l < |c| ensures c[l] == a[l] + (m + 1) * Fanout(caches, level, l) {
      var f := Fanout(caches, level, l);
      assert c[l] == a[l] + m * f + 1 * f;
      assert (m + 1) * f == m * f + f;
    }
  }

  lemma GrownLevel(caches: seq<nat>, a: seq<nat>, c: seq<nat>, level: nat)
    requires level <= |caches| < |a|
    requires level == 0 ==> c == a[level := a[level] + 1]
    requires level != 0 ==> Grown(caches, a[level := a[level] + 1], c, caches[|caches| - level], level - 1)
    ensures Grown(caches, a, c, 1, level)
  {
    forall l | 0 <= l < |a| ensures c[l] == a[l] + 1 * Fanout(caches, level, l) {
      if level != 0 && l > level { assert caches[|caches| - level] * 0 == 0; }
    }
  }

  class System {
    const sp: Spec
    var nextIndex: seq<nat>
    var names: set<(nat, nat)>
    var testers: nat

    ghost predicate Valid()
      reads this
    {
      sp.Valid() && |nextIndex| == |sp.caches| + 1 && NamesExact(names, nextIndex)
    }

    constructor (sp: Spec)
      requires sp.Valid()
      ensures this.sp == sp && Valid() && testers == 0
      ensures forall l :: 0 <= l < |nextIndex| ==> nextIndex[l] == 0
    {
      this.sp := sp;
      nextIndex := seq(|sp.caches| + 1, i => 0);
      names := {};
      testers := 0;
    }

    // Takes the next index of a level; the new name is not in use yet.
    method NewSubsystem(level: nat) returns (index: nat)
      requires Valid() && level <= |sp.caches|
      modifies this
      ensures Valid() && testers == old(testers)
      ensures index == old(nextIndex)[level] && (level, index) !in old(names)
      ensures nextIndex == old(nextIndex)[level := index + 1] && names == old(names) + {(level, index)}
    {
      index := nextIndex[level];
      nextIndex := nextIndex[level := index + 1];
      names := names + {(level, index)};
    }

    // make_cache_level; `caches` and `prototypes` are the tails passed down, and
    // the look-ups prototypes[0], caches[0] and testers[0] never fail.
    method MakeCacheLevel(caches: seq<nat>, prototypes: seq<int>, level: nat, hasNext: bool)
      requires Valid() && level <= |sp.caches|
      requires caches == sp.caches[|sp.caches| - level..] && |prototypes| == level
      requires level == 0 ==> hasNext
      modifies this
      ensures Valid() && old(names) <= names
      ensures testers == old(testers) + Subtree(sp, level)
      ensures Grown(sp.caches, old(nextIndex), nextIndex, 1, level)
      decreases level
    {
      hide Fanout, Grown, NamesExact, Subtree;
      SubtreeStep(sp, level);
      var index := NewSubsystem(level);
      var ntesters := sp.testers[|sp.caches| - level];
      testers := testers + ntesters;
      if level != 0 {
        var proto := prototypes[0];
        ghost var base, below := nextIndex, Subtree(sp, level - 1);
        assert caches[0] == sp.caches[|sp.caches| - level];
        assert caches[1..] == sp.caches[|sp.caches| - (level - 1)..];
        NotGrown(sp.caches, base, level - 1);
        for m := 0 to caches[0]
          invariant Valid() && old(names) <= names
          invariant testers == old(testers) + ntesters + m * below
          invariant Grown(sp.caches, base, nextIndex, m, level - 1)
        {
          ghost var before := nextIndex;
          MakeCacheLevel(caches[1..], prototypes[1..], level - 1, true);
          GrownOnce(sp.caches, base, before, nextIndex, m, level - 1);
          MulStep(m, below);
        }
      } else {
        assert ntesters >= 1;
      }
      GrownLevel(sp.caches, old(nextIndex), nextIndex, level);
    }
  }

  lemma SubtreeStep(sp: Spec, level: nat)
    requires sp.Valid() && level <= |sp.caches|
    ensures level == 0 ==> Subtree(sp, level) == sp.testers[|sp.caches|]
    ensures level != 0 ==> var d := |sp.caches| - level;
      Subtree(sp, level) == sp.testers[d] + sp.caches[d] * Subtree(sp, level - 1)
  {
  }

  lemma MulStep(m: nat, x: nat)
    ensures (m + 1) * x == m * x + x
  {
  }

  lemma NotGrown(caches: seq<nat>, a: seq<nat>, level: nat)
    requires level <= |caches|
    ensures Grown(caches, a, a, 0, level)
  {
  }

  // The top-level call: as many testers as the closed form says, and one
  // subsystem name per position of the tree, none used twice.
  method BuildTree(sp: Spec) returns (testers: nat, names: set<(nat, nat)>)
    requires sp.Valid()
    ensures testers == Total(sp.caches, sp.testers)
    ensures forall l: nat, i: nat :: (l, i) in names <==>
              l <= |sp.caches| && i < Multiplier(sp.caches, |sp.caches| - l)
  {
    var s := new System(sp);
    var prototypes := seq(|sp.caches|, i => i);
    var n := |sp.caches|;
    s.MakeCacheLevel(sp.caches, prototypes, n, false);
    TotalIsSubtree(sp);
    forall l | 0 <= l <= n ensures s.nextIndex[l] == Multiplier(sp.caches, n - l) {
      FanoutIsMultiplier(sp.caches, n, l);
      assert s.nextIndex[l] == 0 + 1 * Fanout(sp.caches, n, l);
    }
    testers, names := s.testers, s.names;
  }

  // ----- the checks before -----

  // One location of a block for each tester.
  const BLOCK_SIZE := 64

  datatype Verdict = Accepted(sp: Spec) | NoCaches | WrongLength | NoTesters | NegativeTesters | NoCacheAtLevel | TooMany

  predicate AllAtLeast(s: seq<int>, least: int) { forall i :: 0 <= i < |s| ==> s[i] >= least }

  method CheckSpec(caches: seq<int>, testers: seq<int>) returns (v: Verdict)
    ensures v == NoCaches <==> caches == []
    ensures v == WrongLength <==> caches != [] && |testers| != |caches| + 1
    ensures v.Accepted? || v in [NoTesters, NegativeTesters, NoCacheAtLevel, TooMany] <==>
            caches != [] && |testers| == |caches| + 1
    ensures v == NoTesters ==> testers[|caches|] == 0
    ensures v == NegativeTesters ==> !AllAtLeast(testers, 0)
    ensures v == NoCacheAtLevel ==> !AllAtLeast(caches, 1)
    ensures v == TooMany ==> AllAtLeast(caches, 1) && AllAtLeast(testers, 0) && Total(caches, testers) > 64
    ensures v.Accepted? ==>
      && testers[|caches|] != 0 && AllAtLeast(caches, 1) && AllAtLeast(testers, 0) && Total(caches, testers) <= 64
      && v.sp == Spec(caches, testers) && v.sp.Valid()
  {
    if |caches| < 1 { return NoCaches; }
    if |caches| != |testers| - 1 { return WrongLength; }
    if testers[|testers| - 1] == 0 { return NoTesters; }
    for i := 0 to |testers|
      invariant AllAtLeast(testers[..i], 0)
    {
      if testers[i] < 0 { return NegativeTesters; }
    }
    assert testers[..|testers|] == testers;
    for i := 0 to |caches|
      invariant AllAtLeast(caches[..i], 1)
    {
      if caches[i] < 1 { return NoCacheAtLevel; }
    }
    assert caches[..|caches|] == caches;
    var total := NumTesters(caches, testers);
    v := if total > BLOCK_SIZE then TooMany else Accepted(Spec(caches, testers));
  }
}
