/** Merging several checkpoints into one: the memory images are laid end to end,
    physical addresses are shifted accordingly, and the cpu sections are renamed
    so that they do not clash. */
module Aggregator {
  import opened Arithmetic
  import opened Options
  import opened Text

  type Byte = b: int | 0 <= b < 256

  const PAGE := 4096

  datatype Item = Paddr(addr: nat) | Entry(key: string, value: string)
  datatype Section = Section(name: string, items: seq<Item>)

  // `pages` is the page count the checkpoint states, `mem` the bytes its memory
  // file really holds.
  datatype Checkpoint = Checkpoint(sections: seq<Section>, pages: nat, mem: seq<Byte>, curTick: int)

  // ----- section names -----

  predicate StartsCpu(s: string) { |s| >= 3 && s[..3] == "cpu" }

  predicate HasCpu(s: string) {
    s != [] && (StartsCpu(s) || HasCpu(s[1..]))
  }

  // "cpu" stands at index i.
  ghost predicate CpuAt(s: string, i: int) { 0 <= i <= |s| - 3 && s[i] == 'c' && s[i + 1] == 'p' && s[i + 2] == 'u' }

  lemma {:induction false} HasCpuIff(s: string)
    ensures HasCpu(s) <==> exists i :: CpuAt(s, i)
  {
    if s == [] {
    } else {
      HasCpuIff(s[1..]);
      assert StartsCpu(s) <==> CpuAt(s, 0);
      hide StartsCpu;
      assert forall i :: i > 0 ==> (CpuAt(s, i) <==> CpuAt(s[1..], i - 1));
      if i :| CpuAt(s[1..], i) {
        assert CpuAt(s, i + 1);
      }
      hide CpuAt;
    }
  }

  // re.sub("cpu", "cpu" + tag, s)
  function Rename(s: string, tag: string): string {
    if s == [] then []
    else if StartsCpu(s) then "cpu" + tag + Rename(s[3..], tag)
    else [s[0]] + Rename(s[1..], tag)
  }

  function Zeros(n: nat): (r: string)
    ensures |r| == n && forall i :: 0 <= i < n ==> r[i] == '0'
  {
    seq(n, i => '0')
  }

  // str(i).zfill(len(str(n - 1)))
  function TagOf(i: nat, n: nat): string
    requires i < n
  {
    var d, w := Decimal(i), |Decimal(n - 1)|;
    if |d| < w then Zeros(w - |d|) + d else d
  }

  lemma {:induction false} DecimalLength(a: nat, b: nat)
    requires a <= b
    ensures |Decimal(a)| <= |Decimal(b)|
  {
    if b >= 10 && a >= 10 { DecimalLength(a / 10, b / 10); }
  }

  lemma {:induction false} LeadingZeros(k: nat, s: string)
    ensures Value(Zeros(k) + s) == Value(s)
    decreases k + |s|
  {
    if s == [] {
      assert Zeros(k) + s == Zeros(k);
      if k > 0 {
        assert Zeros(k)[..k - 1] == Zeros(k - 1) + [];
        LeadingZeros(k - 1, []);
      }
    } else {
      LeadingZeros(k, s[..|s| - 1]);
      var z := Zeros(k) + s;
      assert z[..|z| - 1] == Zeros(k) + s[..|s| - 1];
    }
  }

  // Tags have one width and tell checkpoints apart.
  lemma TagFacts(i: nat, n: nat)
    requires i < n
    ensures |TagOf(i, n)| == |Decimal(n - 1)| && Value(TagOf(i, n)) == Some(i)
  {
    DecimalLength(i, n - 1);
    DecimalDigits(i);
    if |Decimal(i)| < |Decimal(n - 1)| {
      LeadingZeros(|Decimal(n - 1)| - |Decimal(i)|, Decimal(i));
    }
  }

  lemma RenameHead(s: string, tag: string)
    ensures Rename(s, tag) == [] <==> s == []
    ensures s != [] ==> Rename(s, tag)[0] == s[0]
  {
  }

  lemma RenameStarts(s: string, tag: string)
    ensures StartsCpu(Rename(s, tag)) <==> StartsCpu(s)
  {
    var r := Rename(s, tag);
    if StartsCpu(s) {
      assert r[..3] == "cpu";
    } else if s != [] {
      assert r == [s[0]] + Rename(s[1..], tag);
      RenameHead(s[1..], tag);
      if s[1..] != [] && !StartsCpu(s[1..]) {
        assert Rename(s[1..], tag) == [s[1]] + Rename(s[2..], tag) by { assert s[1..][1..] == s[2..]; }
        RenameHead(s[2..], tag);
      }
      CpuLetters(r);
      CpuLetters(s);
      if StartsCpu(s[1..]) { CpuLetters(s[1..]); }
    }
  }

  lemma CpuLetters(s: string)
    ensures StartsCpu(s) <==> |s| >= 3 && s[0] == 'c' && s[1] == 'p' && s[2] == 'u'
  {
    if |s| >= 3 { assert s[..3] == [s[0], s[1], s[2]]; }
  }

  // Renaming is injective in the name, and in the tag as soon as it is used.
  lemma {:induction false} RenameInjective(s: string, d: string, t: string, e: string)
    requires |d| == |e| && Rename(s, d) == Rename(t, e)
    ensures s == t && (HasCpu(s) ==> d == e)
    decreases |s|
  {
    RenameHead(s, d);
    RenameHead(t, e);
    RenameStarts(s, d);
    RenameStarts(t, e);
    if s == [] {
    } else {
      if StartsCpu(s) {
        var x, y := Rename(s[3..], d), Rename(t[3..], e);
        assert ("cpu" + d + x)[3..] == d + x && ("cpu" + e + y)[3..] == e + y;
        assert d == (d + x)[..|d|] && e == (e + y)[..|e|];
        assert x == (d + x)[|d|..] && y == (e + y)[|e|..];
        RenameInjective(s[3..], d, t[3..], e);
        assert s == s[..3] + s[3..] && t == t[..3] + t[3..];
      } else {
        assert Rename(s[1..], d) == Rename(s, d)[1..] == Rename(t, e)[1..] == Rename(t[1..], e);
        RenameInjective(s[1..], d, t[1..], e);
        assert s == [s[0]] + s[1..] && t == [t[0]] + t[1..];
      }
    }
  }

  // No two cpu sections of the merged checkpoint have one name, whether they come
  // from one checkpoint or from two.
  lemma RenamedSectionsDistinct(s: string, i: nat, t: string, j: nat, n: nat)
    requires i < n && j < n && HasCpu(s) && HasCpu(t)
    ensures Rename(s, TagOf(i, n)) == Rename(t, TagOf(j, n)) <==> s == t && i == j
  {
    TagFacts(i, n);
    TagFacts(j, n);
    if Rename(s, TagOf(i, n)) == Rename(t, TagOf(j, n)) {
      RenameInjective(s, TagOf(i, n), t, TagOf(j, n));
    }
  }

  lemma {:induction false} RenamedHasCpu(s: string, tag: string)
    requires HasCpu(s)
    ensures HasCpu(Rename(s, tag))
  {
    RenameStarts(s, tag);
    if !StartsCpu(s) {
      RenamedHasCpu(s[1..], tag);
      assert Rename(s, tag)[1..] == Rename(s[1..], tag);
    }
  }

  // ----- memory -----

  function PagesBefore(cpts: seq<Checkpoint>, i: nat): nat
    requires i <= |cpts|
  {
    if i == 0 then 0 else PagesBefore(cpts, i - 1) + cpts[i - 1].pages
  }

  // What reading `pages` pages from a checkpoint's memory file yields.
  function Chunk(c: Checkpoint): seq<Byte> {
    if PAGE * c.pages <= |c.mem| then c.mem[..PAGE * c.pages] else c.mem
  }

  function Image(cpts: seq<Checkpoint>, i: nat): seq<Byte>
    requires i <= |cpts|
  {
    if i == 0 then [] else Image(cpts, i - 1) + Chunk(cpts[i - 1])
  }

  // The filler written up to the requested memory size: pages of '0' characters.
  function Padding(pages: nat): (r: seq<Byte>)
    ensures |r| == PAGE * pages && forall i :: 0 <= i < |r| ==> r[i] == '0' as int
  {
    seq(PAGE * pages, i => 48)
  }

  function PadPages(used: nat, memorySize: nat): nat
    decreases memorySize - PAGE * used
  {
    if PAGE * used < memorySize then 1 + PadPages(used + 1, memorySize) else 0
  }

  ghost predicate Backed(c: Checkpoint) { PAGE * c.pages <= |c.mem| }

  // The image of checkpoint i starts where its addresses are shifted to exactly
  // when every earlier checkpoint holds all the pages it claims.
  lemma {:induction false} ImageStartIff(cpts: seq<Checkpoint>, i: nat)
    requires i <= |cpts|
    ensures |Image(cpts, i)| <= PAGE * PagesBefore(cpts, i)
    ensures |Image(cpts, i)| == PAGE * PagesBefore(cpts, i) <==> forall j :: 0 <= j < i ==> Backed(cpts[j])
  {
    if i == 0 {
    } else {
      ImageStartIff(cpts, i - 1);
    }
  }

  lemma {:induction false} ImageKeeps(cpts: seq<Checkpoint>, i: nat, n: nat)
    requires i < n <= |cpts|
    ensures Image(cpts, i) + Chunk(cpts[i]) <= Image(cpts, n)
    decreases n
  {
    if i + 1 < n { ImageKeeps(cpts, i, n - 1); }
  }

  function Shift(cpts: seq<Checkpoint>, i: nat): nat
    requires i <= |cpts|
  {
    PAGE * PagesBefore(cpts, i)
  }

  // With all pages backed, the merged memory holds at a relocated address what the
  // source held at the original one.
  lemma RelocationIsFaithful(cpts: seq<Checkpoint>, i: nat, addr: nat, tail: seq<Byte>)
    requires i < |cpts| && addr < PAGE * cpts[i].pages
    requires Backed(cpts[i]) && forall j :: 0 <= j < i ==> Backed(cpts[j])
    ensures var merged := Image(cpts, |cpts|) + tail;
      addr + Shift(cpts, i) < |merged| && merged[addr + Shift(cpts, i)] == cpts[i].mem[addr]
  {
    hide Image;
    ImageStartIff(cpts, i);
    ImageKeeps(cpts, i, |cpts|);
    var start := Image(cpts, i);
    var front := start + Chunk(cpts[i]);
    assert front[addr + |start|] == Chunk(cpts[i])[addr] == cpts[i].mem[addr];
    var all := Image(cpts, |cpts|);
    assert all[addr + |start|] == front[addr + |start|];
  }

  // Relocated regions of different checkpoints do not overlap.
  lemma {:induction false} RegionsDisjoint(cpts: seq<Checkpoint>, i: nat, j: nat)
    requires i < j <= |cpts|
    ensures Shift(cpts, i) + PAGE * cpts[i].pages <= Shift(cpts, j)
  {
    if i + 1 < j { RegionsDisjoint(cpts, i, j - 1); }
  }

  // ----- sections -----

  function MoveItem(item: Item, shift: nat): Item {
    match item
    case Paddr(a) => Paddr(a + shift)
    case Entry(_, _) => item
  }

  function MoveItems(items: seq<Item>, shift: nat): (r: seq<Item>)
    ensures |r| == |items| && forall k :: 0 <= k < |r| ==> r[k] == MoveItem(items[k], shift)
  {
    seq(|items|, k requires 0 <= k < |items| => MoveItem(items[k], shift))
  }

  // re.compile("workload.FdMap256$").search; the dot stands for any character.
  predicate IsFdMap(name: string) {
    |name| >= 17 && name[|name| - 17..|name| - 9] == "workload" && name[|name| - 8..] == "FdMap256"
  }

  lemma FdMapIff(name: string)
    ensures IsFdMap(name) <==> exists a: string, c: char :: name == a + "workload" + [c] + "FdMap256"
  {
    if IsFdMap(name) {
      var a, c := name[..|name| - 17], name[|name| - 9];
      assert name == a + name[|name| - 17..|name| - 9] + [c] + name[|name| - 8..];
    }
  }

  const PID_KEY := "M5_pid"

  predicate IsPid(item: Item) { item.Entry? && item.key == PID_KEY }

  // Setting an option replaces it in place or appends it.
  function WithPid(items: seq<Item>, pid: nat): seq<Item> {
    if items == [] then [Entry(PID_KEY, Decimal(pid))]
    else if IsPid(items[0]) then [Entry(PID_KEY, Decimal(pid))] + items[1..]
    else [items[0]] + WithPid(items[1..], pid)
  }

  // The option has the number, and every other item stays where it is.
  lemma {:induction false} WithPidSets(items: seq<Item>, pid: nat)
    ensures Entry("M5_pid", Decimal(pid)) in WithPid(items, pid)
    ensures |items| <= |WithPid(items, pid)| <= |items| + 1
  {
    if items == [] || IsPid(items[0]) {
    } else {
      WithPidSets(items[1..], pid);
    }
  }

  lemma {:induction false} WithPidKeeps(items: seq<Item>, pid: nat, k: nat)
    requires k < |items| && !(items[k].Entry? && items[k].key == "M5_pid")
    ensures k < |WithPid(items, pid)| && WithPid(items, pid)[k] == items[k]
  {
    if k == 0 || IsPid(items[0]) {
    } else {
      WithPidKeeps(items[1..], pid, k - 1);
    }
  }

  // Sections of CPUs are copied from every checkpoint, others from the last one;
  // two are made anew.
  predicate Copied(cpts: seq<Checkpoint>, i: nat, name: string) {
    HasCpu(name) || (i + 1 == |cpts| && name != "system" && name != "Globals")
  }

  function CopySection(cpts: seq<Checkpoint>, i: nat, s: Section): Section
    requires i < |cpts|
  {
    if HasCpu(s.name) then
      var items := MoveItems(s.items, Shift(cpts, i));
      Section(Rename(s.name, TagOf(i, |cpts|)), if IsFdMap(s.name) then WithPid(items, i) else items)
    else s
  }

  // What the first k sections of checkpoint i contribute.
  function SectionsOf(cpts: seq<Checkpoint>, i: nat, k: nat): seq<Section>
    requires i < |cpts| && k <= |cpts[i].sections|
  {
    if k == 0 then []
    else
      var s := cpts[i].sections[k - 1];
      SectionsOf(cpts, i, k - 1) + (if Copied(cpts, i, s.name) then [CopySection(cpts, i, s)] else [])
  }

  function AllSections(cpts: seq<Checkpoint>, i: nat): seq<Section>
    requires i <= |cpts|
  {
    if i == 0 then [] else AllSections(cpts, i - 1) + SectionsOf(cpts, i - 1, |cpts[i - 1].sections|)
  }

  // A CPU section is copied item by item, addresses moved past the pages before;
  // only where it describes open files it also gets the number of its checkpoint.
  lemma CopiedItems(cpts: seq<Checkpoint>, i: nat, s: Section)
    requires i < |cpts| && HasCpu(s.name)
    ensures var c, files := CopySection(cpts, i, s), IsFdMap(s.name);
      && |s.items| <= |c.items| && (!files ==> |c.items| == |s.items|)
      && (files ==> Entry("M5_pid", Decimal(i)) in c.items)
      && (forall k :: 0 <= k < |s.items| && s.items[k].Paddr? ==>
           c.items[k] == Paddr(PAGE * PagesBefore(cpts, i) + s.items[k].addr))
      && (forall k :: 0 <= k < |s.items| && s.items[k].Entry? && !(files && s.items[k].key == "M5_pid") ==>
           c.items[k] == s.items[k])
  {
    hide HasCpu, IsFdMap, PagesBefore, Rename, TagOf;
    var items := MoveItems(s.items, Shift(cpts, i));
    WithPidSets(items, i);
    forall k | 0 <= k < |items| && !(items[k].Entry? && items[k].key == "M5_pid")
      ensures k < |WithPid(items, i)| && WithPid(items, i)[k] == items[k]
    {
      WithPidKeeps(items, i, k);
    }
    hide WithPid;
  }

  // The merged section x comes from section k of checkpoint i: a CPU section of any
  // checkpoint, or another one of the last, as it is, but for system and Globals.
  ghost predicate ComesFrom(cpts: seq<Checkpoint>, i: nat, k: nat, x: Section) {
    && i < |cpts| && k < |cpts[i].sections|
    && var s := cpts[i].sections[k];
      if HasCpu(s.name) then x == CopySection(cpts, i, s)
      else x == s && i == |cpts| - 1 && s.name !in ["system", "Globals"]
  }

  lemma SectionsOfStep(cpts: seq<Checkpoint>, i: nat, n: nat, x: Section)
    requires i < |cpts| && 0 < n <= |cpts[i].sections|
    ensures x in SectionsOf(cpts, i, n) <==> x in SectionsOf(cpts, i, n - 1) || ComesFrom(cpts, i, n - 1, x)
  {
    hide HasCpu;
    var s := cpts[i].sections[n - 1];
    assert ComesFrom(cpts, i, n - 1, x) <==> Copied(cpts, i, s.name) && x == CopySection(cpts, i, s);
    hide ComesFrom, Copied, CopySection;
  }

  lemma NoSectionsOf(cpts: seq<Checkpoint>, i: nat)
    requires i < |cpts|
    ensures SectionsOf(cpts, i, 0) == []
  {
  }

  lemma {:induction false} SectionsOfIff(cpts: seq<Checkpoint>, i: nat, n: nat, x: Section)
    requires i < |cpts| && n <= |cpts[i].sections|
    ensures x in SectionsOf(cpts, i, n) <==> exists k: nat :: k < n && ComesFrom(cpts, i, k, x)
  {
    hide *;
    if n == 0 {
      NoSectionsOf(cpts, i);
    } else {
      SectionsOfIff(cpts, i, n - 1, x);
      SectionsOfStep(cpts, i, n, x);
    }
  }

  ghost predicate FromCheckpoint(cpts: seq<Checkpoint>, i: nat, x: Section) {
    exists k: nat :: ComesFrom(cpts, i, k, x)
  }

  lemma AllSectionsStep(cpts: seq<Checkpoint>, i: nat, x: Section)
    requires i < |cpts|
    ensures x in AllSections(cpts, i + 1) <==> x in AllSections(cpts, i) || FromCheckpoint(cpts, i, x)
  {
    SectionsOfIff(cpts, i, |cpts[i].sections|, x);
    assert forall k: nat :: ComesFrom(cpts, i, k, x) ==> k < |cpts[i].sections|;
    hide ComesFrom, SectionsOf;
  }

  lemma NoSections(cpts: seq<Checkpoint>)
    ensures AllSections(cpts, 0) == []
  {
  }

  lemma {:induction false} MergedSectionsIff(cpts: seq<Checkpoint>, n: nat, x: Section)
    requires n <= |cpts|
    ensures x in AllSections(cpts, n) <==> exists i: nat :: i < n && FromCheckpoint(cpts, i, x)
  {
    hide *;
    if n == 0 {
      NoSections(cpts);
    } else {
      MergedSectionsIff(cpts, n - 1, x);
      AllSectionsStep(cpts, n - 1, x);
    }
  }

  // Copied sections collide only where the checkpoint itself has a name twice.
  lemma CopiedSectionsDistinct(cpts: seq<Checkpoint>, i: nat, s: Section, j: nat, t: Section)
    requires i < |cpts| && j < |cpts| && Copied(cpts, i, s.name) && Copied(cpts, j, t.name)
    ensures CopySection(cpts, i, s).name == CopySection(cpts, j, t).name <==> s.name == t.name && i == j
  {
    hide Rename, TagOf, HasCpu;
    if HasCpu(s.name) { RenamedHasCpu(s.name, TagOf(i, |cpts|)); }
    if HasCpu(t.name) { RenamedHasCpu(t.name, TagOf(j, |cpts|)); }
    if HasCpu(s.name) && HasCpu(t.name) {
      RenamedSectionsDistinct(s.name, i, t.name, j, |cpts|);
    }
  }

  function LatestTick(cpts: seq<Checkpoint>, i: nat): int
    requires i <= |cpts|
  {
    if i == 0 then 0
    else
      var before := LatestTick(cpts, i - 1);
      if cpts[i - 1].curTick > before then cpts[i - 1].curTick else before
  }

  // It is the latest of all ticks, or zero.
  lemma {:induction false} LatestTickIs(cpts: seq<Checkpoint>, i: nat)
    requires i <= |cpts|
    ensures forall k :: 0 <= k < i ==> cpts[k].curTick <= LatestTick(cpts, i)
    ensures 0 <= LatestTick(cpts, i)
    ensures LatestTick(cpts, i) == 0 || exists k :: 0 <= k < i && cpts[k].curTick == LatestTick(cpts, i)
  {
    if i == 0 {
    } else {
      LatestTickIs(cpts, i - 1);
    }
  }

  datatype Merged = Merged(sections: seq<Section>, mem: seq<Byte>, pagePtr: nat, nextPid: nat, rangeSize: nat, curTick: int)

  function Merge(cpts: seq<Checkpoint>, memorySize: nat): Merged {
    var n := |cpts|;
    var used := PagesBefore(cpts, n);
    var pad := PadPages(used, memorySize);
    Merged(AllSections(cpts, n), Image(cpts, n) + Padding(pad), used, n, PAGE * (used + pad), LatestTick(cpts, n))
  }

  // The stated range size is the size of the memory file exactly when every
  // checkpoint is backed; it covers the requested memory size in any case.
  lemma RangeSizeIff(cpts: seq<Checkpoint>, memorySize: nat)
    ensures var m := Merge(cpts, memorySize);
      && (m.rangeSize == |m.mem| <==> forall j :: 0 <= j < |cpts| ==> Backed(cpts[j]))
      && m.rangeSize >= memorySize
  {
    hide Image;
    ImageStartIff(cpts, |cpts|);
    PadCovers(PagesBefore(cpts, |cpts|), memorySize);
  }

  lemma {:induction false} PadCovers(used: nat, memorySize: nat)
    ensures PAGE * (used + PadPages(used, memorySize)) >= memorySize
    ensures PadPages(used, memorySize) > 0 ==> PAGE * (used + PadPages(used, memorySize) - 1) < memorySize
    decreases memorySize - PAGE * used
  {
    if PAGE * used < memorySize { PadCovers(used + 1, memorySize); }
  }

  // The numbers written beside the sections leave room for every checkpoint: its
  // process number, its pages and its tick; the padding is no more than is asked for.
  lemma MergedHeader(cpts: seq<Checkpoint>, memorySize: nat, i: nat)
    requires i < |cpts|
    ensures var m := Merge(cpts, memorySize);
      && (if i + 1 == |cpts| then m.nextPid == i + 1 else m.nextPid > i + 1)
      && Shift(cpts, i) + PAGE * cpts[i].pages <= PAGE * m.pagePtr <= m.rangeSize
      && (i + 1 == |cpts| ==> Shift(cpts, i) + PAGE * cpts[i].pages == PAGE * m.pagePtr)
      && (PAGE * m.pagePtr < m.rangeSize ==> m.rangeSize < memorySize + PAGE)
      && cpts[i].curTick <= m.curTick
  {
    hide Image, AllSections, Padding;
    RegionsDisjoint(cpts, i, |cpts|);
    PadCovers(PagesBefore(cpts, |cpts|), memorySize);
    LatestTickIs(cpts, |cpts|);
  }

  // A physical address stated in a cpu section of any checkpoint appears moved in
  // the merged sections, and the merged memory there is the source's memory.
  lemma AddressesFollowMemory(cpts: seq<Checkpoint>, memorySize: nat, i: nat, k: nat, q: nat)
    requires i < |cpts| && k < |cpts[i].sections| && HasCpu(cpts[i].sections[k].name)
    requires q < |cpts[i].sections[k].items|
    requires var it := cpts[i].sections[k].items[q]; it.Paddr? && it.addr < PAGE * cpts[i].pages
    requires Backed(cpts[i]) && forall j :: 0 <= j < i ==> Backed(cpts[j])
    ensures var m, addr := Merge(cpts, memorySize), cpts[i].sections[k].items[q].addr;
      exists s :: s in m.sections && s.name == Rename(cpts[i].sections[k].name, TagOf(i, |cpts|))
        && q < |s.items| && s.items[q].Paddr? && s.items[q].addr < |m.mem|
        && m.mem[s.items[q].addr] == cpts[i].mem[addr]
  {
    hide Image, Rename, TagOf, HasCpu, PadPages, WithPid, IsFdMap;
    var sec := cpts[i].sections[k];
    var s := CopySection(cpts, i, sec);
    SectionAppears(cpts, i, k, |cpts[i].sections|);
    SectionsKept(cpts, i, |cpts|, s);
    var pad := PadPages(PagesBefore(cpts, |cpts|), memorySize);
    RelocationIsFaithful(cpts, i, sec.items[q].addr, Padding(pad));
    assert MoveItems(sec.items, Shift(cpts, i))[q].Paddr?;
    WithPidKeeps(MoveItems(sec.items, Shift(cpts, i)), i, q);
    assert s.items[q] == Paddr(sec.items[q].addr + Shift(cpts, i));
    assert s in Merge(cpts, memorySize).sections;
  }

  lemma {:induction false} SectionAppears(cpts: seq<Checkpoint>, i: nat, k: nat, n: nat)
    requires i < |cpts| && k < n <= |cpts[i].sections| && Copied(cpts, i, cpts[i].sections[k].name)
    ensures CopySection(cpts, i, cpts[i].sections[k]) in SectionsOf(cpts, i, n)
    decreases n
  {
    if k + 1 < n { SectionAppears(cpts, i, k, n - 1); }
  }

  lemma {:induction false} SectionsKept(cpts: seq<Checkpoint>, i: nat, n: nat, s: Section)
    requires i < n <= |cpts| && s in SectionsOf(cpts, i, |cpts[i].sections|)
    ensures s in AllSections(cpts, n)
    decreases n
  {
    if i + 1 < n { SectionsKept(cpts, i, n - 1, s); }
  }

  // ----- the program -----

  method CopyPages(c: Checkpoint) returns (out: seq<Byte>)
    ensures out == Chunk(c)
  {
    out := [];
    var pos := 0;
    for x := 0 to c.pages
      invariant 0 <= pos <= |c.mem| && out == c.mem[..pos]
      invariant pos == if PAGE * x <= |c.mem| then PAGE * x else |c.mem|
    {
      var end := if pos + PAGE <= |c.mem| then pos + PAGE else |c.mem|;
      out := out + c.mem[pos..end];
      pos := end;
    }
    assert c.mem[..|c.mem|] == c.mem;
  }

  method CopyItems(items: seq<Item>, pagePtr: nat) returns (r: seq<Item>)
    ensures r == MoveItems(items, PAGE * pagePtr)
  {
    r := [];
    for k := 0 to |items|
      invariant |r| == k && forall j :: 0 <= j < k ==> r[j] == MoveItem(items[j], PAGE * pagePtr)
    {
      match items[k]
      case Paddr(a) => r := r + [Paddr(a + PAGE * pagePtr)];
      case Entry(_, _) => r := r + [items[k]];
    }
  }

  lemma WithPidSkips(items: seq<Item>, k: nat, pid: nat)
    requires k < |items| && !IsPid(items[k])
    ensures items[..k] + WithPid(items[k..], pid) == items[..k + 1] + WithPid(items[k + 1..], pid)
  {
    var w := WithPid(items[k + 1..], pid);
    assert items[k..][1..] == items[k + 1..];
    assert items[..k + 1] == items[..k] + [items[k]];
    assert items[..k] + ([items[k]] + w) == (items[..k] + [items[k]]) + w;
  }

  method SetPid(items: seq<Item>, pid: nat) returns (r: seq<Item>)
    ensures r == WithPid(items, pid)
  {
    hide Decimal;
    assert items[..0] + WithPid(items[0..], pid) == WithPid(items, pid) by { assert items[0..] == items; }
    var k := 0;
    while k < |items| && !IsPid(items[k])
      invariant 0 <= k <= |items| && items[..k] + WithPid(items[k..], pid) == WithPid(items, pid)
    {
      WithPidSkips(items, k, pid);
      k := k + 1;
    }
    r := items[..k] + [Entry(PID_KEY, Decimal(pid))];
    if k < |items| {
      assert items[k..][1..] == items[k + 1..];
      r := items[..k] + ([Entry(PID_KEY, Decimal(pid))] + items[k + 1..]);
    }
  }

  method Aggregate(cpts: seq<Checkpoint>, memorySize: nat) returns (m: Merged)
    ensures m == Merge(cpts, memorySize)
  {
    hide Rename, TagOf, HasCpu, Chunk, IsFdMap;
    var sections, mem, pagePtr, tick := [], [], 0, 0;
    for i := 0 to |cpts|
      invariant sections == AllSections(cpts, i) && mem == Image(cpts, i)
      invariant pagePtr == PagesBefore(cpts, i) && tick == LatestTick(cpts, i)
    {
      var c := cpts[i];
      var mine := [];
      for k := 0 to |c.sections|
        invariant mine == SectionsOf(cpts, i, k)
      {
        var s := c.sections[k];
        if HasCpu(s.name) {
          var items := CopyItems(s.items, pagePtr);
          if IsFdMap(s.name) {
            items := SetPid(items, i);
          }
          mine := mine + [Section(Rename(s.name, TagOf(i, |cpts|)), items)];
        } else if s.name != "system" && s.name != "Globals" && i == |cpts| - 1 {
          mine := mine + [s];
        } else {
          assert mine + [] == mine;
        }
      }
      sections := sections + mine;
      if c.curTick > tick {
        tick := c.curTick;
      }
      pagePtr := pagePtr + c.pages;
      var chunk := CopyPages(c);
      mem := mem + chunk;
    }
    var padded := Pad(mem, pagePtr, memorySize);
    m := Merged(sections, padded.0, pagePtr, |cpts|, PAGE * padded.1, tick);
  }

  method Pad(mem0: seq<Byte>, used: nat, memorySize: nat) returns (r: (seq<Byte>, nat))
    ensures var pad := PadPages(used, memorySize); r == (mem0 + Padding(pad), used + pad)
    ensures PAGE * r.1 >= memorySize && (r.1 > used ==> PAGE * (r.1 - 1) < memorySize)
    ensures |r.0| == |mem0| + PAGE * (r.1 - used) && forall i :: |mem0| <= i < |r.0| ==> r.0[i] == '0' as int
  {
    PadCovers(used, memorySize);
    var mem, pages, size := mem0, used, PAGE * used;
    assert mem0 + Padding(0) == mem0;
    while size < memorySize
      invariant size == PAGE * pages && used <= pages
      invariant pages + PadPages(pages, memorySize) == used + PadPages(used, memorySize)
      invariant mem == mem0 + Padding(pages - used)
      decreases memorySize - size
    {
      assert Padding(pages - used) + Padding(1) == Padding(pages + 1 - used);
      mem := mem + Padding(1);
      size := size + PAGE;
      pages := pages + 1;
    }
    r := (mem, pages);
  }
}
