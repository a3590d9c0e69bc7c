/** The set-associative entangled table: look-up by hashed tag, replacement in FIFO
    order with a second chance for entries that hold information. */
module EntangledTable {
  import opened EntangledFormat
  import opened EntangledHash
  import opened EntangledEntry

  const WAYS := 16

  // One set: its ways and the position of the next replacement.
  datatype Row = Row(ways: seq<Entry>, fifo: nat)

  // Tags other than 0, the tag of entries never used, are unique in a set.
  ghost predicate ValidRow(r: Row) {
    && |r.ways| == WAYS && r.fifo < WAYS
    && (forall w :: 0 <= w < WAYS ==> Valid(r.ways[w]))
    && (forall v, w :: 0 <= v < w < WAYS && r.ways[v].tag == r.ways[w].tag ==> r.ways[v].tag == 0)
  }

  predicate HasDests(e: Entry) {
    exists k :: 0 <= k < |e.conf| && Live(e.conf, k)
  }

  // The first way with the tag, or WAYS.
  function WayOf(ways: seq<Entry>, tag: nat, i: nat): (w: nat)
    requires i <= |ways|
    ensures i <= w <= |ways|
    ensures w < |ways| ==> ways[w].tag == tag
    ensures forall v :: i <= v < w ==> ways[v].tag != tag
    decreases |ways| - i
  {
    if i == |ways| || ways[i].tag == tag then i else WayOf(ways, tag, i + 1)
  }

  method GetWay(ways: seq<Entry>, tag: nat) returns (w: nat)
    ensures w == WayOf(ways, tag, 0)
  {
    w := 0;
    while w < |ways| && ways[w].tag != tag
      invariant 0 <= w <= |ways| && WayOf(ways, tag, w) == WayOf(ways, tag, 0)
    {
      w := w + 1;
    }
  }

  method NoDests(conf: seq<nat>) returns (none: bool)
    ensures none <==> forall k :: 0 <= k < |conf| ==> !Live(conf, k)
  {
    for k := 0 to |conf|
      invariant forall j :: 0 <= j < k ==> !Live(conf, j)
    {
      if conf[k] >= 1 {
        assert Live(conf, k);
        return false;
      }
    }
    return true;
  }

  // ----- replacement -----

  // What a way is worth: destinations count most, then a basic block size.
  function Worth(e: Entry): nat {
    if HasDests(e) then 2 else if e.bbSize != 0 then 1 else 0
  }

  // One way holds information of a kind the other does not have.
  ghost predicate WorthMore(a: Entry, b: Entry) {
    !HasDests(b) && (HasDests(a) || (a.bbSize != 0 && b.bbSize == 0))
  }

  lemma WorthMoreIff(a: Entry, b: Entry)
    ensures WorthMore(a, b) <==> Worth(a) > Worth(b)
  {
  }

  ghost predicate LeastWorthy(ways: seq<Entry>, w: nat)
    requires w < |ways|
  {
    forall v: nat :: v < |ways| ==> !WorthMore(ways[w], ways[v])
  }

  // Steps from one way to another, going round.
  ghost function Steps(from: nat, to: nat): int { if from < to then to - from else to + WAYS - from }

  // l1i_try_realocate_evicted_in_available_entangled_table: the entry about to be
  // replaced moves to the least worthy of the ways without destinations, provided
  // that one is worth less.
  method Reallocate(r: Row) returns (ways: seq<Entry>, moved: nat)
    requires ValidRow(r)
    ensures |ways| == WAYS && moved < WAYS
    // no move
    ensures moved == r.fifo ==> ways == r.ways
    // a move overwrites one way, worth less than what it receives
    ensures moved != r.fifo ==>
      && ways == r.ways[moved := r.ways[r.fifo]]
      && WorthMore(r.ways[r.fifo], r.ways[moved])
    // what is overwritten, or replaced if nothing moves, is among the least worthy
    ensures LeastWorthy(r.ways, moved)
  {
    hide Valid, HasDests;
    var way := r.fifo;
    ways, moved := r.ways, way;
    var bare := NoDests(r.ways[way].conf);
    BareMeans(r.ways[way]);
    if bare && r.ways[way].bbSize == 0 {
      return;
    }
    var freeWay, freeWithSize := way, false;
    var n, done := 1, false;
    while n < WAYS && !done
      invariant 1 <= n <= WAYS && freeWay < WAYS
      invariant freeWay == way ==> !freeWithSize
      invariant freeWay == way ==> forall w: nat :: w < WAYS && Steps(way, w) < n ==> HasDests(r.ways[w])
      invariant freeWay != way ==> !HasDests(r.ways[freeWay]) && (freeWithSize <==> r.ways[freeWay].bbSize != 0)
      invariant freeWay != way && freeWithSize ==>
        forall w: nat :: w < WAYS && Steps(way, w) < n ==> Worth(r.ways[w]) >= 1
      invariant done ==> freeWay != way && !freeWithSize
      decreases WAYS - n, if done then 0 else 1
    {
      var i := (way + n) % WAYS;
      var free := NoDests(r.ways[i].conf);
      BareMeans(r.ways[i]);
      assert i == if way + n < WAYS then way + n else way + n - WAYS;
      assert forall w: nat :: w < WAYS && Steps(way, w) == n ==> w == i;
      if free {
        if freeWay == way {
          freeWay, freeWithSize := i, r.ways[i].bbSize != 0;
        } else if freeWithSize && r.ways[i].bbSize == 0 {
          freeWay, freeWithSize, done := i, false, true;
        }
      }
      n := n + 1;
    }
    assert forall w: nat :: w < WAYS && w != way ==> Steps(way, w) < WAYS;
    if freeWay != way && (!freeWithSize || !bare) {
      ways, moved := r.ways[freeWay := r.ways[way]], freeWay;
    }
    assert forall w: nat :: w < WAYS ==> Worth(r.ways[moved]) <= Worth(r.ways[w]);
    forall w: nat | w < WAYS ensures !WorthMore(r.ways[moved], r.ways[w]) {
      WorthMoreIff(r.ways[moved], r.ways[w]);
    }
    WorthMoreIff(r.ways[way], r.ways[moved]);
  }

  lemma BareMeans(e: Entry)
    ensures HasDests(e) <==> !forall k :: 0 <= k < |e.conf| ==> !Live(e.conf, k)
  {
  }

  // Makes room for a new tag: the entry at the FIFO position is saved if it is
  // worth more than another one, then replaced by a blank entry.
  method Claim(r: Row, tag: nat) returns (s: Row, way: nat)
    requires ValidRow(r) && WayOf(r.ways, tag, 0) == WAYS
    ensures ValidRow(s) && way == r.fifo && s.fifo == (r.fifo + 1) % WAYS
    ensures s.ways[way] == Blank(tag) && WayOf(s.ways, tag, 0) == way
    // the only information lost is that of a least worthy way of the whole set
    ensures Loses(r, s, way)
  {
    var ways, moved := Reallocate(r);
    way := r.fifo;
    s := Row(ways[way := Blank(tag)], (r.fifo + 1) % WAYS);
    ClaimedRow(r, s, tag, moved);
  }

  // Every way but `lost` is still there, at most moved from the FIFO position, and
  // no way was worth less than `lost`.
  ghost predicate LosesOnly(r: Row, s: Row, way: nat, lost: nat)
    requires |r.ways| == WAYS && |s.ways| == WAYS && way < WAYS && lost < WAYS
  {
    && LeastWorthy(r.ways, lost)
    && (forall w: nat :: w < WAYS && w != lost && w != way ==> s.ways[w] == r.ways[w])
    && (lost != way ==> s.ways[lost] == r.ways[way])
  }

  ghost predicate Loses(r: Row, s: Row, way: nat)
    requires |r.ways| == WAYS && |s.ways| == WAYS && way < WAYS
  {
    exists lost: nat :: lost < WAYS && LosesOnly(r, s, way, lost)
  }

  lemma ClaimedRow(r: Row, s: Row, tag: nat, moved: nat)
    requires ValidRow(r) && WayOf(r.ways, tag, 0) == WAYS && moved < WAYS
    requires LeastWorthy(r.ways, moved)
    requires s == Row(r.ways[moved := r.ways[r.fifo]][r.fifo := Blank(tag)], (r.fifo + 1) % WAYS)
    ensures ValidRow(s) && WayOf(s.ways, tag, 0) == r.fifo && LosesOnly(r, s, r.fifo, moved)
  {
    hide Valid, WorthMore, Blank;
    var b := Blank(tag);
    assert b.tag == tag by { BlankTag(tag); }
    assert forall v :: 0 <= v < WAYS ==> r.ways[v].tag != tag;
    assert forall v :: 0 <= v < WAYS && v != r.fifo ==>
             s.ways[v] == (if v == moved then r.ways[r.fifo] else r.ways[v]) && s.ways[v].tag != tag;
    assert s.ways[r.fifo].tag == tag;
    var w := WayOf(s.ways, tag, 0);
    assert w <= r.fifo;
  }

  lemma BlankTag(tag: nat)
    ensures Blank(tag).tag == tag
  {
  }

  // ----- the table -----

  class Table {
    const sets: array<Row>

    ghost predicate Valid()
      reads this, sets
    {
      sets.Length == SETS && forall s :: 0 <= s < SETS ==> ValidRow(sets[s])
    }

    constructor ()
      ensures Valid() && fresh(sets)
      ensures forall s :: 0 <= s < SETS ==> sets[s] == Row(seq(WAYS, i => Blank(0)), 0)
    {
      sets := new Row[SETS](i => Row(seq(WAYS, j => Blank(0)), 0));
    }

    // The entry a line address finds, if any.
    ghost function Find(line: nat): (w: nat)
      requires Valid()
      reads this, sets
      ensures w <= WAYS
    {
      WayOf(sets[SetOf(line)].ways, TagOf(line), 0)
    }

    // The entry of a line, a blank one if it has none.
    ghost function EntryFor(line: nat): (e: Entry)
      requires Valid()
      reads this, sets
      ensures EntangledEntry.Valid(e)
    {
      if Find(line) < WAYS then sets[SetOf(line)].ways[Find(line)] else Blank(TagOf(line))
    }

    // Nothing but the entry of the line has changed, save for a least worthy entry
    // of its set if room had to be made.
    twostate predicate OnlyEntryChanged(line: nat)
      requires old(Valid()) && Valid() && Find(line) < WAYS
      reads this, sets
    {
      var s, way := SetOf(line), Find(line);
      && (forall t :: 0 <= t < SETS && t != s ==> sets[t] == old(sets[t]))
      && (if old(Find(line)) < WAYS then
            way == old(Find(line)) && forall w :: 0 <= w < WAYS && w != way ==> sets[s].ways[w] == old(sets[s].ways[w])
          else Loses(old(sets[s]), sets[s], way))
    }

    // The way of a line, claimed if need be.
    method Locate(line: nat) returns (set_: nat, way: nat)
      requires Valid()
      modifies sets
      ensures Valid() && set_ == SetOf(line) && way < WAYS && Find(line) == way
      ensures forall s :: 0 <= s < SETS && s != set_ ==> sets[s] == old(sets[s])
      ensures old(Find(line)) < WAYS ==> way == old(Find(line)) && sets[set_] == old(sets[set_])
      ensures old(Find(line)) == WAYS ==>
        && sets[set_].ways[way] == Blank(TagOf(line))
        && Loses(old(sets[set_]), sets[set_], way)
    {
      set_ := SetOf(line);
      var tag := TagOf(line);
      way := GetWay(sets[set_].ways, tag);
      if way == WAYS {
        var row;
        row, way := Claim(sets[set_], tag);
        sets[set_] := row;
      }
    }

    // l1i_add_entangled_table
    method AddEntangled(line: nat, dst: nat)
      requires Valid() && IsLine(line) && IsLine(dst)
      modifies sets
      ensures Valid() && Find(line) < WAYS
      ensures Gains(old(EntryFor(line)), EntryFor(line), line, dst)
      ensures OnlyEntryChanged(line)
    {
      hide Loses, EntangledEntry.Valid, Gains;
      var s, way := Locate(line);
      var e := AddDestination(sets[s].ways[way], line, dst);
      StoreEntry(sets[s], way, e);
      LossAfterWrite(old(sets[s]), sets[s], way, e);
      sets[s] := sets[s].(ways := sets[s].ways[way := e]);
    }

    // l1i_add_bbsize_table
    method AddBbSize(line: nat, size: nat)
      requires Valid() && size <= MAX_BB_SIZE
      modifies sets
      ensures Valid() && Find(line) < WAYS
      ensures var e := old(EntryFor(line)); EntryFor(line) == e.(bbSize := if e.bbSize < size then size else e.bbSize)
      ensures OnlyEntryChanged(line)
    {
      hide Loses, HasDests;
      var s, way := Locate(line);
      var e := sets[s].ways[way];
      e := e.(bbSize := if e.bbSize < size then size else e.bbSize);
      SizedEntry(sets[s].ways[way], e.bbSize);
      hide EntangledEntry.Valid;
      StoreEntry(sets[s], way, e);
      LossAfterWrite(old(sets[s]), sets[s], way, e);
      sets[s] := sets[s].(ways := sets[s].ways[way := e]);
    }

    // l1i_get_entangled_addr_entangled_table
    method GetEntangled(line: nat, k: nat) returns (dst: nat, way: nat)
      requires Valid() && k < SLOTS
      ensures way == Find(line)
      ensures dst == if Live(EntryFor(line).conf, k) then Dest(EntryFor(line), line, k) else 0
      ensures dst != 0 ==> way < WAYS && Known(EntryFor(line), line, dst)
    {
      hide Dest;
      way := GetWay(sets[SetOf(line)].ways, TagOf(line));
      dst := 0;
      if way < WAYS {
        var e := sets[SetOf(line)].ways[way];
        if e.conf[k] >= 1 {
          dst := Dest(e, line, k);
        }
      }
    }

    // l1i_update_confidence_entangled_table
    method Adjust(set_: nat, way: nat, dst: nat, accessed: bool)
      requires Valid() && set_ < SETS
      modifies sets
      ensures Valid()
      ensures forall s :: 0 <= s < SETS && s != set_ ==> sets[s] == old(sets[s])
      ensures way >= WAYS ==> sets[set_] == old(sets[set_])
      ensures way < WAYS ==> forall w :: 0 <= w < WAYS && w != way ==> sets[set_].ways[w] == old(sets[set_].ways[w])
      ensures way < WAYS ==> Updated(old(sets[set_].ways[way]), sets[set_].ways[way], dst, accessed)
    {
      hide Adjusted;
      if way < WAYS {
        var e := UpdateConfidence(sets[set_].ways[way], dst, accessed);
        StoreEntry(sets[set_], way, e);
        sets[set_] := sets[set_].(ways := sets[set_].ways[way := e]);
      }
    }
  }

  lemma SizedEntry(e: Entry, size: nat)
    requires Valid(e) && size <= MAX_BB_SIZE
    ensures Valid(e.(bbSize := size))
  {
  }

  // What is lost does not depend on what is then written to the claimed way.
  lemma LossAfterWrite(r: Row, s: Row, way: nat, e: Entry)
    requires |r.ways| == WAYS && |s.ways| == WAYS && way < WAYS
    ensures Loses(r, s, way) ==> Loses(r, s.(ways := s.ways[way := e]), way)
  {
    hide LeastWorthy;
    if Loses(r, s, way) {
      var lost: nat :| lost < WAYS && LosesOnly(r, s, way, lost);
      assert LosesOnly(r, s.(ways := s.ways[way := e]), way, lost);
    }
  }

  // Writing back an entry with its tag leaves every look-up as it was.
  lemma StoreEntry(r: Row, way: nat, e: Entry)
    requires ValidRow(r) && way < WAYS && Valid(e) && e.tag == r.ways[way].tag
    ensures var s := r.(ways := r.ways[way := e]);
      ValidRow(s) && forall tag :: WayOf(s.ways, tag, 0) == WayOf(r.ways, tag, 0)
  {
    hide Valid;
    var s := r.(ways := r.ways[way := e]);
    assert forall w :: 0 <= w < WAYS ==> s.ways[w].tag == r.ways[w].tag;
    forall tag ensures WayOf(s.ways, tag, 0) == WayOf(r.ways, tag, 0) {
      SameTags(s.ways, r.ways, tag, 0);
    }
  }

  lemma {:induction false} SameTags(a: seq<Entry>, b: seq<Entry>, tag: nat, i: nat)
    requires |a| == |b| && i <= |a| && forall w :: 0 <= w < |a| ==> a[w].tag == b[w].tag
    ensures WayOf(a, tag, i) == WayOf(b, tag, i)
    decreases |a| - i
  {
    if i < |a| && a[i].tag != tag { SameTags(a, b, tag, i + 1); }
  }
}
