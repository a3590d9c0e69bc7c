/** Binding the ports of a system read back from a configuration file.

    Every connection is listed twice, once from each end.  Vector port elements
    can only be bound in index order, so a single pass over the sorted list binds
    a connection when both ends are next in line on their ports. */
module PortBinder {
  import opened Options


  datatype End = End(obj: string, port: string, index: nat) {
    function Key(): (string, string) { (obj, port) }
  }

  type Conn = (End, End)

  // ----- sorted(connections): on object name, port name, index -----

  predicate StringBefore(a: string, b: string) {
    if b == [] then false
    else if a == [] then true
    else a[0] < b[0] || (a[0] == b[0] && StringBefore(a[1..], b[1..]))
  }

  predicate EndBefore(a: End, b: End) {
    || StringBefore(a.obj, b.obj)
    || (a.obj == b.obj && (StringBefore(a.port, b.port) || (a.port == b.port && a.index < b.index)))
  }

  predicate ConnBefore(a: Conn, b: Conn) {
    EndBefore(a.0, b.0) || (a.0 == b.0 && EndBefore(a.1, b.1))
  }

  function InsertConn(c: Conn, s: seq<Conn>): seq<Conn> {
    if s == [] then [c]
    else if ConnBefore(c, s[0]) then [c] + s
    else [s[0]] + InsertConn(c, s[1..])
  }

  function SortConns(s: seq<Conn>): seq<Conn> {
    if s == [] then [] else InsertConn(s[|s| - 1], SortConns(s[..|s| - 1]))
  }

  lemma {:induction false} InsertConnPermutes(c: Conn, s: seq<Conn>)
    ensures multiset(InsertConn(c, s)) == multiset(s) + multiset{c}
  {
    if s == [] {
    } else {
      assert s == [s[0]] + s[1..];
      if !ConnBefore(c, s[0]) { InsertConnPermutes(c, s[1..]); }
    }
  }

  lemma {:induction false} SortPermutes(s: seq<Conn>)
    ensures multiset(SortConns(s)) == multiset(s)
  {
    if s == [] {
    } else {
      var p, c := s[..|s| - 1], s[|s| - 1];
      SortPermutes(p);
      InsertConnPermutes(c, SortConns(p));
      assert s == p + [c];
    }
  }

  lemma {:induction false} StringTransitive(a: string, b: string, c: string)
    requires StringBefore(a, b) && StringBefore(b, c)
    ensures StringBefore(a, c)
  {
    if a != [] && a[0] == b[0] == c[0] { StringTransitive(a[1..], b[1..], c[1..]); }
  }

  lemma EndTransitive(a: End, b: End, c: End)
    requires EndBefore(a, b) && EndBefore(b, c)
    ensures EndBefore(a, c)
  {
    if StringBefore(a.obj, b.obj) && StringBefore(b.obj, c.obj) { StringTransitive(a.obj, b.obj, c.obj); }
    if StringBefore(a.port, b.port) && StringBefore(b.port, c.port) { StringTransitive(a.port, b.port, c.port); }
  }

  lemma ConnTransitive(a: Conn, b: Conn, c: Conn)
    requires ConnBefore(a, b) && ConnBefore(b, c)
    ensures ConnBefore(a, c)
  {
    if EndBefore(a.0, b.0) && EndBefore(b.0, c.0) { EndTransitive(a.0, b.0, c.0); }
    if EndBefore(a.1, b.1) && EndBefore(b.1, c.1) { EndTransitive(a.1, b.1, c.1); }
  }

  ghost predicate SortedConns(s: seq<Conn>) {
    forall i, j :: 0 <= i < j < |s| ==> !ConnBefore(s[j], s[i])
  }

  lemma {:induction false} InsertKeepsSorted(c: Conn, s: seq<Conn>)
    requires SortedConns(s)
    ensures SortedConns(InsertConn(c, s))
  {
    hide ConnBefore;
    if s == [] {
    } else if ConnBefore(c, s[0]) {
      forall j | 0 <= j < |s| ensures !ConnBefore(s[j], c) {
        if ConnBefore(s[j], c) {
          ConnTransitive(s[j], c, s[0]);
          if j == 0 { NotBeforeItself(s[0]); }
        }
      }
    } else {
      InsertKeepsSorted(c, s[1..]);
      InsertConnPermutes(c, s[1..]);
      var t := InsertConn(c, s[1..]);
      forall j | 0 <= j < |t| ensures !ConnBefore(t[j], s[0]) {
        assert t[j] in multiset(t);
        assert t[j] == c || t[j] in s[1..];
      }
    }
  }

  lemma {:induction false} StringIrreflexive(a: string)
    ensures !StringBefore(a, a)
  {
    if a == [] {
    } else {
      StringIrreflexive(a[1..]);
    }
  }

  lemma NotBeforeItself(c: Conn)
    ensures !ConnBefore(c, c)
  {
    StringIrreflexive(c.0.obj);
    StringIrreflexive(c.0.port);
    StringIrreflexive(c.1.obj);
    StringIrreflexive(c.1.port);
  }

  lemma {:induction false} SortSorts(s: seq<Conn>)
    ensures SortedConns(SortConns(s))
  {
    if s == [] {
    } else {
      SortSorts(s[..|s| - 1]);
      InsertKeepsSorted(s[|s| - 1], SortConns(s[..|s| - 1]));
    }
  }

  // ----- the greedy pass -----

  function Has(c: Conn, key: (string, string)): nat {
    (if c.0.Key() == key then 1 else 0) + (if c.1.Key() == key then 1 else 0)
  }

  // How many elements of a port a list of bindings uses: port_bind_indices.
  function Count(done: seq<Conn>, key: (string, string)): nat {
    if done == [] then 0 else Count(done[..|done| - 1], key) + Has(done[|done| - 1], key)
  }

  predicate Next(done: seq<Conn>, e: End) {
    Count(done, e.Key()) == e.index
  }

  predicate Bindable(done: seq<Conn>, c: Conn) {
    Next(done, c.0) && Next(done, c.1)
  }

  function Greedy(order: seq<Conn>): seq<Conn> {
    if order == [] then []
    else
      var done, c := Greedy(order[..|order| - 1]), order[|order| - 1];
      if Bindable(done, c) then done + [c] else done
  }

  // ----- what a list of bindings means -----

  // Every binding uses the next element of both its ports.
  ghost predicate InOrder(done: seq<Conn>) {
    forall i :: 0 <= i < |done| ==> Bindable(done[..i], done[i])
  }

  function EndsOf(done: seq<Conn>): set<End> {
    if done == [] then {} else EndsOf(done[..|done| - 1]) + {done[|done| - 1].0, done[|done| - 1].1}
  }

  ghost predicate Irreflexive(s: seq<Conn>) {
    forall c :: c in s ==> c.0 != c.1
  }

  lemma InOrderSnoc(done: seq<Conn>, c: Conn)
    ensures InOrder(done + [c]) <==> InOrder(done) && Bindable(done, c)
    ensures Irreflexive(done + [c]) <==> Irreflexive(done) && c.0 != c.1
    ensures EndsOf(done + [c]) == EndsOf(done) + {c.0, c.1}
  {
    hide Bindable;
    var s := done + [c];
    assert s[..|done|] == done && s[|done|] == c;
    forall i | 0 <= i < |done| ensures Bindable(s[..i], s[i]) <==> Bindable(done[..i], done[i]) {
      assert s[..i] == done[..i] && s[i] == done[i];
    }
    assert forall d :: d in s <==> d in done || d == c;
  }

  lemma CountSnoc(done: seq<Conn>, c: Conn, key: (string, string))
    ensures Count(done + [c], key) == Count(done, key) + Has(c, key)
  {
    assert (done + [c])[..|done|] == done;
  }

  lemma SplitLast(done: seq<Conn>)
    requires done != []
    ensures done == done[..|done| - 1] + [done[|done| - 1]]
  {
  }

  lemma OneMoreUsed(n: nat, c: Conn, e: End)
    requires c.0 != c.1
    requires c.0.Key() == e.Key() ==> c.0.index == n
    requires c.1.Key() == e.Key() ==> c.1.index == n
    ensures (e.index < n || e == c.0 || e == c.1) <==> e.index < n + Has(c, e.Key())
  {
    assert c.0.Key() == e.Key() && c.0.index == e.index ==> c.0 == e;
    assert c.1.Key() == e.Key() && c.1.index == e.index ==> c.1 == e;
  }

  // The elements of a port in use are 0, 1, 2, ... with no gap and no repeat.
  lemma {:induction false} UsedIffCounted(done: seq<Conn>, e: End)
    requires InOrder(done) && Irreflexive(done)
    ensures e in EndsOf(done) <==> e.index < Count(done, e.Key())
  {
    if done == [] {
    } else {
      hide InOrder, EndsOf, Count;
      var p, c := done[..|done| - 1], done[|done| - 1];
      SplitLast(done);
      InOrderSnoc(p, c);
      CountSnoc(p, c, e.Key());
      UsedIffCounted(p, e);
      OneMoreUsed(Count(p, e.Key()), c, e);
    }
  }

  lemma {:induction false} EndsCount(done: seq<Conn>)
    requires InOrder(done) && Irreflexive(done)
    ensures |EndsOf(done)| == 2 * |done|
  {
    if done == [] {
    } else {
      var p, c := done[..|done| - 1], done[|done| - 1];
      SplitLast(done);
      InOrderSnoc(p, c);
      EndsCount(p);
      UsedIffCounted(p, c.0);
      UsedIffCounted(p, c.1);
      assert EndsOf(p) !! {c.0, c.1};
    }
  }

  lemma {:induction false} GreedyInOrder(order: seq<Conn>)
    requires Irreflexive(order)
    ensures InOrder(Greedy(order)) && Irreflexive(Greedy(order))
    ensures forall c :: c in Greedy(order) ==> c in order
  {
    if order == [] {
    } else {
      var p, c := order[..|order| - 1], order[|order| - 1];
      GreedyInOrder(p);
      InOrderSnoc(Greedy(p), c);
    }
  }

  // ----- connection lists as gathered from a configuration -----

  // Each end is listed once, is not its own peer, and is listed by its peer too.
  ghost predicate Wiring(s: seq<Conn>) {
    && (forall i, j :: 0 <= i < j < |s| ==> s[i].0 != s[j].0)
    && Irreflexive(s)
    && (forall c :: c in s ==> (c.1, c.0) in s)
  }

  lemma PeerUnique(s: seq<Conn>, c: Conn, d: Conn)
    requires Wiring(s) && c in s && d in s && c.0 == d.0
    ensures c == d
  {
    var i :| 0 <= i < |s| && s[i] == c;
    var j :| 0 <= j < |s| && s[j] == d;
    assert i == j;
  }

  function Froms(s: seq<Conn>): set<End> {
    set c | c in s :: c.0
  }

  lemma {:induction false} FromsCount(s: seq<Conn>)
    requires forall i, j :: 0 <= i < j < |s| ==> s[i].0 != s[j].0
    ensures |Froms(s)| == |s|
  {
    if s == [] {
    } else {
      var p, c := s[..|s| - 1], s[|s| - 1];
      SplitLast(s);
      FromsCount(p);
      assert Froms(s) == Froms(p) + {c.0};
      assert c.0 !in Froms(p);
    }
  }

  lemma {:induction false} UsedEndHasBinding(done: seq<Conn>, e: End) returns (c: Conn)
    requires e in EndsOf(done)
    ensures c in done && (c.0 == e || c.1 == e)
  {
    var p, l := done[..|done| - 1], done[|done| - 1];
    if e == l.0 || e == l.1 {
      c := l;
    } else {
      c := UsedEndHasBinding(p, e);
    }
  }

  lemma {:induction false} BindingUsesEnds(done: seq<Conn>, c: Conn)
    requires c in done
    ensures c.0 in EndsOf(done) && c.1 in EndsOf(done)
  {
    var p, l := done[..|done| - 1], done[|done| - 1];
    SplitLast(done);
    if c != l { BindingUsesEnds(p, c); }
  }

  // Bindings taken from a wiring use listed ends only, and an end together with
  // its peer.
  ghost predicate From(done: seq<Conn>, s: seq<Conn>) {
    forall c :: c in done ==> c in s
  }

  lemma EndsAreListed(done: seq<Conn>, s: seq<Conn>)
    requires Wiring(s) && From(done, s)
    ensures EndsOf(done) <= Froms(s)
  {
    forall e | e in EndsOf(done) ensures e in Froms(s) {
      var c := UsedEndHasBinding(done, e);
      assert (c.1, c.0) in s;
    }
  }

  lemma UsedWithPeer(done: seq<Conn>, s: seq<Conn>, c: Conn)
    requires Wiring(s) && From(done, s) && c in s
    ensures c.0 in EndsOf(done) <==> c.1 in EndsOf(done)
    ensures c.0 in EndsOf(done) ==> c in done || (c.1, c.0) in done
  {
    if c.0 in EndsOf(done) {
      var b := UsedEndHasBinding(done, c.0);
      PeerUnique(s, c, if b.0 == c.0 then b else (b.1, b.0));
      BindingUsesEnds(done, b);
    }
    if c.1 in EndsOf(done) {
      var b := UsedEndHasBinding(done, c.1);
      PeerUnique(s, (c.1, c.0), if b.0 == c.1 then b else (b.1, b.0));
      BindingUsesEnds(done, b);
    }
  }

  lemma NotBothWays(done: seq<Conn>, i: nat, j: nat)
    requires InOrder(done) && Irreflexive(done) && i < j < |done|
    ensures done[i] != done[j] && done[j] != (done[i].1, done[i].0)
  {
    var p := done[..j];
    assert InOrder(p) by {
      forall k | 0 <= k < |p| ensures Bindable(p[..k], p[k]) { assert p[..k] == done[..k]; }
    }
    assert done[i] == p[i];
    BindingUsesEnds(p, done[i]);
    UsedIffCounted(p, done[j].0);
  }

  // ----- soundness of the length check -----

  // In-order bindings never use more than half of the list; when they use half,
  // every connection is bound in exactly one of its two directions.
  lemma HalfIsAll(done: seq<Conn>, s: seq<Conn>)
    requires Wiring(s) && From(done, s) && InOrder(done)
    ensures 2 * |done| <= |s|
    ensures 2 * |done| == |s| <==> EndsOf(done) == Froms(s)
    ensures 2 * |done| == |s| ==> forall c :: c in s ==> (c in done <==> (c.1, c.0) !in done)
  {
    hide EndsOf, InOrder;
    assert Irreflexive(done);
    EndsCount(done);
    FromsCount(s);
    EndsAreListed(done, s);
    SubsetSize(EndsOf(done), Froms(s));
    if 2 * |done| == |s| {
      forall c | c in s ensures c in done <==> (c.1, c.0) !in done {
        OneDirection(done, s, c);
      }
    }
  }

  lemma OneDirection(done: seq<Conn>, s: seq<Conn>, c: Conn)
    requires Wiring(s) && From(done, s) && InOrder(done) && c in s
    requires EndsOf(done) == Froms(s)
    ensures c in done <==> (c.1, c.0) !in done
  {
    hide EndsOf, InOrder;
    assert c.0 in Froms(s);
    UsedWithPeer(done, s, c);
    if c in done && (c.1, c.0) in done {
      var i :| 0 <= i < |done| && done[i] == c;
      var j :| 0 <= j < |done| && done[j] == (c.1, c.0);
      assert i != j;
      NotBothWays(done, if i < j then i else j, if i < j then j else i);
    }
  }

  lemma SubsetSize(a: set<End>, b: set<End>)
    requires a <= b
    ensures |a| <= |b| && (|a| == |b| <==> a == b)
  {
    assert b == a + (b - a);
  }

  // The peers a port ends up with: each binding takes the next element of both ports.
  function Peers(done: seq<Conn>, key: (string, string)): (r: seq<End>)
    ensures |r| == Count(done, key)
  {
    if done == [] then []
    else
      var c := done[|done| - 1];
      Peers(done[..|done| - 1], key)
      + (if c.0.Key() == key then [c.1] else [])
      + (if c.1.Key() == key then [c.0] else [])
  }

  lemma {:induction false} BoundPeers(done: seq<Conn>, c: Conn)
    requires InOrder(done) && Irreflexive(done) && c in done
    ensures c.0.index < Count(done, c.0.Key()) && Peers(done, c.0.Key())[c.0.index] == c.1
    ensures c.1.index < Count(done, c.1.Key()) && Peers(done, c.1.Key())[c.1.index] == c.0
  {
    var p, l := done[..|done| - 1], done[|done| - 1];
    SplitLast(done);
    InOrderSnoc(p, l);
    if c in p {
      BoundPeers(p, c);
    } else {
      assert c == l;
      assert c.0.Key() != c.1.Key();
    }
  }

  // When the length check passes, the ports are wired as the file says: element
  // by element, with nothing missing and nothing extra.
  lemma WiringRestored(done: seq<Conn>, s: seq<Conn>)
    requires Wiring(s) && From(done, s) && InOrder(done) && 2 * |done| == |s|
    ensures forall e, f :: (e, f) in s <==>
              e.index < Count(done, e.Key()) && Peers(done, e.Key())[e.index] == f
  {
    HalfIsAll(done, s);
    assert Irreflexive(done);
    forall e, f ensures (e, f) in s <==>
                e.index < Count(done, e.Key()) && Peers(done, e.Key())[e.index] == f
    {
      UsedIffCounted(done, e);
      if (e, f) in s {
        BoundPeers(done, if (e, f) in done then (e, f) else (f, e));
      } else if e in EndsOf(done) {
        var c := UsedEndHasBinding(done, e);
        BoundPeers(done, c);
        assert (c.1, c.0) in s;
      }
    }
  }

  // ----- completeness of the greedy pass -----

  // The connections of a list that a mask selects.
  function Select(order: seq<Conn>, mask: seq<bool>): seq<Conn>
    requires |mask| == |order|
  {
    if order == [] then []
    else
      var rest := Select(order[..|order| - 1], mask[..|order| - 1]);
      if mask[|order| - 1] then rest + [order[|order| - 1]] else rest
  }

  lemma {:induction false} SelectFrom(order: seq<Conn>, mask: seq<bool>)
    requires |mask| == |order|
    ensures From(Select(order, mask), order)
  {
    if order == [] {
    } else {
      SelectFrom(order[..|order| - 1], mask[..|order| - 1]);
    }
  }

  lemma CountsAgree(mine: seq<Conn>, other: seq<Conn>, e: End)
    requires InOrder(mine) && Irreflexive(mine) && InOrder(other) && Irreflexive(other)
    requires EndsOf(other) <= EndsOf(mine) && Next(other, e) && e !in EndsOf(mine)
    ensures Next(mine, e)
  {
    UsedIffCounted(mine, e);
    var n := Count(mine, e.Key());
    var f := End(e.obj, e.port, n);
    UsedIffCounted(mine, f);
    UsedIffCounted(other, f);
  }

  // Whatever ends a choice of connections can use in list order, the greedy pass
  // has used too by the same point of the list.
  lemma {:induction false} GreedyDominates(s: seq<Conn>, order: seq<Conn>, mask: seq<bool>)
    requires Wiring(s) && From(order, s) && |mask| == |order| && InOrder(Select(order, mask))
    ensures EndsOf(Select(order, mask)) <= EndsOf(Greedy(order))
    decreases |order|
  {
    if order == [] {
    } else {
      var p, c, m := order[..|order| - 1], order[|order| - 1], mask[..|order| - 1];
      var mine, other := Greedy(p), Select(p, m);
      SelectFrom(p, m);
      GreedyInOrder(p);
      InOrderSnoc(mine, c);
      InOrderSnoc(other, c);
      GreedyDominates(s, p, m);
      if mask[|order| - 1] {
        UsedWithPeer(mine, s, c);
        if c.0 !in EndsOf(mine) {
          CountsAgree(mine, other, c.0);
          CountsAgree(mine, other, c.1);
        }
      }
    }
  }

  ghost function GreedyMask(order: seq<Conn>): (mask: seq<bool>)
    ensures |mask| == |order|
  {
    if order == [] then []
    else
      var p := order[..|order| - 1];
      GreedyMask(p) + [Bindable(Greedy(p), order[|order| - 1])]
  }

  lemma {:induction false} GreedyIsSelection(order: seq<Conn>)
    ensures Select(order, GreedyMask(order)) == Greedy(order)
  {
    if order == [] {
    } else {
      var p, m := order[..|order| - 1], GreedyMask(order);
      GreedyIsSelection(p);
      assert m[..|p|] == GreedyMask(p);
    }
  }

  // The length check passes exactly when some choice of one direction per
  // connection, taken in list order, binds every port in index order.
  lemma PassesIffSchedulable(order: seq<Conn>)
    requires Wiring(order)
    ensures 2 * |Greedy(order)| == |order| <==>
            exists mask :: |mask| == |order| && InOrder(Select(order, mask)) && 2 * |Select(order, mask)| == |order|
  {
    GreedyInOrder(order);
    HalfIsAll(Greedy(order), order);
    if 2 * |Greedy(order)| == |order| {
      GreedyIsSelection(order);
      assert |GreedyMask(order)| == |order|;
    }
    if mask :| |mask| == |order| && InOrder(Select(order, mask)) && 2 * |Select(order, mask)| == |order| {
      SelectFrom(order, mask);
      HalfIsAll(Select(order, mask), order);
      GreedyDominates(order, order, mask);
      EndsAreListed(Greedy(order), order);
    }
  }

  // ----- the program -----

  datatype Outcome = Bound(made: seq<Conn>) | Unorderable | KeyError

  // The pass with its dictionary look-ups: the port of a peer that lists no
  // connection itself is not in the dictionary.
  function Scan(order: seq<Conn>, keys: set<(string, string)>): Option<seq<Conn>> {
    if order == [] then Some([])
    else
      var before, c := Scan(order[..|order| - 1], keys), order[|order| - 1];
      if before.None? || (Next(before.value, c.0) && c.1.Key() !in keys) then None
      else if Bindable(before.value, c) then Some(before.value + [c])
      else before
  }

  function Keys(s: seq<Conn>): set<(string, string)> {
    set c | c in s :: c.0.Key()
  }

  lemma {:induction false} ScanIsGreedy(order: seq<Conn>, keys: set<(string, string)>)
    requires forall c :: c in order ==> c.1.Key() in keys
    ensures Scan(order, keys) == Some(Greedy(order))
  {
    if order == [] {
    } else {
      ScanIsGreedy(order[..|order| - 1], keys);
    }
  }

  lemma {:induction false} ScanFails(order: seq<Conn>, keys: set<(string, string)>, k: nat)
    requires k <= |order| && Scan(order[..k], keys).None?
    ensures Scan(order, keys).None?
  {
    if k < |order| {
      assert order[..|order| - 1][..k] == order[..k];
      ScanFails(order[..|order| - 1], keys, k);
    } else {
      assert order[..k] == order;
    }
  }

  function BindSpec(connections: seq<Conn>): Outcome {
    var made := Scan(SortConns(connections), Keys(connections));
    if made.None? then KeyError
    else if 2 * |made.value| != |connections| then Unorderable
    else Bound(made.value)
  }

  // A list that names a port only as a peer, and wants it bound, is an error.
  lemma OneSidedFails(e: End, f: End)
    requires e.index == 0 && f.Key() != e.Key()
    ensures BindSpec([(e, f)]) == KeyError
  {
    var c: Conn := (e, f);
    assert SortConns([c]) == [c] by { assert [c][..0] == []; }
    assert Keys([c]) == {e.Key()};
    assert [c][..0] == [] && Scan([], Keys([c])) == Some([]);
    assert Count([], e.Key()) == 0;
  }

  // Otherwise every connection's peer would be listed.
  lemma KeyErrorMeans(connections: seq<Conn>)
    requires BindSpec(connections) == KeyError
    ensures exists c :: c in connections && forall d :: d in connections ==> d.0.Key() != c.1.Key()
  {
    var order, keys := SortConns(connections), Keys(connections);
    SortPermutes(connections);
    if forall c :: c in order ==> c.1.Key() in keys {
      ScanIsGreedy(order, keys);
    } else {
      var c :| c in order && c.1.Key() !in keys;
      assert c in multiset(order) && c in connections;
    }
  }

  method InitIndices(connections: seq<Conn>) returns (indices: map<(string, string), nat>)
    ensures indices.Keys == Keys(connections) && forall k :: k in indices ==> indices[k] == 0
    ensures forall k :: k in indices <==> exists c :: c in connections && c.0.Key() == k
  {
    indices := map[];
    for i := 0 to |connections|
      invariant indices.Keys == Keys(connections[..i])
      invariant forall k :: k in indices ==> indices[k] == 0
    {
      assert connections[..i + 1] == connections[..i] + [connections[i]];
      indices := indices[connections[i].0.Key() := 0];
    }
    assert connections[..|connections|] == connections;
  }

  lemma ScanSnoc(order: seq<Conn>, i: nat, keys: set<(string, string)>, made: seq<Conn>)
    requires i < |order| && Scan(order[..i], keys) == Some(made)
    ensures var c := order[i];
      Scan(order[..i + 1], keys) ==
        if Next(made, c.0) && c.1.Key() !in keys then None
        else if Bindable(made, c) then Some(made + [c])
        else Some(made)
  {
    assert order[..i + 1][..i] == order[..i];
  }

  method BindPorts(connections: seq<Conn>) returns (r: Outcome)
    ensures r == BindSpec(connections)
  {
    hide Scan, SortConns, Has;
    var indices := InitIndices(connections);
    ghost var keys := indices.Keys;
    var order := SortConns(connections);
    SortPermutes(connections);
    SameMembers(connections, order);
    var made: seq<Conn> := [];
    assert Scan(order[..0], keys) == Some(made) by { ScanNothing(order, keys); }
    for i := 0 to |order|
      invariant Scan(order[..i], keys) == Some(made)
      invariant indices.Keys == keys
      invariant forall k :: k in indices ==> indices[k] == Count(made, k)
    {
      var c := order[i];
      ScanSnoc(order, i, keys, made);
      assert c.0.Key() in keys;
      if indices[c.0.Key()] == c.0.index {
        if c.1.Key() !in indices {
          ScanFails(order, keys, i + 1);
          return KeyError;
        }
        if indices[c.1.Key()] == c.1.index {
          CountBumps(made, c, indices);
          made := made + [c];
          indices := indices[c.0.Key() := indices[c.0.Key()] + 1];
          indices := indices[c.1.Key() := indices[c.1.Key()] + 1];
        }
      }
    }
    assert order[..|order|] == order;
    if |made| * 2 != |connections| {
      return Unorderable;
    }
    return Bound(made);
  }

  lemma ScanNothing(order: seq<Conn>, keys: set<(string, string)>)
    ensures Scan(order[..0], keys) == Some([])
  {
  }

  lemma CountBumps(made: seq<Conn>, c: Conn, m: map<(string, string), nat>)
    requires forall k :: k in m ==> m[k] == Count(made, k)
    requires c.0.Key() in m && c.1.Key() in m
    ensures var m1 := m[c.0.Key() := m[c.0.Key()] + 1];
      var m2 := m1[c.1.Key() := m1[c.1.Key()] + 1];
      forall k :: k in m2 ==> m2[k] == Count(made + [c], k)
  {
    hide Count;
    forall k ensures Count(made + [c], k) == Count(made, k) + Has(c, k) { CountSnoc(made, c, k); }
  }

  lemma PermutedWiring(s: seq<Conn>, t: seq<Conn>)
    requires Wiring(s) && multiset(s) == multiset(t)
    ensures Wiring(t) && |t| == |s|
    ensures forall c :: c in t <==> c in s
    ensures forall c :: c in t ==> c.1.Key() in Keys(s)
  {
    SameMembers(s, t);
    forall i, j | 0 <= i < j < |t| ensures t[i].0 != t[j].0 { StillOnce(s, t, i, j); }
    forall c | c in t ensures c.1.Key() in Keys(s) { assert (c.1, c.0) in s; }
  }

  lemma SameMembers(s: seq<Conn>, t: seq<Conn>)
    requires multiset(s) == multiset(t)
    ensures |t| == |s| && forall c :: c in t <==> c in s
  {
    assert |multiset(s)| == |s| && |multiset(t)| == |t|;
    forall c ensures c in t <==> c in s {
      assert c in s <==> c in multiset(s);
      assert c in t <==> c in multiset(t);
    }
  }

  lemma StillOnce(s: seq<Conn>, t: seq<Conn>, i: nat, j: nat)
    requires Wiring(s) && multiset(s) == multiset(t) && i < j < |t|
    ensures t[i].0 != t[j].0
  {
    SameMembers(s, t);
    assert t[i] in t && t[j] in t;
    Unrepeated(s, t[i]);
    if t[i] == t[j] {
      Repeated(t, i, j);
    } else if t[i].0 == t[j].0 {
      PeerUnique(s, t[i], t[j]);
    }
  }

  lemma Repeated(t: seq<Conn>, i: nat, j: nat)
    requires i < j < |t| && t[i] == t[j]
    ensures multiset(t)[t[i]] >= 2
  {
    assert t == t[..j] + t[j..];
    assert t[..j][i] == t[i] && t[j..][0] == t[i];
    assert t[i] in multiset(t[..j]) && t[i] in multiset(t[j..]);
  }

  lemma {:induction false} Unrepeated(s: seq<Conn>, c: Conn)
    requires forall i, j :: 0 <= i < j < |s| ==> s[i].0 != s[j].0
    ensures multiset(s)[c] <= 1
  {
    if s == [] {
    } else {
      var p := s[..|s| - 1];
      SplitLast(s);
      Unrepeated(p, c);
      if s[|s| - 1] == c { assert c !in p; assert multiset(p)[c] == 0; }
    }
  }

  // The method on a configuration: no dictionary error, and either the ports are
  // wired as listed or no direction choice works in sorted order.
  lemma BindPortsIsExact(connections: seq<Conn>)
    requires Wiring(connections)
    ensures var order := SortConns(connections);
      match BindSpec(connections)
      case KeyError => false
      case Bound(made) =>
        forall e, f :: (e, f) in connections <==>
          e.index < Count(made, e.Key()) && Peers(made, e.Key())[e.index] == f
      case Unorderable =>
        forall mask :: |mask| == |order| && InOrder(Select(order, mask)) ==> 2 * |Select(order, mask)| != |order|
  {
    hide SortConns, Greedy, Scan, InOrder, Select, Peers, Count;
    var order := SortConns(connections);
    SortPermutes(connections);
    PermutedWiring(connections, order);
    ScanIsGreedy(order, Keys(connections));
    GreedyInOrder(order);
    PassesIffSchedulable(order);
    if 2 * |Greedy(order)| == |order| {
      WiringRestored(Greedy(order), order);
    }
  }

  // ----- what the order means -----

  lemma {:induction false} StringTotal(a: string, b: string)
    ensures StringBefore(a, b) || a == b || StringBefore(b, a)
  {
    if a == [] || b == [] {
    } else {
      StringTotal(a[1..], b[1..]);
    }
  }

  // Of two names the one is before the other that ends or has the smaller letter
  // where they first differ.
  lemma {:induction false} StringBeforeIff(a: string, b: string)
    ensures StringBefore(a, b) <==>
      exists n :: 0 <= n <= |a| && n < |b| && a[..n] == b[..n] && (n == |a| || a[n] < b[n])
  {
    if b == [] {
    } else if a == [] {
      assert a[..0] == b[..0];
    } else {
      StringBeforeIff(a[1..], b[1..]);
      if a[0] < b[0] {
        assert a[..0] == b[..0];
      } else if StringBefore(a, b) {
        var n :| 0 <= n <= |a[1..]| && n < |b[1..]| && a[1..][..n] == b[1..][..n] && (n == |a[1..]| || a[1..][n] < b[1..][n]);
        assert a[..n + 1] == [a[0]] + a[1..][..n] && b[..n + 1] == [b[0]] + b[1..][..n];
        assert a[..n + 1] == b[..n + 1];
      }
      if n :| 0 <= n <= |a| && n < |b| && a[..n] == b[..n] && (n == |a| || a[n] < b[n]) {
        if n == 0 {
        } else {
          assert a[0] == a[..n][0] == b[..n][0] == b[0];
          assert a[1..][..n - 1] == a[..n][1..] == b[..n][1..] == b[1..][..n - 1];
        }
      }
    }
  }

  // In the sorted list the connections of an object are together, those of one of
  // its ports are together, and they ascend by index.
  lemma SortedGroups(s: seq<Conn>, i: nat, j: nat, k: nat)
    requires i < j < k < |s|
    ensures var r := SortConns(s);
      && |r| == |s|
      && (r[i].0.obj == r[k].0.obj ==> r[j].0.obj == r[i].0.obj)
      && (r[i].0.Key() == r[k].0.Key() ==> r[j].0.Key() == r[i].0.Key())
      && (r[i].0.Key() == r[k].0.Key() ==> r[i].0.index <= r[j].0.index <= r[k].0.index)
  {
    var r := SortConns(s);
    SortSorts(s);
    SortPermutes(s);
    assert |multiset(r)| == |r| && |multiset(s)| == |s|;
    hide SortConns;
    StringTotal(r[i].0.obj, r[j].0.obj);
    StringTotal(r[i].0.port, r[j].0.port);
    assert !ConnBefore(r[j], r[i]) && !ConnBefore(r[k], r[j]);
  }

  // Connections from one end ascend by their peers.
  lemma SortedPeers(s: seq<Conn>, i: nat, j: nat)
    requires i < j < |s|
    ensures var r := SortConns(s); |r| == |s| && (r[i].0 == r[j].0 ==> !EndBefore(r[j].1, r[i].1))
  {
    var r := SortConns(s);
    SortSorts(s);
    SortPermutes(s);
    assert |multiset(r)| == |r| && |multiset(s)| == |s|;
    hide SortConns;
    assert !ConnBefore(r[j], r[i]);
  }

  // ----- two configurations -----

  lemma {:induction false} InsertLast(c: Conn, s: seq<Conn>)
    requires forall d :: d in s ==> !ConnBefore(c, d)
    ensures InsertConn(c, s) == s + [c]
  {
    if s == [] {
    } else {
      InsertLast(c, s[1..]);
      assert [s[0]] + (s[1..] + [c]) == s + [c];
    }
  }

  lemma {:induction false} SortOfSorted(s: seq<Conn>)
    requires SortedConns(s)
    ensures SortConns(s) == s
  {
    if s == [] {
    } else {
      var p, c := s[..|s| - 1], s[|s| - 1];
      SortOfSorted(p);
      InsertLast(c, p);
      SplitLast(s);
    }
  }

  lemma GreedyStep(p: seq<Conn>, c: Conn)
    ensures Greedy(p + [c]) == if Bindable(Greedy(p), c) then Greedy(p) + [c] else Greedy(p)
  {
    assert (p + [c])[..|p|] == p;
  }

  lemma CountSmall(c: Conn, d: Conn, key: (string, string))
    ensures Count([], key) == 0 && Count([c], key) == Has(c, key) && Count([c, d], key) == Has(c, key) + Has(d, key)
  {
    assert [c][..0] == [] && [c, d][..1] == [c];
  }

  lemma GreedySix(o: seq<Conn>)
    requires |o| == 6
    ensures Greedy(o) == Greedy(o[..5] + [o[5]])
    ensures Greedy(o[..1]) == Greedy([] + [o[0]])
    ensures forall k :: 1 <= k < 6 ==> Greedy(o[..k + 1]) == Greedy(o[..k] + [o[k]])
  {
    assert o == o[..5] + [o[5]];
    assert o[..1] == [] + [o[0]];
    forall k | 1 <= k < 6 ensures o[..k + 1] == o[..k] + [o[k]] {}
  }

  const CHAIN: seq<Conn> :=
    var a0, a1, b0 := End("a", "p", 0), End("a", "p", 1), End("b", "p", 0);
    var m0, z0, z1 := End("m", "p", 0), End("z", "p", 0), End("z", "p", 1);
    [(a0, z1), (a1, b0), (b0, a1), (m0, z0), (z0, m0), (z1, a0)]

  lemma ChainGreedy()
    ensures Greedy(CHAIN) == [CHAIN[3], CHAIN[5]]
  {
    var o := CHAIN;
    hide Greedy, Count;
    GreedySix(o);
    forall k ensures Count([], k) == 0 && Count([o[3]], k) == Has(o[3], k) { CountSmall(o[3], o[5], k); }
    EmptyGreedy();
    GreedyStep([], o[0]);
    assert Greedy(o[..1]) == [];
    GreedyStep(o[..1], o[1]);
    assert Greedy(o[..2]) == [];
    GreedyStep(o[..2], o[2]);
    assert Greedy(o[..3]) == [];
    GreedyStep(o[..3], o[3]);
    assert Greedy(o[..4]) == [o[3]];
    GreedyStep(o[..4], o[4]);
    assert Greedy(o[..5]) == [o[3]];
    GreedyStep(o[..5], o[5]);
  }

  lemma ChainIsWiring()
    ensures Wiring(CHAIN)
  {
    var o := CHAIN;
    assert (o[0].1, o[0].0) == o[5] && (o[1].1, o[1].0) == o[2] && (o[3].1, o[3].0) == o[4];
    assert (o[5].1, o[5].0) == o[0] && (o[2].1, o[2].0) == o[1] && (o[4].1, o[4].0) == o[3];
  }

  // On one-letter objects with one port each the order is letter, then index.
  lemma OneLetter(e: End, f: End)
    requires |e.obj| == 1 && |f.obj| == 1 && |e.port| == 1 && (e.obj == f.obj ==> e.port == f.port)
    ensures EndBefore(e, f) <==> e.obj[0] < f.obj[0] || (e.obj[0] == f.obj[0] && e.index < f.index)
  {
    assert e.obj == [e.obj[0]] && f.obj == [f.obj[0]];
    assert e.obj[1..] == "" && f.obj[1..] == "" && e.port[1..] == "";
    assert !StringBefore("", "");
    assert StringBefore(e.obj, f.obj) <==> e.obj[0] < f.obj[0];
    assert e.obj == f.obj ==> !StringBefore(e.port, f.port);
  }

  lemma ChainIsSorted()
    ensures SortConns(CHAIN) == CHAIN
  {
    var o := CHAIN;
    hide SortConns, EndBefore;
    forall i, j | 0 <= i < j < |o| ensures !ConnBefore(o[j], o[i]) {
      OneLetter(o[j].0, o[i].0);
    }
    SortOfSorted(o);
  }

  lemma ChainKeys()
    ensures forall c :: c in CHAIN ==> c.1.Key() in Keys(CHAIN)
  {
    ChainIsWiring();
    forall c | c in CHAIN ensures c.1.Key() in Keys(CHAIN) {
      assert (c.1, c.0) in CHAIN;
    }
  }

  lemma EmptyGreedy()
    ensures Greedy([]) == []
  {
  }

  // The list is a wiring and already sorted, and binding z[0], z[1] with a[0], then
  // a[1] would work; yet the single pass meets a[1] too early both times and fails.
  lemma SortedPassMayFail()
    ensures Wiring(CHAIN) && SortConns(CHAIN) == CHAIN
    ensures BindSpec(CHAIN) == Unorderable
    ensures exists made :: From(made, CHAIN) && InOrder(made) && 2 * |made| == |CHAIN|
  {
    hide *;
    ChainIsWiring();
    ChainIsSorted();
    ChainGreedy();
    ChainKeys();
    ScanIsGreedy(CHAIN, Keys(CHAIN));
    ChainHasOrder();
    BindSpecFails(CHAIN);
  }

  lemma BindSpecFails(s: seq<Conn>)
    requires SortConns(s) == s && Scan(s, Keys(s)) == Some(Greedy(s)) && 2 * |Greedy(s)| != |s|
    ensures BindSpec(s) == Unorderable
  {
  }

  lemma ChainHasOrder()
    ensures |CHAIN| == 6
    ensures exists made :: From(made, CHAIN) && InOrder(made) && 2 * |made| == |CHAIN|
  {
    hide Count;
    var o := CHAIN;
    var made := [o[3], o[5], o[1]];
    forall k ensures Count([], k) == 0 && Count([o[3]], k) == Has(o[3], k)
                  && Count([o[3], o[5]], k) == Has(o[3], k) + Has(o[5], k)
    {
      CountSmall(o[3], o[5], k);
    }
    assert made[..0] == [] && made[..1] == [o[3]] && made[..2] == [o[3], o[5]];
    assert From(made, CHAIN) && InOrder(made) && 2 * |made| == |CHAIN|;
  }

  // The example in the binder's own comment: the pass does succeed on it, but it
  // binds e.g to a.b[1] last, and not a.b[1] to e.g first as the comment's table has it.
  const COMMENTED: seq<Conn> :=
    var ab0, ab1, eg := End("a", "b", 0), End("a", "b", 1), End("e", "g", 0);
    var df0, df1, fh := End("d", "f", 0), End("d", "f", 1), End("f", "h", 0);
    [(ab0, df1), (ab1, eg), (df0, fh), (df1, ab0), (eg, ab1), (fh, df0)]

  lemma CommentedExample()
    ensures SortConns(COMMENTED) == COMMENTED
    ensures BindSpec(COMMENTED) == Bound([COMMENTED[2], COMMENTED[3], COMMENTED[4]])
  {
    CommentedIsSorted();
    CommentedGreedy();
    hide Greedy, SortConns;
    var o := COMMENTED;
    forall c | c in o ensures c.1.Key() in Keys(o) {
      assert o[0] in o && o[1] in o && o[2] in o && o[3] in o && o[4] in o && o[5] in o;
    }
    hide Scan, Keys;
    ScanIsGreedy(o, Keys(o));
  }

  lemma CommentedIsSorted()
    ensures SortConns(COMMENTED) == COMMENTED
  {
    var o := COMMENTED;
    hide SortConns, EndBefore;
    forall i, j | 0 <= i < j < |o| ensures !ConnBefore(o[j], o[i]) {
      OneLetter(o[j].0, o[i].0);
    }
    SortOfSorted(o);
  }

  lemma CommentedGreedy()
    ensures Greedy(COMMENTED) == [COMMENTED[2], COMMENTED[3], COMMENTED[4]]
  {
    var o := COMMENTED;
    hide Greedy, Count;
    GreedySix(o);
    forall k ensures Count([], k) == 0 && Count([o[2]], k) == Has(o[2], k)
                  && Count([o[2], o[3]], k) == Has(o[2], k) + Has(o[3], k)
                  && Count([o[2], o[3], o[4]], k) == Has(o[2], k) + Has(o[3], k) + Has(o[4], k)
    {
      CountSmall(o[2], o[3], k);
      CountSnoc([o[2], o[3]], o[4], k);
      assert [o[2], o[3]] + [o[4]] == [o[2], o[3], o[4]];
    }
    EmptyGreedy();
    GreedyStep([], o[0]);
    assert Greedy(o[..1]) == [];
    GreedyStep(o[..1], o[1]);
    assert Greedy(o[..2]) == [];
    GreedyStep(o[..2], o[2]);
    assert Greedy(o[..3]) == [o[2]];
    GreedyStep(o[..3], o[3]);
    assert Greedy(o[..4]) == [o[2], o[3]];
    GreedyStep(o[..4], o[4]);
    assert Greedy(o[..5]) == [o[2], o[3], o[4]];
    GreedyStep(o[..5], o[5]);
  }
}
