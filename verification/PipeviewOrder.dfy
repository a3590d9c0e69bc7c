/** The reorder buffer of the O3 pipeline viewer.

    Retired instructions are appended to a queue; when the queue outgrows
    `max` it is sorted by sequence number and drained down to `min`.  This
    module models the sort and the queue as functions over whole arrival lists
    and settles when draining early gives the same list as sorting everything. */
module PipeviewOrder {
  import opened Arithmetic

  datatype Inst = Inst(sn: int, fetch: int, retire: int, stages: map<string, int>,
                       pc: string, upc: string, disasm: string)

  // ----- list.sort(key = sn): stable, by sequence number -----

  ghost predicate Sorted(s: seq<Inst>) {
    forall i, j :: 0 <= i < j < |s| ==> s[i].sn <= s[j].sn
  }

  function Insert(x: Inst, s: seq<Inst>): (r: seq<Inst>)
    ensures |r| == |s| + 1
  {
    if s == [] then [x]
    else if s[0].sn <= x.sn then [s[0]] + Insert(x, s[1..])
    else [x] + s
  }

  function SortBySn(s: seq<Inst>): (r: seq<Inst>)
    ensures |r| == |s|
  {
    if s == [] then [] else Insert(s[|s| - 1], SortBySn(s[..|s| - 1]))
  }

  lemma {:induction false} InsertPermutes(x: Inst, s: seq<Inst>)
    ensures multiset(Insert(x, s)) == multiset(s) + multiset{x}
  {
    if s == [] {
    } else {
      assert s == [s[0]] + s[1..];
      if s[0].sn <= x.sn { InsertPermutes(x, s[1..]); }
    }
  }

  lemma {:induction false} SortPermutes(s: seq<Inst>)
    ensures multiset(SortBySn(s)) == multiset(s)
  {
    if s == [] {
    } else {
      var p, x := s[..|s| - 1], s[|s| - 1];
      SortPermutes(p);
      InsertPermutes(x, SortBySn(p));
      assert s == p + [x];
    }
  }

  lemma SortSnoc(s: seq<Inst>, x: Inst)
    ensures SortBySn(s + [x]) == Insert(x, SortBySn(s))
  {
    assert (s + [x])[..|s|] == s;
  }

  lemma {:induction false} InsertKeepsSorted(x: Inst, s: seq<Inst>)
    requires Sorted(s)
    ensures Sorted(Insert(x, s))
  {
    if s != [] && s[0].sn <= x.sn {
      var t := Insert(x, s[1..]);
      InsertKeepsSorted(x, s[1..]);
      assert t[0] == x || (|s| > 1 && t[0] == s[1]);
    }
  }

  lemma {:induction false} SortSorts(s: seq<Inst>)
    ensures Sorted(SortBySn(s))
  {
    if s == [] {
    } else {
      SortSorts(s[..|s| - 1]);
      InsertKeepsSorted(s[|s| - 1], SortBySn(s[..|s| - 1]));
    }
  }

  // A later arrival passes everything that is not larger.
  lemma {:induction false} InsertPasses(x: Inst, d: seq<Inst>, q: seq<Inst>)
    requires forall e :: e in d ==> e.sn <= x.sn
    ensures Insert(x, d + q) == d + Insert(x, q)
  {
    if d == [] {
      assert d + q == q;
    } else {
      assert (d + q)[1..] == d[1..] + q;
      InsertPasses(x, d[1..], q);
      assert [d[0]] + (d[1..] + Insert(x, q)) == d + Insert(x, q);
    }
  }

  lemma {:induction false} SortOfSorted(s: seq<Inst>)
    requires Sorted(s)
    ensures SortBySn(s) == s
  {
    if s == [] {
    } else {
      var p, x := s[..|s| - 1], s[|s| - 1];
      SortOfSorted(p);
      InsertPasses(x, p, []);
      assert p + [] == p && p + [x] == s;
    }
  }

  // Stability: instructions with one sequence number keep their arrival order.
  function WithSn(s: seq<Inst>, v: int): (r: seq<Inst>)
  {
    if s == [] then []
    else if s[0].sn == v then [s[0]] + WithSn(s[1..], v)
    else WithSn(s[1..], v)
  }

  lemma {:induction false} WithSnConcat(a: seq<Inst>, b: seq<Inst>, v: int)
    ensures WithSn(a + b, v) == WithSn(a, v) + WithSn(b, v)
  {
    if a == [] {
      assert a + b == b;
    } else {
      assert (a + b)[1..] == a[1..] + b;
      WithSnConcat(a[1..], b, v);
    }
  }

  lemma WithSnCons(x: Inst, s: seq<Inst>, v: int)
    ensures WithSn([x] + s, v) == (if x.sn == v then [x] else []) + WithSn(s, v)
  {
    assert ([x] + s)[1..] == s;
  }

  lemma {:induction false} InsertStable(x: Inst, s: seq<Inst>, v: int)
    requires Sorted(s)
    ensures WithSn(Insert(x, s), v) == WithSn(s, v) + (if x.sn == v then [x] else [])
  {
    hide WithSn;
    if s == [] {
      NoneWithSn(s, v);
      WithSnCons(x, s, v);
      assert [x] + s == [x];
    } else if s[0].sn <= x.sn {
      var t := Insert(x, s[1..]);
      InsertStable(x, s[1..], v);
      WithSnCons(s[0], t, v);
      WithSnCons(s[0], s[1..], v);
      assert s == [s[0]] + s[1..];
    } else {
      WithSnCons(x, s, v);
      WithSnCons(x, [], v);
      if x.sn == v { NoneWithSn(s, v); }
    }
  }

  lemma {:induction false} NoneWithSn(s: seq<Inst>, v: int)
    requires forall e :: e in s ==> e.sn != v
    ensures WithSn(s, v) == []
  {
    if s == [] {
    } else {
      NoneWithSn(s[1..], v);
    }
  }

  lemma {:induction false} SortStable(s: seq<Inst>, v: int)
    ensures WithSn(SortBySn(s), v) == WithSn(s, v)
  {
    if s == [] {
    } else {
      var p, x := s[..|s| - 1], s[|s| - 1];
      SortStable(p, v);
      SortSorts(p);
      InsertStable(x, SortBySn(p), v);
      WithSnConcat(p, [x], v);
      assert [x][1..] == [];
      assert p + [x] == s;
    }
  }

  // The stable sorted rearrangement is unique, so SortBySn is that rearrangement.
  lemma {:induction false} SortedStableUnique(s: seq<Inst>, t: seq<Inst>)
    requires Sorted(s) && Sorted(t)
    requires forall v :: WithSn(s, v) == WithSn(t, v)
    ensures s == t
    decreases |s|
  {
    assert s != [] ==> WithSn(t, s[0].sn) == WithSn(s, s[0].sn) != [];
    assert t != [] ==> WithSn(s, t[0].sn) == WithSn(t, t[0].sn) != [];
    if s == [] {
    } else {
      HeadNotSmaller(s, t);
      HeadNotSmaller(t, s);
      var w := s[0].sn;
      assert s[0] == WithSn(s, w)[0] == WithSn(t, w)[0] == t[0];
      assert s == [s[0]] + s[1..] && t == [t[0]] + t[1..];
      forall v ensures WithSn(s[1..], v) == WithSn(t[1..], v) {
        assert WithSn(s[1..], v) == if v == w then WithSn(s, v)[1..] else WithSn(s, v);
        assert WithSn(t[1..], v) == if v == w then WithSn(t, v)[1..] else WithSn(t, v);
      }
      SortedStableUnique(s[1..], t[1..]);
    }
  }

  lemma HeadNotSmaller(s: seq<Inst>, t: seq<Inst>)
    requires s != [] && t != [] && Sorted(t)
    requires WithSn(s, s[0].sn) == WithSn(t, s[0].sn)
    ensures t[0].sn <= s[0].sn
  {
    if forall e :: e in t ==> e.sn != s[0].sn {
      NoneWithSn(t, s[0].sn);
    }
  }

  // ----- the streaming queue -----

  datatype Queue = Queue(queue: seq<Inst>, drained: seq<Inst>)

  function Monus(a: nat, b: nat): nat { if a < b then 0 else a - b }

  // print_insts: sort the queue and pop from the front down to `lower`.
  function Drain(q: Queue, lower: nat): Queue {
    var s := SortBySn(q.queue);
    var k := Monus(|s|, lower);
    Queue(s[k..], q.drained + s[..k])
  }

  // queue_inst: append, and drain when the queue outgrows `max`.
  function Push(q: Queue, x: Inst, min: nat, max: nat): Queue {
    var grown := q.(queue := q.queue + [x]);
    if |grown.queue| > max then Drain(grown, min) else grown
  }

  function Feed(q: Queue, a: seq<Inst>, min: nat, max: nat): Queue
    decreases |a|
  {
    if a == [] then q else Feed(Push(q, a[0], min, max), a[1..], min, max)
  }

  // Everything that leaves the queue over a whole run, final flush included.
  function Stream(a: seq<Inst>, min: nat, max: nat): seq<Inst> {
    Drain(Feed(Queue([], []), a, min, max), 0).drained
  }

  // The queue length after t arrivals.
  function QueueLength(t: nat, min: nat, max: nat): (n: nat)
    requires min <= max
    ensures n <= max
  {
    if t == 0 then 0
    else if QueueLength(t - 1, min, max) == max then min
    else QueueLength(t - 1, min, max) + 1
  }

  // The arrivals that drain the queue are those that find it full.
  predicate IsDrain(t: nat, min: nat, max: nat)
    requires min <= max
  {
    t > 0 && QueueLength(t - 1, min, max) == max
  }

  // They come at regular distances.
  lemma {:induction false} DrainsAreRegular(t: nat, min: nat, max: nat)
    requires min <= max
    ensures QueueLength(t, min, max) == if t <= max then t else min + (t - max - 1) % (max + 1 - min)
    ensures IsDrain(t, min, max) <==> t > max && (t - max - 1) % (max + 1 - min) == 0
  {
    if t == 0 {
    } else {
      DrainsAreRegular(t - 1, min, max);
      RegularStep(t - 1, QueueLength(t - 1, min, max), min, max);
    }
  }

  lemma RegularStep(t: nat, n: nat, min: nat, max: nat)
    requires min <= max && n == if t <= max then t else min + (t - max - 1) % (max + 1 - min)
    ensures n == max <==> t >= max && (t - max) % (max + 1 - min) == 0
    ensures (if n == max then min else n + 1) == if t < max then t + 1 else min + (t - max) % (max + 1 - min)
  {
    if t > max {
      ModStep(t - max - 1, max + 1 - min);
    } else {
      DivModUnique(0, max + 1 - min, 0, 0);
    }
  }

  lemma QueueLengthStep(t: nat, min: nat, max: nat)
    requires min <= max
    ensures IsDrain(t + 1, min, max) <==> QueueLength(t, min, max) == max
    ensures QueueLength(t + 1, min, max) ==
            if QueueLength(t, min, max) == max then min else QueueLength(t, min, max) + 1
  {
  }

  // One drain: the queue and what left it are the sorted queue, cut in two.
  lemma DrainCuts(q: Queue, lower: nat)
    ensures var r := Drain(q, lower);
      && |r.queue| == |q.queue| - Monus(|q.queue|, lower)
      && r.drained + r.queue == q.drained + SortBySn(q.queue)
      && q.drained <= r.drained
      && Sorted(r.queue)
  {
    hide SortBySn;
    SortSorts(q.queue);
    Cut(q.drained, SortBySn(q.queue), Monus(|q.queue|, lower));
  }

  lemma Cut(d: seq<Inst>, s: seq<Inst>, k: nat)
    requires k <= |s|
    ensures (d + s[..k]) + s[k..] == d + s
    ensures d <= d + s[..k]
    ensures Sorted(s) ==> Sorted(s[k..])
  {
    assert s == s[..k] + s[k..];
  }

  // One insertion, at any point of any run: what is drained only grows, nothing
  // is lost or duplicated, and the queue has the predicted length.
  lemma PushStep(q: Queue, x: Inst, t: nat, min: nat, max: nat)
    requires min <= max
    requires |q.queue| == QueueLength(t, min, max)
    ensures var r := Push(q, x, min, max);
      && q.drained <= r.drained
      && multiset(r.drained + r.queue) == multiset(q.drained) + multiset(q.queue) + multiset{x}
      && |r.queue| == QueueLength(t + 1, min, max)
      && (IsDrain(t + 1, min, max) ==>
            && |r.queue| == min
            && r.drained + r.queue == q.drained + SortBySn(q.queue + [x])
            && Sorted(r.queue))
      && (!IsDrain(t + 1, min, max) ==> r == Queue(q.queue + [x], q.drained))
  {
    hide SortBySn, Drain;
    QueueLengthStep(t, min, max);
    DrainCuts(q.(queue := q.queue + [x]), min);
    SortPermutes(q.queue + [x]);
  }

  lemma {:induction false} FeedGrows(q: Queue, a: seq<Inst>, t: nat, min: nat, max: nat)
    requires min <= max
    requires |q.queue| == QueueLength(t, min, max)
    ensures var r := Feed(q, a, min, max);
      && q.drained <= r.drained
      && multiset(r.drained + r.queue) == multiset(q.drained) + multiset(q.queue) + multiset(a)
      && |r.queue| == QueueLength(t + |a|, min, max)
    decreases |a|
  {
    hide Push, QueueLength;
    if a == [] {
    } else {
      PushStep(q, a[0], t, min, max);
      FeedGrows(Push(q, a[0], min, max), a[1..], t + 1, min, max);
      assert a == [a[0]] + a[1..];
    }
  }

  lemma {:induction false} FeedSplit(q: Queue, a: seq<Inst>, b: seq<Inst>, min: nat, max: nat)
    ensures Feed(q, a + b, min, max) == Feed(Feed(q, a, min, max), b, min, max)
    decreases |a|
  {
    if a == [] {
      assert a + b == b;
    } else {
      assert (a + b)[1..] == a[1..] + b;
      FeedSplit(Push(q, a[0], min, max), a[1..], b, min, max);
    }
  }

  // After every insertion of every run the queue is at most `max` long, and the
  // run as a whole emits exactly the instructions that were queued.
  lemma StreamConserves(a: seq<Inst>, t: nat, min: nat, max: nat)
    requires min <= max && t <= |a|
    ensures |Feed(Queue([], []), a[..t], min, max).queue| <= max
    ensures multiset(Stream(a, min, max)) == multiset(a)
  {
    FeedGrows(Queue([], []), a[..t], 0, min, max);
    QueueLengthStep(t, min, max);
    FeedGrows(Queue([], []), a, 0, min, max);
    FlushAll(Feed(Queue([], []), a, min, max));
    SortPermutes(Feed(Queue([], []), a, min, max).queue);
  }

  lemma FlushAll(q: Queue)
    ensures Drain(q, 0) == Queue([], q.drained + SortBySn(q.queue))
  {
    var s := SortBySn(q.queue);
    assert s[..|s|] == s && s[|s|..] == [];
  }

  // ----- when streaming equals sorting -----

  function CountLarger(s: seq<Inst>, v: int): nat {
    if s == [] then 0 else (if s[0].sn > v then 1 else 0) + CountLarger(s[1..], v)
  }

  lemma {:induction false} CountConcat(a: seq<Inst>, b: seq<Inst>, v: int)
    ensures CountLarger(a + b, v) == CountLarger(a, v) + CountLarger(b, v)
  {
    if a == [] {
      assert a + b == b;
    } else {
      assert (a + b)[1..] == a[1..] + b;
      CountConcat(a[1..], b, v);
    }
  }

  lemma {:induction false} CountBounds(s: seq<Inst>, v: int)
    ensures CountLarger(s, v) <= |s|
    ensures (forall e :: e in s ==> e.sn <= v) ==> CountLarger(s, v) == 0
    ensures (forall e :: e in s ==> e.sn > v) ==> CountLarger(s, v) == |s|
  {
    if s == [] {
    } else {
      CountBounds(s[1..], v);
    }
  }

  function Without(s: seq<Inst>, k: nat): seq<Inst>
    requires k < |s|
  {
    s[..k] + s[k + 1..]
  }

  lemma CountWithout(s: seq<Inst>, k: nat, v: int)
    requires k < |s|
    ensures CountLarger(s, v) == CountLarger(Without(s, k), v) + (if s[k].sn > v then 1 else 0)
    ensures multiset(Without(s, k)) == multiset(s) - multiset{s[k]}
  {
    assert s == s[..k] + s[k..] == s[..k] + ([s[k]] + s[k + 1..]);
    CountConcat(s[..k], s[k..], v);
    CountConcat(s[..k], s[k + 1..], v);
  }

  lemma {:induction false} CountPermutation(s: seq<Inst>, t: seq<Inst>, v: int)
    requires multiset(s) == multiset(t)
    ensures CountLarger(s, v) == CountLarger(t, v)
    decreases |s|
  {
    hide CountLarger;
    assert |s| == |multiset(s)| == |t|;
    if s == [] {
      assert t == [];
    } else {
      assert s[0] in multiset(t);
      var k :| 0 <= k < |t| && t[k] == s[0];
      CountWithout(s, 0, v);
      CountWithout(t, k, v);
      CountPermutation(Without(s, 0), Without(t, k), v);
    }
  }

  // The exact condition: at every drain, no instruction still to arrive has more
  // than `min` instructions with larger sequence numbers among those queued so far.
  ghost predicate OrderedAtDrains(a: seq<Inst>, min: nat, max: nat)
    requires min <= max
  {
    forall t: nat, j: nat :: IsDrain(t, min, max) && t <= j < |a| ==> CountLarger(a[..t], a[j].sn) <= min
  }

  // The assumption the viewer documents: no instruction is more than `min`
  // places out of order.
  ghost predicate DisplacedAtMost(a: seq<Inst>, min: nat) {
    forall j :: 0 <= j < |a| ==> CountLarger(a[..j], a[j].sn) <= min
  }

  lemma DocumentedAssumptionSuffices(a: seq<Inst>, min: nat, max: nat)
    requires min <= max && DisplacedAtMost(a, min)
    ensures OrderedAtDrains(a, min, max)
  {
    forall t: nat, j: nat | IsDrain(t, min, max) && t <= j < |a|
      ensures CountLarger(a[..t], a[j].sn) <= min
    {
      CountConcat(a[..t], a[t..j], a[j].sn);
      assert a[..t] + a[t..j] == a[..j];
    }
  }

  // What the proof carries: drained ++ sorted queue is the sorted prefix, and the
  // drained part is the front of the prefix sorted at the last drain point.
  ghost predicate Tracks(q: Queue, a: seq<Inst>, t: nat, d: nat, min: nat, max: nat)
    requires min <= max
  {
    && d <= t <= |a|
    && |q.queue| == QueueLength(t, min, max)
    && q.drained + SortBySn(q.queue) == SortBySn(a[..t])
    && (q.drained == [] || (IsDrain(d, min, max) && min < d && q.drained == SortBySn(a[..d])[..d - min]))
  }

  lemma DrainedNotLarger(q: Queue, a: seq<Inst>, t: nat, d: nat, min: nat, max: nat)
    requires min <= max && Tracks(q, a, t, d, min, max) && OrderedAtDrains(a, min, max)
    requires t < |a|
    ensures forall e :: e in q.drained ==> e.sn <= a[t].sn
  {
    hide SortBySn, QueueLength, IsDrain, CountLarger;
    if q.drained != [] {
      var s := SortBySn(a[..d]);
      SortSorts(a[..d]);
      SortPermutes(a[..d]);
      CountPermutation(s, a[..d], a[t].sn);
      FrontNotAbove(s, d - min, min, a[t].sn);
    }
  }

  // If at most `low` of a sorted list are larger, none of those before the last
  // `low` is.
  lemma FrontNotAbove(s: seq<Inst>, n: nat, low: nat, v: int)
    requires Sorted(s) && |s| == n + low && CountLarger(s, v) <= low
    ensures forall e :: e in s[..n] ==> e.sn <= v
  {
    hide CountLarger;
    forall k | 0 <= k < n ensures s[k].sn <= v {
      assert s == s[..k] + s[k..];
      CountConcat(s[..k], s[k..], v);
      CountBounds(s[k..], v);
    }
  }

  lemma TracksStep(q: Queue, a: seq<Inst>, t: nat, d: nat, min: nat, max: nat) returns (e: nat)
    requires min <= max && Tracks(q, a, t, d, min, max) && OrderedAtDrains(a, min, max)
    requires t < |a|
    ensures Tracks(Push(q, a[t], min, max), a, t + 1, e, min, max)
  {
    hide SortBySn, Push;
    var x := a[t];
    var r := Push(q, x, min, max);
    PushStep(q, x, t, min, max);
    PrefixGrows(q, a, t, d, min, max);
    if IsDrain(t + 1, min, max) {
      SortOfSorted(r.queue);
      e := t + 1;
      assert |r.drained| + min == t + 1;
      assert r.drained == (r.drained + r.queue)[..t + 1 - min];
    } else {
      e := d;
    }
  }

  lemma PrefixGrows(q: Queue, a: seq<Inst>, t: nat, d: nat, min: nat, max: nat)
    requires min <= max && Tracks(q, a, t, d, min, max) && OrderedAtDrains(a, min, max)
    requires t < |a|
    ensures q.drained + SortBySn(q.queue + [a[t]]) == SortBySn(a[..t + 1])
  {
    hide SortBySn, Insert;
    var x := a[t];
    DrainedNotLarger(q, a, t, d, min, max);
    InsertPasses(x, q.drained, SortBySn(q.queue));
    SortSnoc(q.queue, x);
    SortSnoc(a[..t], x);
    assert a[..t] + [x] == a[..t + 1];
  }

  lemma {:induction false} TracksRun(q: Queue, a: seq<Inst>, t: nat, d: nat, min: nat, max: nat)
    requires min <= max && Tracks(q, a, t, d, min, max) && OrderedAtDrains(a, min, max)
    ensures Drain(Feed(q, a[t..], min, max), 0).drained == SortBySn(a)
    decreases |a| - t
  {
    hide SortBySn, Push, QueueLength, IsDrain;
    if t == |a| {
      assert a[t..] == [] && a[..t] == a;
      FlushAll(q);
    } else {
      var e := TracksStep(q, a, t, d, min, max);
      TracksRun(Push(q, a[t], min, max), a, t + 1, e, min, max);
      assert a[t..][1..] == a[t + 1..];
    }
  }

  lemma SortedStreamIsOrdered(a: seq<Inst>, min: nat, max: nat)
    requires min <= max && Sorted(Stream(a, min, max))
    ensures OrderedAtDrains(a, min, max)
  {
    forall t: nat, j: nat | IsDrain(t, min, max) && t <= j < |a|
      ensures CountLarger(a[..t], a[j].sn) <= min
    {
      OrderedAtOneDrain(a, t, j, min, max);
    }
  }

  lemma OrderedAtOneDrain(a: seq<Inst>, t: nat, j: nat, min: nat, max: nat)
    requires min <= max && Sorted(Stream(a, min, max))
    requires IsDrain(t, min, max) && t <= j < |a|
    ensures CountLarger(a[..t], a[j].sn) <= min
  {
    var v := a[j].sn;
    var q := Feed(Queue([], []), a[..t], min, max);
    FeedGrows(Queue([], []), a[..t], 0, min, max);
    LaterArrivalLeavesLater(a, q, t, j, min, max);
    CountBounds(q.drained, v);
    CountBounds(q.queue, v);
    CountConcat(q.drained, q.queue, v);
    CountPermutation(q.drained + q.queue, a[..t], v);
  }

  // Whatever has been drained by time t precedes a[j], j >= t, in the output.
  lemma LaterArrivalLeavesLater(a: seq<Inst>, q: Queue, t: nat, j: nat, min: nat, max: nat)
    requires min <= max && Sorted(Stream(a, min, max)) && t <= j < |a|
    requires q == Feed(Queue([], []), a[..t], min, max) && |q.queue| == QueueLength(t, min, max)
    ensures forall e :: e in q.drained ==> e.sn <= a[j].sn
  {
    hide SortBySn, Feed;
    var r := Feed(q, a[t..], min, max);
    SortPermutes(r.queue);
    FeedGrows(q, a[t..], t, min, max);
    FeedSplit(Queue([], []), a[..t], a[t..], min, max);
    assert a[..t] + a[t..] == a;
    FlushAll(r);
    assert a[t..][j - t] == a[j];
    FrontNotLarger(q.drained, Stream(a, min, max), multiset(q.queue) + multiset(a[t..]), a[j]);
  }

  lemma FrontNotLarger(d: seq<Inst>, out: seq<Inst>, rest: multiset<Inst>, x: Inst)
    requires Sorted(out) && d <= out && x in rest
    requires multiset(out) == multiset(d) + rest
    ensures forall e :: e in d ==> e.sn <= x.sn
  {
    var back := out[|d|..];
    assert out == d + back;
    assert multiset(back)[x] == multiset(out)[x] - multiset(d)[x] == rest[x];
    var m :| 0 <= m < |back| && back[m] == x;
    assert out[|d| + m] == x;
  }

  // The streaming form is globally sorted exactly when OrderedAtDrains holds, and
  // then it is the very list that sorting all arrivals at once would give.
  lemma StreamSortsIffOrdered(a: seq<Inst>, min: nat, max: nat)
    requires min <= max
    ensures OrderedAtDrains(a, min, max) <==> Stream(a, min, max) == SortBySn(a)
    ensures OrderedAtDrains(a, min, max) <==> Sorted(Stream(a, min, max))
  {
    SortSorts(a);
    if OrderedAtDrains(a, min, max) {
      var start := Queue([], []);
      assert a[..0] == [] && a[0..] == a;
      assert Tracks(start, a, 0, 0, min, max);
      TracksRun(start, a, 0, 0, min, max);
    }
    if Sorted(Stream(a, min, max)) {
      SortedStreamIsOrdered(a, min, max);
    }
  }
}
