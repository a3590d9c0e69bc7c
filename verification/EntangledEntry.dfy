/** One entry of the entangled table: the destinations of a source line, kept in
    one common format with a confidence each. */
module EntangledEntry {
  import opened Arithmetic
  import opened EntangledFormat

  const SLOTS := 6
  const MAX_CONFIDENCE := 3
  const MAX_BB_SIZE := 63

  datatype Entry = Entry(tag: nat, format: nat, addr: seq<nat>, conf: seq<nat>, bbSize: nat)

  // A slot is in use when its confidence has reached the threshold of one.
  predicate Live(conf: seq<nat>, k: nat)
    requires k < |conf|
  {
    conf[k] >= 1
  }

  function LiveCount(conf: seq<nat>): (n: nat)
    ensures n <= |conf|
  {
    if conf == [] then 0
    else LiveCount(conf[..|conf| - 1]) + (if conf[|conf| - 1] >= 1 then 1 else 0)
  }

  predicate Shaped(e: Entry) {
    IsFormat(e.format) && |e.addr| == SLOTS && |e.conf| == SLOTS
  }

  ghost predicate Distinct(e: Entry)
    requires Shaped(e)
  {
    forall j, k :: 0 <= j < k < SLOTS && Live(e.conf, j) && Live(e.conf, k) ==>
      Compress(e.addr[j], e.format) != Compress(e.addr[k], e.format)
  }

  // The invariant: no more destinations than the format has room for, all
  // different, counters within their bits.
  ghost predicate Valid(e: Entry) {
    && Shaped(e)
    && LiveCount(e.conf) <= e.format
    && Distinct(e)
    && (forall k :: 0 <= k < SLOTS ==> e.conf[k] <= MAX_CONFIDENCE)
    && e.bbSize <= MAX_BB_SIZE
  }

  // The destination in slot k as seen from a source line.
  function Dest(e: Entry, line: nat, k: nat): nat
    requires Shaped(e) && k < SLOTS
  {
    Extend(line, e.addr[k], e.format)
  }

  function Blank(tag: nat): (e: Entry)
    ensures Valid(e) && e.tag == tag && e.format == NUM_FORMATS && e.bbSize == 0
    ensures forall k :: 0 <= k < SLOTS ==> !Live(e.conf, k)
  {
    assert LiveCount([0, 0, 0, 0, 0, 0]) == 0 by {
      NoneLive([0, 0, 0, 0, 0, 0]);
    }
    Entry(tag, NUM_FORMATS, [0, 0, 0, 0, 0, 0], [0, 0, 0, 0, 0, 0], 0)
  }

  lemma {:induction false} NoneLive(conf: seq<nat>)
    ensures LiveCount(conf) == 0 <==> forall k :: 0 <= k < |conf| ==> !Live(conf, k)
  {
    if conf == [] {
    } else {
      var p := conf[..|conf| - 1];
      NoneLive(p);
      assert forall k :: 0 <= k < |p| ==> Live(p, k) == Live(conf, k);
      assert Live(conf, |conf| - 1) <==> conf[|conf| - 1] >= 1;
    }
  }

  lemma {:induction false} CountSet(conf: seq<nat>, k: nat, v: nat)
    requires k < |conf|
    ensures LiveCount(conf[k := v]) ==
            LiveCount(conf) - (if Live(conf, k) then 1 else 0) + (if v >= 1 then 1 else 0)
  {
    var p := conf[..|conf| - 1];
    if k == |conf| - 1 {
      assert conf[k := v][..|conf| - 1] == p;
    } else {
      assert conf[k := v][..|conf| - 1] == p[k := v];
      CountSet(p, k, v);
    }
  }

  lemma {:induction false} CountMono(a: seq<nat>, b: seq<nat>)
    requires |a| == |b| && forall k :: 0 <= k < |a| && Live(a, k) ==> Live(b, k)
    ensures LiveCount(a) <= LiveCount(b)
  {
    if a == [] {
    } else {
      var p, q := a[..|a| - 1], b[..|b| - 1];
      assert Live(a, |a| - 1) ==> Live(b, |a| - 1);
      forall k | 0 <= k < |p| && Live(p, k) ensures Live(q, k) { assert Live(a, k); }
      CountMono(p, q);
    }
  }

  lemma {:induction false} HasFree(conf: seq<nat>)
    requires LiveCount(conf) < |conf|
    ensures exists k :: 0 <= k < |conf| && !Live(conf, k)
  {
    var l := |conf| - 1;
    if Live(conf, l) {
      HasFree(conf[..l]);
      var k :| 0 <= k < l && !Live(conf[..l], k);
      assert !Live(conf, k);
    }
  }

  // ----- choosing a format -----

  // The widest format needed by the first n slots and by a new destination.
  function MinFormat(e: Entry, line: nat, f0: nat, n: nat): (m: nat)
    requires Shaped(e) && IsLine(line) && IsFormat(f0) && n <= SLOTS
    ensures IsFormat(m) && m <= f0
    ensures forall k :: 0 <= k < n && Live(e.conf, k) ==>
              IsLine(Dest(e, line, k)) && m <= GetFormat(line, Dest(e, line, k))
  {
    if n == 0 then f0
    else
      var m := MinFormat(e, line, f0, n - 1);
      if Live(e.conf, n - 1) then
        ExtendedFormat(line, e.addr[n - 1], e.format);
        var f := GetFormat(line, Dest(e, line, n - 1));
        if f < m then f else m
      else m
  }

  lemma MinFormatStep(e: Entry, line: nat, f0: nat, k: nat)
    requires Shaped(e) && IsLine(line) && IsFormat(f0) && k < SLOTS
    ensures IsLine(Dest(e, line, k)) && e.format <= GetFormat(line, Dest(e, line, k))
    ensures var m, f := MinFormat(e, line, f0, k), GetFormat(line, Dest(e, line, k));
      MinFormat(e, line, f0, k + 1) == if Live(e.conf, k) && f < m then f else m
  {
    ExtendedFormat(line, e.addr[k], e.format);
  }

  lemma CountStep(conf: seq<nat>, k: nat)
    requires k < |conf|
    ensures LiveCount(conf[..k + 1]) == LiveCount(conf[..k]) + (if Live(conf, k) then 1 else 0)
  {
    assert conf[..k + 1][..k] == conf[..k];
  }

  // The format all need is that of one of them.
  lemma {:induction false} MinFormatIs(e: Entry, line: nat, f0: nat, n: nat)
    requires Shaped(e) && IsLine(line) && IsFormat(f0) && n <= SLOTS
    ensures var m := MinFormat(e, line, f0, n);
      m == f0 || exists k :: 0 <= k < n && Live(e.conf, k) && m == GetFormat(line, Dest(e, line, k))
  {
    hide GetFormat, Dest, IsLine;
    if n == 0 {
    } else {
      MinFormatStep(e, line, f0, n - 1);
      MinFormatIs(e, line, f0, n - 1);
    }
  }

  // Room for one more: each destination's format has as many places as there are
  // destinations then.
  lemma FitsIff(e: Entry, line: nat, f0: nat)
    requires Shaped(e) && IsLine(line) && IsFormat(f0)
    ensures LiveCount(e.conf) + 1 <= MinFormat(e, line, f0, SLOTS) <==>
            LiveCount(e.conf) + 1 <= f0 && AllNeed(e, line, LiveCount(e.conf) + 1)
  {
    hide GetFormat, Dest, LiveCount, IsLine;
    MinFormatIs(e, line, f0, SLOTS);
  }

  // Every destination is stored in a format of at least f.
  ghost predicate AllNeed(e: Entry, line: nat, f: nat)
    requires Shaped(e) && IsLine(line)
  {
    forall k :: 0 <= k < SLOTS && Live(e.conf, k) ==> IsLine(Dest(e, line, k)) && f <= GetFormat(line, Dest(e, line, k))
  }

  // Slot j is less sure than slot k, or as sure and before it.
  ghost predicate GoesFirst(conf: seq<nat>, j: nat, k: nat)
    requires j < |conf| && k < |conf|
  {
    conf[j] < conf[k] || (conf[j] == conf[k] && j < k)
  }

  // One look at the slots: how many are in use, the format all need, and the
  // first of the least confident ones.
  method Survey(e: Entry, line: nat, f0: nat) returns (minFormat: nat, numValid: nat, minPos: nat)
    requires Shaped(e) && IsLine(line) && IsFormat(f0)
    requires forall k :: 0 <= k < SLOTS ==> e.conf[k] <= MAX_CONFIDENCE
    ensures minFormat == MinFormat(e, line, f0, SLOTS) && numValid == 1 + LiveCount(e.conf)
    ensures numValid > 1 ==> minPos < SLOTS && Live(e.conf, minPos)
    ensures numValid > 1 ==> forall k :: 0 <= k < SLOTS && Live(e.conf, k) && k != minPos ==> GoesFirst(e.conf, minPos, k)
  {
    hide GetFormat, Dest, MinFormat, LiveCount, IsLine;
    minFormat, numValid, minPos := f0, 1, 0;
    NothingSurveyed(e, line, f0);
    var minValue := MAX_CONFIDENCE + 1;
    for k := 0 to SLOTS
      invariant minFormat == MinFormat(e, line, f0, k) && numValid == 1 + LiveCount(e.conf[..k])
      invariant numValid == 1 ==> minValue == MAX_CONFIDENCE + 1 && forall j :: 0 <= j < k ==> !Live(e.conf, j)
      invariant minPos < SLOTS
      invariant numValid > 1 ==> minPos < k && Live(e.conf, minPos) && minValue == e.conf[minPos]
      invariant forall j :: 0 <= j < k && Live(e.conf, j) && j != minPos ==> GoesFirst(e.conf, minPos, j)
    {
      MinFormatStep(e, line, f0, k);
      CountStep(e.conf, k);
      if e.conf[k] >= 1 {
        numValid := numValid + 1;
        var fk := FindFormat(line, Dest(e, line, k));
        if fk < minFormat {
          minFormat := fk;
        }
        if e.conf[k] < minValue {
          minValue, minPos := e.conf[k], k;
        }
      }
    }
    assert e.conf[..SLOTS] == e.conf;
  }

  lemma NothingSurveyed(e: Entry, line: nat, f0: nat)
    requires Shaped(e) && IsLine(line) && IsFormat(f0)
    ensures MinFormat(e, line, f0, 0) == f0 && LiveCount(e.conf[..0]) == 0
  {
  }

  // `r` is `e` with some slots given up.
  ghost predicate Thinned(e: Entry, r: Entry)
    requires Shaped(e)
  {
    && r == e.(conf := r.conf) && |r.conf| == SLOTS
    && forall k :: 0 <= k < SLOTS ==> r.conf[k] == e.conf[k] || r.conf[k] == 0
  }

  // Slot j was given up last, and before that the rest and a new destination did
  // not fit.
  ghost predicate LastGivenUp(e: Entry, r: Entry, line: nat, f0: nat, j: nat)
    requires Shaped(e) && Shaped(r) && IsLine(line) && IsFormat(f0)
  {
    && j < SLOTS && Live(e.conf, j) && !Live(r.conf, j)
    && (forall i :: 0 <= i < SLOTS && Live(e.conf, i) && !Live(r.conf, i) && i != j ==> GoesFirst(e.conf, i, j))
    && var conf := r.conf[j := e.conf[j]];
      LiveCount(conf) + 1 > MinFormat(r.(conf := conf), line, f0, SLOTS)
  }

  // Gives up destinations, least confident first, until the rest and a new one
  // fit the format they all need; gives up none when they fit as they are.
  method Evict(e: Entry, line: nat, f0: nat) returns (r: Entry, minFormat: nat)
    requires Valid(e) && IsLine(line) && IsFormat(f0)
    ensures Thinned(e, r) && Shaped(r)
    ensures minFormat == MinFormat(r, line, f0, SLOTS) && LiveCount(r.conf) + 1 <= minFormat
    ensures forall j, k :: 0 <= j < SLOTS && 0 <= k < SLOTS && Live(e.conf, j) && !Live(r.conf, j) && Live(r.conf, k) ==>
              GoesFirst(e.conf, j, k)
    ensures r != e ==> exists j: nat :: LastGivenUp(e, r, line, f0, j)
    ensures r == e <==> LiveCount(e.conf) + 1 <= MinFormat(e, line, f0, SLOTS)
  {
    hide MinFormat, Distinct, Dest, LiveCount, IsLine, GetFormat;
    r := e;
    while true
      invariant Thinned(e, r) && Shaped(r)
      invariant r == e || LiveCount(e.conf) + 1 > MinFormat(e, line, f0, SLOTS)
      invariant r == e || LiveCount(r.conf) < LiveCount(e.conf)
      invariant forall j, k :: 0 <= j < SLOTS && 0 <= k < SLOTS && Live(e.conf, j) && !Live(r.conf, j) && Live(r.conf, k) ==>
                  GoesFirst(e.conf, j, k)
      invariant r != e ==> exists j: nat :: LastGivenUp(e, r, line, f0, j)
      decreases LiveCount(r.conf)
    {
      var numValid, minPos;
      minFormat, numValid, minPos := Survey(r, line, f0);
      if numValid > minFormat {
        CountSet(r.conf, minPos, 0);
        ghost var was := r;
        r := r.(conf := r.conf[minPos := 0]);
        assert r.(conf := r.conf[minPos := e.conf[minPos]]) == was;
        assert forall k :: 0 <= k < SLOTS && Live(r.conf, k) ==> r.conf[k] == e.conf[k] && GoesFirst(was.conf, minPos, k);
        assert LastGivenUp(e, r, line, f0, minPos);
      } else {
        return;
      }
    }
  }

  // Rewrites all destinations in a format that holds them exactly.
  method Reformat(e: Entry, line: nat, f: nat) returns (r: Entry)
    requires Shaped(e) && IsLine(line) && IsFormat(f)
    requires forall k :: 0 <= k < SLOTS && Live(e.conf, k) ==>
               IsLine(Dest(e, line, k)) && f <= GetFormat(line, Dest(e, line, k))
    ensures r == e.(format := f, addr := r.addr) && Shaped(r)
    ensures forall k :: 0 <= k < SLOTS && Live(e.conf, k) ==> Dest(r, line, k) == Dest(e, line, k)
  {
    hide Extend, Compress, GetFormat, IsLine;
    var addr: seq<nat> := e.addr;
    for k := 0 to SLOTS
      invariant |addr| == SLOTS
      invariant forall j :: 0 <= j < k && Live(e.conf, j) ==> addr[j] == Compress(Dest(e, line, j), f)
      invariant forall j :: k <= j < SLOTS ==> addr[j] == e.addr[j]
    {
      if e.conf[k] >= 1 {
        addr := addr[k := Compress(Extend(line, addr[k], e.format), f)];
      }
    }
    r := e.(format := f, addr := addr);
    forall k | 0 <= k < SLOTS && Live(e.conf, k) ensures Dest(r, line, k) == Dest(e, line, k) {
      RoundTripIff(line, Dest(e, line, k), f);
    }
  }

  // The first slot whose destination is dst, or SLOTS.
  method FindSlot(e: Entry, line: nat, dst: nat) returns (k: nat)
    requires Shaped(e)
    ensures k <= SLOTS
    ensures k < SLOTS ==> Live(e.conf, k) && Dest(e, line, k) == dst
    ensures k == SLOTS ==> forall j :: 0 <= j < SLOTS && Live(e.conf, j) ==> Dest(e, line, j) != dst
  {
    hide Dest;
    k := 0;
    while k < SLOTS && !(e.conf[k] >= 1 && Dest(e, line, k) == dst)
      invariant 0 <= k <= SLOTS
      invariant forall j :: 0 <= j < k && Live(e.conf, j) ==> Dest(e, line, j) != dst
    {
      k := k + 1;
    }
  }

  method FindFree(conf: seq<nat>) returns (k: nat)
    requires LiveCount(conf) < |conf|
    ensures k < |conf| && !Live(conf, k)
  {
    HasFree(conf);
    k := 0;
    while conf[k] >= 1
      invariant 0 <= k < |conf|
      invariant forall j :: 0 <= j < k ==> Live(conf, j)
      decreases |conf| - k
    {
      assert Live(conf, k);
      k := k + 1;
    }
  }

  ghost predicate Known(e: Entry, line: nat, dst: nat)
    requires Shaped(e)
  {
    exists k :: 0 <= k < SLOTS && Live(e.conf, k) && Dest(e, line, k) == dst
  }

  lemma KnownBy(e: Entry, line: nat, k: nat)
    requires Shaped(e) && k < SLOTS && Live(e.conf, k)
    ensures Known(e, line, Dest(e, line, k))
  {
  }

  // Slot k still holds the destination it held.
  ghost predicate Kept(e: Entry, r: Entry, line: nat, k: nat)
    requires Shaped(e) && Shaped(r) && k < SLOTS
  {
    Live(r.conf, k) && Dest(r, line, k) == Dest(e, line, k)
  }

  ghost predicate AllKept(e: Entry, r: Entry, line: nat)
    requires Shaped(e) && Shaped(r)
  {
    forall k :: 0 <= k < SLOTS && Live(e.conf, k) ==> Kept(e, r, line, k)
  }

  ghost predicate LeastConfidentFirst(e: Entry, r: Entry, line: nat)
    requires Shaped(e) && Shaped(r)
  {
    forall j, k :: 0 <= j < SLOTS && 0 <= k < SLOTS && Live(e.conf, j) && Live(e.conf, k) ==>
      !Kept(e, r, line, j) && Kept(e, r, line, k) ==> GoesFirst(e.conf, j, k)
  }

  // The entry with the destinations kept and that of slot j.
  ghost function Retained(e: Entry, r: Entry, line: nat, j: nat): (q: Entry)
    requires Shaped(e) && Shaped(r)
    ensures Shaped(q)
  {
    e.(conf := seq(SLOTS, k requires 0 <= k < SLOTS =>
      if Live(e.conf, k) && (k == j || Kept(e, r, line, k)) then e.conf[k] else 0))
  }

  // Slot j was the last to be given up, and keeping it as well would not do.
  ghost predicate Necessary(e: Entry, r: Entry, line: nat, f0: nat, j: nat)
    requires Shaped(e) && Shaped(r) && IsLine(line) && IsFormat(f0)
  {
    && j < SLOTS && Live(e.conf, j) && !Kept(e, r, line, j)
    && (forall i :: 0 <= i < SLOTS && Live(e.conf, i) && !Kept(e, r, line, i) && i != j ==> GoesFirst(e.conf, i, j))
    && var q := Retained(e, r, line, j); LiveCount(q.conf) + 1 > MinFormat(q, line, f0, SLOTS)
  }

  lemma DistinctDests(e: Entry, line: nat)
    requires Shaped(e)
    ensures Distinct(e) <==>
            forall j, k :: 0 <= j < k < SLOTS && Live(e.conf, j) && Live(e.conf, k) ==> Dest(e, line, j) != Dest(e, line, k)
  {
    hide Extend, Compress, Live;
    forall j: nat, k: nat | j < k < SLOTS
      ensures Compress(e.addr[j], e.format) == Compress(e.addr[k], e.format) <==> Dest(e, line, j) == Dest(e, line, k)
    {
      SameDest(line, e.addr[j], e.addr[k], e.format);
    }
  }

  lemma SameDest(line: nat, a: nat, b: nat, f: nat)
    requires IsFormat(f)
    ensures Compress(a, f) == Compress(b, f) <==> Extend(line, a, f) == Extend(line, b, f)
  {
  }

  // `r` is `e` with the destination added.
  ghost predicate Gains(e: Entry, r: Entry, line: nat, dst: nat)
    requires Valid(e) && Valid(r) && IsLine(line) && IsLine(dst)
  {
    && r.tag == e.tag && r.bbSize == e.bbSize
    // the new destination is stored, fully confident
    && (exists k :: 0 <= k < SLOTS && r.conf[k] == MAX_CONFIDENCE && Dest(r, line, k) == dst)
    // every other destination is an old one, in its slot, with its confidence
    && (forall k :: 0 <= k < SLOTS && Live(r.conf, k) && Dest(r, line, k) != dst ==>
              Live(e.conf, k) && Kept(e, r, line, k) && r.conf[k] == e.conf[k])
    // what is given up is no more confident than what is kept
    && LeastConfidentFirst(e, r, line)
    // and something is given up exactly when the old ones and the new one do not fit
    && (AllKept(e, r, line) <==>
            Known(e, line, dst) || LiveCount(e.conf) + 1 <= MinFormat(e, line, GetFormat(line, dst), SLOTS))
    // and no more than that
    && (AllKept(e, r, line) || exists j: nat :: Necessary(e, r, line, GetFormat(line, dst), j))
  }

  // l1i_add_entangled_table on the entry of the source line.
  method AddDestination(e: Entry, line: nat, dst: nat) returns (r: Entry)
    requires Valid(e) && IsLine(line) && IsLine(dst)
    ensures Valid(r) && Gains(e, r, line, dst)
  {
    var k := FindSlot(e, line, dst);
    if k < SLOTS {
      r := Confirm(e, line, k);
      return;
    }
    r := Insert(e, line, dst);
  }

  method Confirm(e: Entry, line: nat, k: nat) returns (r: Entry)
    requires Valid(e) && k < SLOTS && Live(e.conf, k)
    ensures Valid(r) && r == e.(conf := e.conf[k := MAX_CONFIDENCE])
    ensures forall j :: 0 <= j < SLOTS ==> Live(r.conf, j) == Live(e.conf, j) && Dest(r, line, j) == Dest(e, line, j)
  {
    hide Extend, Compress;
    CountSet(e.conf, k, MAX_CONFIDENCE);
    r := e.(conf := e.conf[k := MAX_CONFIDENCE]);
  }

  method Insert(e: Entry, line: nat, dst: nat) returns (r: Entry)
    requires Valid(e) && IsLine(line) && IsLine(dst) && !Known(e, line, dst)
    ensures Valid(r) && Gains(e, r, line, dst)
  {
    hide Extend, Compress, GetFormat, MinFormat, Distinct, LiveCount, IsLine;
    var f0 := FindFormat(line, dst);
    var t, f := Evict(e, line, f0);
    var u := Reformat(t, line, f);
    var free := FindFree(u.conf);
    CountSet(u.conf, free, MAX_CONFIDENCE);
    r := u.(addr := u.addr[free := Compress(dst, f)], conf := u.conf[free := MAX_CONFIDENCE]);
    RoundTripIff(line, dst, f);
    BuiltKeeps(e, t, r, line, dst, free);
    if t != e {
      ghost var j: nat :| LastGivenUp(e, t, line, f0, j);
      BuiltNecessary(e, t, r, line, dst, free, f0, j);
    }
    BuiltDistinct(e, t, r, line, dst, free);
  }

  // The entry after thinning (t), reformatting and filling a free slot (r).
  ghost predicate Built(e: Entry, t: Entry, r: Entry, line: nat, dst: nat, free: nat) {
    && Shaped(e) && Shaped(r) && Thinned(e, t) && free < SLOTS
    && !Live(t.conf, free) && r.conf == t.conf[free := MAX_CONFIDENCE] && Dest(r, line, free) == dst
    && forall k :: 0 <= k < SLOTS && Live(t.conf, k) ==> Dest(r, line, k) == Dest(e, line, k)
  }

  lemma BuiltKeeps(e: Entry, t: Entry, r: Entry, line: nat, dst: nat, free: nat)
    requires Built(e, t, r, line, dst, free) && !Known(e, line, dst)
    ensures forall k :: 0 <= k < SLOTS && Live(e.conf, k) ==> (Kept(e, r, line, k) <==> Live(t.conf, k))
    ensures forall k :: 0 <= k < SLOTS && Live(r.conf, k) && Dest(r, line, k) != dst ==>
              Live(e.conf, k) && Kept(e, r, line, k) && r.conf[k] == e.conf[k]
    ensures (forall k :: 0 <= k < SLOTS && Live(e.conf, k) ==> Live(t.conf, k)) <==> t == e
  {
    hide Dest;
    if forall k :: 0 <= k < SLOTS && Live(e.conf, k) ==> Live(t.conf, k) {
      assert forall k :: 0 <= k < SLOTS ==> (Live(e.conf, k) ==> Live(t.conf, k)) && t.conf[k] == e.conf[k];
      assert t.conf == e.conf;
    }
  }

  lemma BuiltNecessary(e: Entry, t: Entry, r: Entry, line: nat, dst: nat, free: nat, f0: nat, j: nat)
    requires Built(e, t, r, line, dst, free) && !Known(e, line, dst) && IsLine(line) && IsFormat(f0)
    requires Shaped(t) && LastGivenUp(e, t, line, f0, j)
    ensures Necessary(e, r, line, f0, j)
  {
    BuiltKeeps(e, t, r, line, dst, free);
    hide Dest, MinFormat, LiveCount, Kept, IsLine, GoesFirst;
    var q := Retained(e, r, line, j);
    assert forall k :: 0 <= k < SLOTS ==> q.conf[k] == t.conf[j := e.conf[j]][k];
    assert q.conf == t.conf[j := e.conf[j]];
  }

  lemma BuiltDistinct(e: Entry, t: Entry, r: Entry, line: nat, dst: nat, free: nat)
    requires Built(e, t, r, line, dst, free) && !Known(e, line, dst) && Distinct(e)
    ensures Distinct(r)
  {
    hide Dest, Distinct;
    DistinctDests(e, line);
    DistinctDests(r, line);
  }

  // ----- confidence -----

  function Adjusted(e: Entry, dst: nat, accessed: bool, k: nat): nat
    requires Shaped(e) && k < SLOTS
  {
    var c := e.conf[k];
    if c >= 1 && Compress(e.addr[k], e.format) == Compress(dst, e.format) then
      if accessed then (if c < MAX_CONFIDENCE then c + 1 else c) else c - 1
    else c
  }

  // `r` is `e` after a report on a destination.
  ghost predicate Updated(e: Entry, r: Entry, dst: nat, accessed: bool) {
    && Shaped(e) && |r.conf| == SLOTS && r == e.(conf := r.conf)
    && forall k :: 0 <= k < SLOTS ==> r.conf[k] == Adjusted(e, dst, accessed, k)
  }

  // The slots a report is about: those whose destination has the reported bits.
  lemma ReportedSlots(e: Entry, line: nat, dst: nat, k: nat)
    requires Shaped(e) && k < SLOTS && IsLine(line) && IsLine(dst)
    ensures Compress(e.addr[k], e.format) == Compress(dst, e.format) <==> Dest(e, line, k) == Extend(line, dst, e.format)
    ensures Dest(e, line, k) == dst ==> Compress(e.addr[k], e.format) == Compress(dst, e.format)
  {
    hide Compress, Extend, IsLine;
    SameDest(line, e.addr[k], dst, e.format);
    DestBits(line, e.addr[k], e.format);
  }

  lemma DestBits(line: nat, a: nat, f: nat)
    requires IsFormat(f)
    ensures Compress(Extend(line, a, f), f) == Compress(a, f)
  {
    ExtendParts(line, a, f);
  }

  // An access keeps every destination and makes the one reported surer, up to the
  // maximum; a useless prefetch makes it less sure.  Other slots do not move.
  lemma ReportEffect(e: Entry, r: Entry, line: nat, dst: nat, accessed: bool, k: nat)
    requires Valid(e) && Updated(e, r, dst, accessed) && IsLine(line) && IsLine(dst) && k < SLOTS
    ensures Dest(r, line, k) == Dest(e, line, k)
    ensures accessed ==> e.conf[k] <= r.conf[k] && (Live(r.conf, k) <==> Live(e.conf, k))
    ensures !accessed ==> r.conf[k] <= e.conf[k]
    ensures Live(e.conf, k) && Dest(e, line, k) == dst && accessed ==>
      r.conf[k] == if e.conf[k] == MAX_CONFIDENCE then MAX_CONFIDENCE else e.conf[k] + 1
    ensures Live(e.conf, k) && Dest(e, line, k) == dst && !accessed ==> r.conf[k] == e.conf[k] - 1
    ensures Live(e.conf, k) && Dest(e, line, k) != Extend(line, dst, e.format) ==> r.conf[k] == e.conf[k]
    ensures !Live(e.conf, k) ==> !Live(r.conf, k)
  {
    hide Compress, Extend, IsLine, Distinct, LiveCount;
    ReportedSlots(e, line, dst, k);
  }

  // After as many useless prefetches in a row as the counter can hold, the
  // destination is forgotten.
  lemma UselessAreForgotten(es: seq<Entry>, line: nat, dst: nat)
    requires |es| == MAX_CONFIDENCE + 1 && Valid(es[0]) && IsLine(line) && IsLine(dst)
    requires forall i :: 0 <= i < MAX_CONFIDENCE ==> Updated(es[i], es[i + 1], dst, false)
    ensures Shaped(es[MAX_CONFIDENCE]) && !Known(es[MAX_CONFIDENCE], line, dst)
  {
    hide Compress, Extend, IsLine, Distinct, LiveCount;
    var e, r := es[0], es[MAX_CONFIDENCE];
    assert Updated(es[0], es[1], dst, false) && Updated(es[1], es[2], dst, false) && Updated(es[2], es[3], dst, false);
    forall k | 0 <= k < SLOTS && Dest(r, line, k) == dst ensures !Live(r.conf, k) {
      ReportedSlots(e, line, dst, k);
    }
  }

  // l1i_update_confidence_entangled_table on one entry: the slot of the given
  // destination, and no other, gains or loses one step of confidence.
  method UpdateConfidence(e: Entry, dst: nat, accessed: bool) returns (r: Entry)
    requires Valid(e)
    ensures Valid(r) && Updated(e, r, dst, accessed)
    ensures forall k :: 0 <= k < SLOTS && Live(r.conf, k) ==> Live(e.conf, k)
    ensures forall k :: 0 <= k < SLOTS ==> if accessed then e.conf[k] <= r.conf[k] else r.conf[k] <= e.conf[k]
    ensures forall j, k :: 0 <= j < k < SLOTS && r.conf[j] != e.conf[j] ==> r.conf[k] == e.conf[k]
  {
    hide Compress;
    var conf := e.conf;
    for k := 0 to SLOTS
      invariant |conf| == SLOTS
      invariant forall j :: 0 <= j < k ==> conf[j] == Adjusted(e, dst, accessed, j)
      invariant forall j :: k <= j < SLOTS ==> conf[j] == e.conf[j]
    {
      if conf[k] >= 1 && Compress(e.addr[k], e.format) == Compress(dst, e.format) {
        if accessed && conf[k] < MAX_CONFIDENCE {
          conf := conf[k := conf[k] + 1];
        } else if !accessed && conf[k] > 0 {
          conf := conf[k := conf[k] - 1];
        }
      }
    }
    r := e.(conf := conf);
    CountMono(r.conf, e.conf);
  }

  // ----- prefetching the destinations -----

  // The loop of calculatePrefetch over the slots of the entry of `line`.  While
  // slot k is handled, confidence is taken from the destinations lost[k].  The
  // count of destinations handled never exceeds the format they need, which is what
  // the assertion after the loop states.  Lines with an ongoing request are not
  // issued again.
  method PrefetchScan(e0: Entry, line: nat, lost: seq<seq<nat>>, ongoing: set<nat>)
    returns (e: Entry, format: nat, num: nat, handled: seq<nat>, issued: seq<nat>)
    requires Valid(e0) && IsLine(line) && |lost| == SLOTS
    ensures Valid(e) && e == e0.(conf := e.conf)
    ensures forall k :: 0 <= k < SLOTS ==> e.conf[k] <= e0.conf[k]
    ensures num <= format && IsFormat(format) && |handled| == num
    ensures forall d :: d in handled ==> d != 0 && d != line && IsLine(d) && Known(e0, line, d)
    ensures forall d :: d in handled ==> format <= GetFormat(line, d)
    ensures forall k :: 0 <= k < SLOTS && Live(e.conf, k) && Dest(e, line, k) != 0 && Dest(e, line, k) != line ==>
              Dest(e, line, k) in handled
    ensures forall d :: d in issued <==> d in handled && d !in ongoing
  {
    hide GetFormat, Compress, Extend, Distinct, LiveCount, IsLine, MinFormat, Known;
    e, format, num, handled, issued := e0, NUM_FORMATS, 0, [], [];
    NothingSurveyed(e0, line, NUM_FORMATS);
    for k := 0 to SLOTS
      invariant Valid(e) && e == e0.(conf := e.conf)
      invariant forall j :: 0 <= j < SLOTS ==> e.conf[j] <= e0.conf[j]
      invariant IsFormat(format) && e0.format <= format
      invariant num <= LiveCount(e0.conf[..k]) && |handled| == num
      invariant forall d :: d in handled ==> d != 0 && d != line && IsLine(d) && Known(e0, line, d)
      invariant forall d :: d in handled ==> format <= GetFormat(line, d)
      invariant forall d :: d in issued <==> d in handled && d !in ongoing
      invariant forall j :: 0 <= j < k && Live(e.conf, j) && Dest(e, line, j) != 0 && Dest(e, line, j) != line ==>
                  Dest(e, line, j) in handled
    {
      CountStep(e0.conf, k);
      if e.conf[k] >= 1 {
        MinFormatStep(e, line, NUM_FORMATS, k);
        var d := Dest(e, line, k);
        if d != 0 && d != line {
          KnownBy(e0, line, k);
          var fk := FindFormat(line, d);
          if fk < format {
            format := fk;
          }
          num := num + 1;
          handled := handled + [d];
          e := Weaken(e, lost[k]);
          if d !in ongoing {
            issued := issued + [d];
          }
        }
      }
    }
    assert e0.conf[..SLOTS] == e0.conf;
  }

  method Weaken(e: Entry, lines: seq<nat>) returns (r: Entry)
    requires Valid(e)
    ensures Valid(r) && r == e.(conf := r.conf)
    ensures forall k :: 0 <= k < SLOTS ==> r.conf[k] <= e.conf[k]
  {
    r := e;
    for i := 0 to |lines|
      invariant Valid(r) && r == e.(conf := r.conf)
      invariant forall k :: 0 <= k < SLOTS ==> r.conf[k] <= e.conf[k]
    {
      r := UpdateConfidence(r, lines[i], false);
    }
  }
}
