/** The ASCII form of instruction dependency records: the printer of the trace
    decoder and the line parser of the trace encoder. */
module DepTrace {
  import opened Options
  import opened Text

  const U32 := 0x1_0000_0000
  const U64 := 0x1_0000_0000_0000_0000

  datatype Kind = INVALID | LOAD | STORE | COMP

  datatype Record = Record(seqNum: nat, kind: Kind, pAddr: Option<nat>, size: Option<nat>, flags: Option<nat>,
                           robDep: seq<nat>, compDelay: nat, regDep: seq<nat>,
                           weight: Option<nat>, pc: Option<nat>, vAddr: Option<nat>, asid: Option<nat>)

  predicate FitsIn(o: Option<nat>, limit: nat) { o.Some? ==> o.value < limit }

  // The widths of the message fields.
  ghost predicate Fits(r: Record) {
    && r.seqNum < U64 && r.compDelay < U64
    && FitsIn(r.pAddr, U64) && FitsIn(r.size, U32) && FitsIn(r.flags, U32)
    && FitsIn(r.weight, U32) && FitsIn(r.pc, U64)
    && (forall i :: 0 <= i < |r.robDep| ==> r.robDep[i] < U64)
    && (forall i :: 0 <= i < |r.regDep| ==> r.regDep[i] < U64)
  }

  predicate IsMemory(k: Kind) { k == LOAD || k == STORE }

  function GetOr(o: Option<nat>, default: nat): nat { if o.Some? then o.value else default }

  // ----- printing -----

  function Name(k: Kind): string {
    match k
    case INVALID => "INVALID"
    case LOAD => "LOAD"
    case STORE => "STORE"
    case COMP => "COMP"
  }

  function Opt(o: Option<nat>): seq<string> { if o.Some? then [Decimal(o.value)] else [] }

  function Decimals(ds: seq<nat>): seq<string> {
    seq(|ds|, i requires 0 <= i < |ds| => Decimal(ds[i]))
  }

  function Fields(r: Record): (f: seq<string>)
    ensures |f| >= 5
  {
    [Decimal(r.seqNum), Decimal(GetOr(r.pc, 0)), Decimal(GetOr(r.weight, 1)), Name(r.kind)]
    + Opt(r.pAddr) + Opt(r.size) + Opt(r.flags) + [Decimal(r.compDelay)]
  }

  function DepText(ds: seq<nat>): string {
    Join([""] + Decimals(ds), ',')
  }

  function Body(r: Record): string {
    Join(Fields(r), ',') + ":" + DepText(r.robDep) + ":" + DepText(r.regDep)
  }

  function Line(r: Record): string { Body(r) + "\n" }

  // ----- parsing -----

  function KindOf(name: string): Option<Kind> {
    if name == "INVALID" then Some(INVALID)
    else if name == "LOAD" then Some(LOAD)
    else if name == "STORE" then Some(STORE)
    else if name == "COMP" then Some(COMP)
    else None
  }

  // int() followed by the range check of the message field.
  function ParseNat(s: string, limit: nat): Option<nat> {
    var v := ParseInt(s);
    if v.Some? && 0 <= v.value < limit then Some(v.value) else None
  }

  // The dependency list: empty items are skipped.
  function ParseDeps(items: seq<string>): Option<seq<nat>> {
    if items == [] then Some([])
    else
      var front, item := ParseDeps(items[..|items| - 1]), items[|items| - 1];
      if front.None? || item == "" then front
      else
        var v := ParseNat(item, U64);
        if v.None? then None else Some(front.value + [v.value])
  }

  // The comma-separated part: sequence number, pc, weight, type, then address,
  // size and flags of a load or store, then the computation delay.
  function ParseInfo(info: seq<string>): Option<Record> {
    if |info| < 5 then None
    else
      var kind := KindOf(info[3]);
      var sn, pc, weight := ParseNat(info[0], U64), ParseNat(info[1], U64), ParseNat(info[2], U32);
      if sn.None? || pc.None? || weight.None? || kind.None? || kind.value == INVALID then None
      else if IsMemory(kind.value) then
        if |info| < 8 then None
        else
          var p, s, f, d := ParseNat(info[4], U64), ParseNat(info[5], U32), ParseNat(info[6], U32), ParseNat(info[7], U64);
          if p.None? || s.None? || f.None? || d.None? then None
          else Some(Record(sn.value, kind.value, p, s, f, [], d.value, [], weight, pc, None, None))
      else
        var d := ParseNat(info[4], U64);
        if d.None? then None
        else Some(Record(sn.value, kind.value, None, None, None, [], d.value, [], weight, pc, None, None))
  }

  function ParseLine(line: string): Option<Record> {
    var parts := Split(Strip(line), ':');
    if |parts| != 3 then None
    else
      var r := ParseInfo(Split(parts[0], ','));
      var rob, reg := ParseDeps(Split(Strip(parts[1]), ',')), ParseDeps(Split(parts[2], ','));
      if r.None? || rob.None? || reg.None? then None
      else Some(r.value.(robDep := rob.value, regDep := reg.value))
  }

  // ----- the round trip of one record -----

  // What survives printing: pc and weight become explicit, v_addr and asid are
  // never printed.
  function Normalize(r: Record): Record {
    r.(pc := Some(GetOr(r.pc, 0)), weight := Some(GetOr(r.weight, 1)), vAddr := None, asid := None)
  }

  // A known type, with address, size and flags exactly for loads and stores.
  ghost predicate WellFormed(r: Record) {
    match r.kind
    case INVALID => false
    case COMP => r.pAddr.None? && r.size.None? && r.flags.None?
    case LOAD => r.pAddr.Some? && r.size.Some? && r.flags.Some?
    case STORE => r.pAddr.Some? && r.size.Some? && r.flags.Some?
  }

  // Characters of numbers, names and the lists made of them.
  ghost predicate Plain(s: string) {
    forall c :: c in s ==> c != ',' && c != ':' && !IsSpace(c)
  }

  lemma DecimalPlain(n: nat)
    ensures Plain(Decimal(n)) && Decimal(n) != "" && IsDigit(Decimal(n)[0])
  {
    DecimalDigits(n);
    assert Decimal(n)[0] in Decimal(n);
  }

  lemma NamePlain(k: Kind)
    ensures Plain(Name(k)) && KindOf(Name(k)) == Some(k)
  {
  }

  lemma KindOfIff(name: string, k: Kind)
    ensures KindOf(name) == Some(k) <==> name == Name(k)
  {
  }

  lemma ParseNatDecimal(n: nat, limit: nat)
    ensures ParseNat(Decimal(n), limit) == if n < limit then Some(n) else None
  {
    ParseDecimal(n);
  }

  lemma FieldsPlain(r: Record)
    ensures forall i :: 0 <= i < |Fields(r)| ==> Plain(Fields(r)[i])
  {
    hide Decimal, Name, Plain;
    DecimalPlain(r.seqNum);
    DecimalPlain(GetOr(r.pc, 0));
    DecimalPlain(GetOr(r.weight, 1));
    NamePlain(r.kind);
    DecimalPlain(GetOr(r.pAddr, 0));
    DecimalPlain(GetOr(r.size, 0));
    DecimalPlain(GetOr(r.flags, 0));
    DecimalPlain(r.compDelay);
  }

  lemma DecimalsPlain(ds: seq<nat>)
    ensures var items := [""] + Decimals(ds);
      forall i :: 0 <= i < |items| ==> Plain(items[i])
  {
    var items := [""] + Decimals(ds);
    forall i | 0 <= i < |items| ensures Plain(items[i]) {
      if i > 0 { DecimalPlain(ds[i - 1]); }
    }
  }

  // A comma-joined list of plain items splits back and has neither colon nor space.
  lemma JoinedIsClean(items: seq<string>)
    requires items != [] && forall i :: 0 <= i < |items| ==> Plain(items[i])
    ensures Split(Join(items, ','), ',') == items
    ensures ':' !in Join(items, ',') && NoSpace(Join(items, ','))
  {
    SplitJoin(items, ',');
    JoinChars(items, ',', ':');
    forall c | c in Join(items, ',') ensures !IsSpace(c) { JoinChars(items, ',', c); }
  }

  lemma {:induction false} DepsParse(ds: seq<nat>)
    requires forall i :: 0 <= i < |ds| ==> ds[i] < U64
    ensures ParseDeps([""] + Decimals(ds)) == Some(ds)
  {
    if ds == [] {
      assert [""] + Decimals(ds) == [""];
      assert [""][..0] == [];
    } else {
      hide ParseNat, Decimal;
      var p, d := ds[..|ds| - 1], ds[|ds| - 1];
      DepsParse(p);
      assert p + [d] == ds;
      var items := [""] + Decimals(ds);
      assert items[..|items| - 1] == [""] + Decimals(p);
      assert items[|items| - 1] == Decimal(d);
      ParseNatDecimal(d, U64);
      DecimalPlain(d);
    }
  }

  lemma DepTextClean(ds: seq<nat>)
    ensures ':' !in DepText(ds) && NoSpace(DepText(ds))
    ensures Split(DepText(ds), ',') == [""] + Decimals(ds)
  {
    DecimalsPlain(ds);
    JoinedIsClean([""] + Decimals(ds));
  }

  lemma InfoClean(r: Record)
    ensures var info := Join(Fields(r), ',');
      ':' !in info && NoSpace(info) && Split(info, ',') == Fields(r) && info != ""
  {
    hide Fields;
    FieldsPlain(r);
    JoinedIsClean(Fields(r));
    assert |Split("", ',')| == 1;
  }

  lemma BodySplits(r: Record)
    ensures Split(Strip(Line(r)), ':') == [Join(Fields(r), ','), DepText(r.robDep), DepText(r.regDep)]
    ensures Strip(DepText(r.robDep)) == DepText(r.robDep)
  {
    hide Fields, DepText, Split, Join;
    var info, rob, reg := Join(Fields(r), ','), DepText(r.robDep), DepText(r.regDep);
    InfoClean(r);
    DepTextClean(r.robDep);
    DepTextClean(r.regDep);
    var body := Body(r);
    assert body[0] == info[0];
    assert body[|body| - 1] == if reg == "" then ':' else reg[|reg| - 1];
    StripNewline(body);
    SplitWhole(info, ':');
    SplitOneMore(info, [info], rob, ':');
    SplitOneMore(info + ":" + rob, [info, rob], reg, ':');
    assert info + ":" + rob + ":" + reg == body;
    StripNothing(rob);
  }

  lemma ParsePrinted(r: Record)
    requires Fits(r)
    ensures ParseLine(Line(r)) ==
      var p := ParseInfo(Fields(r));
      if p.None? then None else Some(p.value.(robDep := r.robDep, regDep := r.regDep))
  {
    hide Fields, ParseInfo, ParseDeps, Split, Join, Line;
    BodySplits(r);
    InfoClean(r);
    DepTextClean(r.robDep);
    DepTextClean(r.regDep);
    DepsParse(r.robDep);
    DepsParse(r.regDep);
  }

  lemma InfoParses(r: Record)
    requires Fits(r)
    ensures var p := ParseInfo(Fields(r));
      if WellFormed(r) then p == Some(Normalize(r).(robDep := [], regDep := []))
      else p.None? || p.value.(robDep := r.robDep, regDep := r.regDep) != Normalize(r)
  {
    hide Decimal, Name, KindOf, ParseNat;
    ParseNatDecimal(r.seqNum, U64);
    ParseNatDecimal(GetOr(r.pc, 0), U64);
    ParseNatDecimal(GetOr(r.weight, 1), U32);
    NamePlain(r.kind);
    ParseNatDecimal(GetOr(r.pAddr, 0), U64);
    ParseNatDecimal(GetOr(r.size, 0), U32);
    ParseNatDecimal(GetOr(r.flags, 0), U32);
    ParseNatDecimal(r.compDelay, U64);
  }

  // Printing and parsing a record gives it back, defaults made explicit, exactly
  // when it is well formed.
  lemma RecordRoundTripIff(r: Record)
    requires Fits(r)
    ensures ParseLine(Line(r)) == Some(Normalize(r)) <==> WellFormed(r)
  {
    hide ParseLine, Line, ParseInfo, Fields;
    ParsePrinted(r);
    InfoParses(r);
  }

  // ----- whole files -----

  function PrintAll(rs: seq<Record>): string {
    if rs == [] then "" else PrintAll(rs[..|rs| - 1]) + Line(rs[|rs| - 1])
  }

  datatype Parsed = Parsed(records: seq<Record>, ok: bool)

  // The encoder stops at the first line it cannot parse; earlier records are written.
  function AddParsed(before: Parsed, r: Option<Record>): Parsed {
    if !before.ok then before
    else if r.None? then Parsed(before.records, false)
    else Parsed(before.records + [r.value], true)
  }

  function ParseLines(ls: seq<string>): Parsed {
    if ls == [] then Parsed([], true)
    else AddParsed(ParseLines(ls[..|ls| - 1]), ParseLine(ls[|ls| - 1]))
  }

  function NormalizeAll(rs: seq<Record>): (n: seq<Record>)
    ensures |n| == |rs|
  {
    seq(|rs|, i requires 0 <= i < |rs| => Normalize(rs[i]))
  }

  function LinesFor(rs: seq<Record>): seq<string> {
    seq(|rs|, i requires 0 <= i < |rs| => Line(rs[i]))
  }

  lemma LineIsLine(r: Record)
    ensures IsLine(Line(r))
  {
    hide Fields, DepText, Join;
    InfoClean(r);
    DepTextClean(r.robDep);
    DepTextClean(r.regDep);
    assert IsSpace('\n');
    assert Line(r)[..|Line(r)| - 1] == Body(r);
  }

  lemma {:induction false} PrintAllIsConcat(rs: seq<Record>)
    ensures PrintAll(rs) == Concat(LinesFor(rs))
  {
    if rs == [] {
    } else {
      var p := rs[..|rs| - 1];
      PrintAllIsConcat(p);
      assert LinesFor(rs)[..|rs| - 1] == LinesFor(p);
    }
  }

  lemma PrintAllLines(rs: seq<Record>)
    ensures LinesOf(PrintAll(rs)) == LinesFor(rs)
  {
    hide Line;
    PrintAllIsConcat(rs);
    forall l | l in LinesFor(rs) ensures IsLine(l) {
      var i :| 0 <= i < |rs| && LinesFor(rs)[i] == l;
      LineIsLine(rs[i]);
    }
    LinesOfConcat(LinesFor(rs));
  }

  ghost predicate AllWellFormed(rs: seq<Record>) {
    forall i :: 0 <= i < |rs| ==> WellFormed(rs[i])
  }

  lemma {:induction false} LinesRoundTrip(rs: seq<Record>)
    requires forall i :: 0 <= i < |rs| ==> Fits(rs[i])
    ensures ParseLines(LinesFor(rs)) == Parsed(NormalizeAll(rs), true) <==> AllWellFormed(rs)
  {
    hide *;
    if rs == [] {
      NoLines();
    } else {
      var p, r := rs[..|rs| - 1], rs[|rs| - 1];
      LinesRoundTrip(p);
      RecordRoundTripIff(r);
      LastLine(rs);
      AllSnoc(rs);
      AddedEqual(ParseLines(LinesFor(p)), ParseLine(Line(r)), NormalizeAll(p), Normalize(r));
    }
  }

  lemma NoLines()
    ensures ParseLines(LinesFor([])) == Parsed(NormalizeAll([]), true) && AllWellFormed([])
  {
    assert LinesFor([]) == [] && NormalizeAll([]) == [];
  }

  lemma AllSnoc(rs: seq<Record>)
    requires rs != []
    ensures AllWellFormed(rs) <==> AllWellFormed(rs[..|rs| - 1]) && WellFormed(rs[|rs| - 1])
  {
    hide WellFormed;
    var p := rs[..|rs| - 1];
    assert forall i :: 0 <= i < |p| ==> p[i] == rs[i];
  }

  lemma AddedEqual(before: Parsed, v: Option<Record>, np: seq<Record>, nr: Record)
    ensures AddParsed(before, v) == Parsed(np + [nr], true) <==> before == Parsed(np, true) && v == Some(nr)
  {
    if before.ok && v.Some? {
      SnocEqual(before.records, v.value, np, nr);
    }
  }

  lemma LastLine(rs: seq<Record>)
    requires rs != []
    ensures var p, r := rs[..|rs| - 1], rs[|rs| - 1];
      && ParseLines(LinesFor(rs)) == AddParsed(ParseLines(LinesFor(p)), ParseLine(Line(r)))
      && NormalizeAll(rs) == NormalizeAll(p) + [Normalize(r)]
  {
    hide Line, Normalize, AddParsed, ParseLine;
    assert LinesFor(rs)[..|rs| - 1] == LinesFor(rs[..|rs| - 1]);
  }

  lemma SnocEqual(a: seq<Record>, x: Record, b: seq<Record>, y: Record)
    ensures a + [x] == b + [y] <==> a == b && x == y
  {
    if a + [x] == b + [y] {
      assert |a| == |b|;
      assert a == (a + [x])[..|a|] && x == (a + [x])[|a|];
      assert b == (b + [y])[..|b|] && y == (b + [y])[|b|];
    }
  }

  // Decoding a trace to text and encoding it again gives the same records exactly
  // when all of them are well formed.
  lemma TraceRoundTripIff(rs: seq<Record>)
    requires forall i :: 0 <= i < |rs| ==> Fits(rs[i])
    ensures ParseLines(LinesOf(PrintAll(rs))) == Parsed(NormalizeAll(rs), true) <==> AllWellFormed(rs)
  {
    hide *;
    PrintAllLines(rs);
    LinesRoundTrip(rs);
  }

  // ----- the programs -----

  lemma JoinSnoc(parts: seq<string>, x: string, sep: char)
    requires parts != []
    ensures Join(parts + [x], sep) == Join(parts, sep) + [sep] + x
  {
    assert (parts + [x])[..|parts|] == parts;
  }

  method PrintDeps(ds: seq<nat>) returns (out: string)
    ensures out == DepText(ds)
  {
    hide Join, Decimal;
    out := "";
    assert Join([""], ',') == "" by { JoinOne(""); }
    assert [""] + Decimals(ds[..0]) == [""];
    for i := 0 to |ds|
      invariant out == Join([""] + Decimals(ds[..i]), ',')
    {
      JoinSnoc([""] + Decimals(ds[..i]), Decimal(ds[i]), ',');
      assert ([""] + Decimals(ds[..i])) + [Decimal(ds[i])] == [""] + Decimals(ds[..i + 1]);
      out := out + "," + Decimal(ds[i]);
    }
    assert ds[..|ds|] == ds;
  }

  lemma JoinOne(x: string)
    ensures Join([x], ',') == x
  {
  }

  method PrintRecord(r: Record) returns (out: string)
    ensures out == Line(r)
  {
    hide Join, Decimal, Name, DepText, Opt;
    ghost var fs := [Decimal(r.seqNum)];
    JoinOne(Decimal(r.seqNum));
    out := Decimal(r.seqNum);
    out, fs := Put(out, fs, Decimal(if r.pc.Some? then r.pc.value else 0));
    out, fs := Put(out, fs, Decimal(if r.weight.Some? then r.weight.value else 1));
    out, fs := Put(out, fs, Name(r.kind));
    out, fs := PutOptional(out, fs, r.pAddr);
    out, fs := PutOptional(out, fs, r.size);
    out, fs := PutOptional(out, fs, r.flags);
    out, fs := Put(out, fs, Decimal(r.compDelay));
    assert fs == Fields(r);
    var rob := PrintDeps(r.robDep);
    var reg := PrintDeps(r.regDep);
    out := out + ":" + rob + ":" + reg + "\n";
  }

  method Put(out: string, ghost fs: seq<string>, x: string) returns (out': string, ghost fs': seq<string>)
    requires fs != [] && out == Join(fs, ',')
    ensures fs' == fs + [x] && out' == Join(fs', ',')
  {
    JoinSnoc(fs, x, ',');
    out', fs' := out + "," + x, fs + [x];
  }

  // An optional field is written only when present.
  method PutOptional(out: string, ghost fs: seq<string>, o: Option<nat>) returns (out': string, ghost fs': seq<string>)
    requires fs != [] && out == Join(fs, ',')
    ensures fs' == fs + Opt(o) && out' == Join(fs', ',')
  {
    if o.Some? {
      out', fs' := Put(out, fs, Decimal(o.value));
    } else {
      assert fs + [] == fs;
      out', fs' := out, fs;
    }
  }

  // The decoder's main loop.
  method PrintTrace(rs: seq<Record>) returns (out: string)
    ensures out == PrintAll(rs)
  {
    hide Line;
    out := "";
    for i := 0 to |rs|
      invariant out == PrintAll(rs[..i])
    {
      assert rs[..i + 1][..i] == rs[..i];
      var line := PrintRecord(rs[i]);
      out := out + line;
    }
    assert rs[..|rs|] == rs;
  }

  method ReadDeps(items: seq<string>) returns (r: Option<seq<nat>>)
    ensures r == ParseDeps(items)
  {
    hide ParseNat;
    var deps: seq<nat> := [];
    for i := 0 to |items|
      invariant ParseDeps(items[..i]) == Some(deps)
    {
      assert items[..i + 1][..i] == items[..i];
      if items[i] != "" {
        var v := ParseNat(items[i], U64);
        if v.None? {
          DepsFail(items, i + 1);
          return None;
        }
        deps := deps + [v.value];
      }
    }
    assert items[..|items|] == items;
    return Some(deps);
  }

  lemma {:induction false} DepsFail(items: seq<string>, k: nat)
    requires k <= |items| && ParseDeps(items[..k]).None?
    ensures ParseDeps(items).None?
  {
    if k < |items| {
      assert items[..|items| - 1][..k] == items[..k];
      DepsFail(items[..|items| - 1], k);
    } else {
      assert items[..k] == items;
    }
  }

  // The encoder's main loop.
  method EncodeTrace(ls: seq<string>) returns (records: seq<Record>, ok: bool)
    ensures ParseLines(ls) == Parsed(records, ok)
  {
    hide ParseDeps, ParseInfo, Split, Strip;
    records := [];
    for i := 0 to |ls|
      invariant ParseLines(ls[..i]) == Parsed(records, true)
    {
      assert ls[..i + 1][..i] == ls[..i];
      var parts := Split(Strip(ls[i]), ':');
      if |parts| != 3 {
        ParseStops(ls, i + 1);
        return records, false;
      }
      var r := ParseInfo(Split(parts[0], ','));
      var rob := ReadDeps(Split(Strip(parts[1]), ','));
      var reg := ReadDeps(Split(parts[2], ','));
      if r.None? || rob.None? || reg.None? {
        ParseStops(ls, i + 1);
        return records, false;
      }
      records := records + [r.value.(robDep := rob.value, regDep := reg.value)];
    }
    assert ls[..|ls|] == ls;
    ok := true;
  }

  lemma {:induction false} ParseStops(ls: seq<string>, k: nat)
    requires k <= |ls| && !ParseLines(ls[..k]).ok
    ensures ParseLines(ls) == ParseLines(ls[..k])
  {
    if k < |ls| {
      assert ls[..|ls| - 1][..k] == ls[..k];
      ParseStops(ls[..|ls| - 1], k);
    } else {
      assert ls[..k] == ls;
    }
  }

  // ----- the documented grammar -----

  // seq_num,pc,weight,type,[p_addr,size,flags,]comp_delay:[rob_dep]:[reg_dep], where
  // a pc that is not set reads 0 and a weight that is not set 1.
  lemma LineLayout(r: Record)
    requires WellFormed(r)
    ensures var n, e := Decimal(r.seqNum), Decimal(r.compDelay);
      var pc := Decimal(if r.pc.Some? then r.pc.value else 0);
      var w := Decimal(if r.weight.Some? then r.weight.value else 1);
      Line(r) == Join(match r.kind
          case COMP => [n, pc, w, "COMP", e]
          case LOAD =>
            [n, pc, w, "LOAD", Decimal(r.pAddr.value), Decimal(r.size.value), Decimal(r.flags.value), e]
          case STORE =>
            [n, pc, w, "STORE", Decimal(r.pAddr.value), Decimal(r.size.value), Decimal(r.flags.value), e],
        ',') + ":" + DepText(r.robDep) + ":" + DepText(r.regDep) + "\n"
  {
    hide Decimal, DepText, Join;
    var a, b, c := Decimal(r.seqNum), Decimal(GetOr(r.pc, 0)), Decimal(GetOr(r.weight, 1));
    var k, e := Name(r.kind), Decimal(r.compDelay);
    if r.kind == COMP {
      assert Fields(r) == [a, b, c, k, e];
    } else {
      assert Fields(r) == [a, b, c, k, Decimal(r.pAddr.value), Decimal(r.size.value), Decimal(r.flags.value), e];
    }
  }

  // Each dependency follows a comma.
  lemma DepLayout(ds: seq<nat>, d: nat)
    ensures DepText([]) == "" && DepText(ds + [d]) == DepText(ds) + "," + Decimal(d)
  {
    hide Decimal, Join;
    assert [""] + Decimals([]) == [""];
    JoinOne("");
    assert [""] + Decimals(ds + [d]) == ([""] + Decimals(ds)) + [Decimal(d)];
    JoinOneMore([""] + Decimals(ds), Decimal(d), [""] + Decimals(ds + [d]));
  }

  lemma JoinOneMore(parts: seq<string>, x: string, all: seq<string>)
    requires parts != [] && all == parts + [x]
    ensures Join(all, ',') == Join(parts, ',') + "," + x
  {
    JoinSnoc(parts, x, ',');
  }
}
