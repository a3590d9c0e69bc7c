/** Copyright years: compressing a set of years to text such as 2003-2005,2007 and
    reading such text back. */
module CopyrightDates {
  import opened Options
  import opened Text

  // ----- years to text -----

  ghost predicate Ascending(s: seq<nat>) {
    forall i, j :: 0 <= i < j < |s| ==> s[i] < s[j]
  }

  // Adds the next year to the runs found so far.
  function AddYear(runs: seq<(nat, nat)>, y: nat): seq<(nat, nat)> {
    if runs != [] && y == runs[|runs| - 1].1 + 1
    then runs[..|runs| - 1] + [(runs[|runs| - 1].0, y)]
    else runs + [(y, y)]
  }

  function Runs(years: seq<nat>): seq<(nat, nat)> {
    if years == [] then [] else AddYear(Runs(years[..|years| - 1]), years[|years| - 1])
  }

  function RunText(r: (nat, nat)): string {
    if r.0 == r.1 then Decimal(r.0) else Decimal(r.0) + "-" + Decimal(r.1)
  }

  function RunTexts(runs: seq<(nat, nat)>): (t: seq<string>)
    ensures |t| == |runs| && forall i :: 0 <= i < |t| ==> t[i] == RunText(runs[i])
  {
    seq(|runs|, i requires 0 <= i < |runs| => RunText(runs[i]))
  }

  function DateStr(years: seq<nat>): string
    requires years != []
  {
    Join(RunTexts(Runs(years)), ',')
  }

  predicate Within(x: int, lo: int, hi: int) { lo <= x <= hi }

  function Interval(lo: int, hi: int): set<int> { set x: int | lo <= x <= hi && Within(x, lo, hi) }

  function Span(r: (nat, nat)): set<int> { Interval(r.0, r.1) }

  // Runs in ascending order, none touching the next, so that none could be merged.
  ghost predicate Maximal(runs: seq<(nat, nat)>) {
    && (forall i :: 0 <= i < |runs| ==> runs[i].0 <= runs[i].1)
    && (forall i, j :: 0 <= i < j < |runs| ==> runs[i].1 + 1 < runs[j].0)
  }

  function SpanAll(runs: seq<(nat, nat)>): set<int> {
    if runs == [] then {} else SpanAll(runs[..|runs| - 1]) + Span(runs[|runs| - 1])
  }

  function YearSet(years: seq<nat>): set<int> {
    if years == [] then {} else YearSet(years[..|years| - 1]) + {years[|years| - 1]}
  }

  lemma SpanGrows(f: nat, y: nat)
    requires f <= y
    ensures Span((f, y + 1)) == Span((f, y)) + {y + 1} && Span((y, y)) == {y as int}
  {
  }

  lemma AddYearSpan(runs: seq<(nat, nat)>, y: nat)
    requires Maximal(runs)
    ensures SpanAll(AddYear(runs, y)) == SpanAll(runs) + {y}
  {
    hide Span;
    var n := |runs|;
    SpanGrows(y, y);
    if n > 0 && y == runs[n - 1].1 + 1 {
      var p := runs[..n - 1];
      assert (p + [(runs[n - 1].0, y)])[..n - 1] == p;
      SpanGrows(runs[n - 1].0, runs[n - 1].1);
      assert runs[n - 1] == (runs[n - 1].0, runs[n - 1].1);
    } else {
      assert (runs + [(y, y)])[..n] == runs;
    }
  }

  lemma AddYearMaximal(runs: seq<(nat, nat)>, y: nat)
    requires Maximal(runs) && (runs != [] ==> runs[|runs| - 1].1 < y)
    ensures Maximal(AddYear(runs, y)) && AddYear(runs, y) != []
    ensures AddYear(runs, y)[|AddYear(runs, y)| - 1].1 == y
  {
    var r, n := AddYear(runs, y), |runs|;
    forall i, j | 0 <= i < j < |r| ensures r[i].1 + 1 < r[j].0 {
      assert r[i] == runs[i];
    }
  }

  // The runs of an ascending list of years are ascending and maximal, and cover
  // exactly those years.
  lemma {:induction false} RunsFacts(years: seq<nat>)
    requires Ascending(years)
    ensures Maximal(Runs(years)) && SpanAll(Runs(years)) == YearSet(years)
    ensures years != [] ==> Runs(years) != [] && Runs(years)[|Runs(years)| - 1].1 == years[|years| - 1]
  {
    if years != [] {
      hide AddYear, Maximal, SpanAll;
      var p, y := years[..|years| - 1], years[|years| - 1];
      RunsFacts(p);
      assert p == [] ==> Runs(p) == [];
      AddYearMaximal(Runs(p), y);
      AddYearSpan(Runs(p), y);
    } else {
      assert SpanAll([]) == {};
    }
  }

  // ----- text to years -----

  predicate DigitsAt(s: string) {
    |s| >= 4 && IsDigit(s[0]) && IsDigit(s[1]) && IsDigit(s[2]) && IsDigit(s[3])
  }

  function FourDigits(s: string): (v: nat)
    requires DigitsAt(s)
    ensures v <= 9999
  {
    (s[0] as int - 48) * 1000 + (s[1] as int - 48) * 100 + (s[2] as int - 48) * 10 + (s[3] as int - 48)
  }

  // A match of ([0-9]{4})\s*-\s*([0-9]{4}) at the front of the text.
  function MatchRange(s: string): Option<(nat, nat)> {
    if !DigitsAt(s) then None
    else
      var t := StripFront(s[4..]);
      if t == [] || t[0] != '-' then None
      else
        var u := StripFront(t[1..]);
        if !DigitsAt(u) then None else Some((FourDigits(s), FourDigits(u)))
  }

  function DateSet(s: string): set<int> {
    var m := MatchRange(s);
    if m.Some? then Span(m.value)
    else
      var v := ParseInt(s);
      if v.Some? then {v.value} else {}
  }

  function DatesOf(parts: seq<string>): set<int> {
    if parts == [] then {} else DatesOf(parts[..|parts| - 1]) + DateSet(Strip(parts[|parts| - 1]))
  }

  function ProcessDates(text: string): set<int> {
    DatesOf(Split(text, ','))
  }

  // ----- one run -----

  lemma DecimalWidth(n: nat)
    ensures |Decimal(n)| < 4 <==> n < 1000
    ensures |Decimal(n)| == 4 <==> 1000 <= n <= 9999
  {
    if n >= 10 {
      DecimalTail(n);
      if n >= 100 {
        DecimalTail(n / 10);
        if n >= 1000 {
          DecimalTail(n / 100);
          if n >= 10000 { DecimalTail(n / 1000); DecimalDigits(n / 10000); }
        }
      }
    }
    DecimalDigits(n);
  }

  lemma DecimalTail(n: nat)
    requires n >= 10
    ensures Decimal(n) == Decimal(n / 10) + [Digit(n % 10)]
  {
  }

  lemma FourDigitsOf(n: nat)
    requires 1000 <= n <= 9999
    ensures DigitsAt(Decimal(n)) && FourDigits(Decimal(n)) == n
  {
    DecimalTail(n);
    DecimalTail(n / 10);
    DecimalTail(n / 100);
    assert Decimal(n / 1000) == [Digit(n / 1000)];
    var a, b, c, d := n / 1000, n / 100 % 10, n / 10 % 10, n % 10;
    assert Decimal(n) == [Digit(a), Digit(b), Digit(c), Digit(d)];
    assert n == 1000 * a + 100 * b + 10 * c + d;
  }

  lemma {:induction false} NotANumber(s: string, k: nat)
    requires k < |s| && !IsDigit(s[k])
    ensures Value(s).None?
  {
    if k < |s| - 1 { NotANumber(s[..|s| - 1], k); }
  }

  // A single year reads back as itself.
  lemma SingleYear(n: nat)
    ensures DateSet(Decimal(n)) == {n}
  {
    var s := Decimal(n);
    DecimalDigits(n);
    ParseDecimal(n);
    if DigitsAt(s) && |s| > 4 {
      assert s[4..][0] == s[4] && s[4] in s;
    }
  }

  lemma RangeIsNoNumber(f: nat, l: nat)
    ensures ParseInt(Decimal(f) + "-" + Decimal(l)).None?
  {
    hide Decimal;
    var a, b := Decimal(f), Decimal(l);
    var s := a + "-" + b;
    DecimalDigits(f);
    DecimalDigits(l);
    assert s[0] == a[0] && a[0] in a && s[|s| - 1] == b[|b| - 1] && b[|b| - 1] in b;
    StripNothing(s);
    assert s[|a|] == '-';
    NotANumber(s, |a|);
  }

  // A range is recognised exactly when it starts with a four-digit year; its end
  // is cut to four digits.
  lemma RangeMatch(f: nat, l: nat)
    requires 1000 <= f < l && f <= 9999
    ensures DigitsAt(Decimal(l))
    ensures MatchRange(Decimal(f) + "-" + Decimal(l)) == Some((f, FourDigits(Decimal(l))))
  {
    hide Decimal, FourDigits;
    var a, b := Decimal(f), Decimal(l);
    var s := a + "-" + b;
    DecimalDigits(l);
    DecimalWidth(f);
    DecimalWidth(l);
    LongDigits(b);
    FourDigitsOf(f);
    assert s[4..] == "-" + b;
    assert ("-" + b)[1..] == b && b[0] in b;
    assert FourDigits(s) == FourDigits(a) by { FourDigitsPrefix(s, a); }
    assert StripFront("-" + b) == "-" + b;
    assert StripFront(b) == b;
  }

  lemma FourDigitsPrefix(s: string, a: string)
    requires DigitsAt(a) && |s| >= 4 && s[..4] == a[..4]
    ensures DigitsAt(s) && FourDigits(s) == FourDigits(a)
  {
    assert forall i :: 0 <= i < 4 ==> s[i] == s[..4][i] && a[i] == a[..4][i];
  }

  lemma RangeNoMatch(f: nat, l: nat)
    requires f < 1000 || f > 9999
    ensures MatchRange(Decimal(f) + "-" + Decimal(l)).None?
  {
    hide Decimal, FourDigits;
    var a := Decimal(f);
    var s := a + "-" + Decimal(l);
    DecimalDigits(f);
    DecimalWidth(f);
    if f < 1000 {
      assert s[|a|] == '-';
      assert !DigitsAt(s);
    } else {
      assert s[4] == a[4] && a[4] in a;
      assert s[4..][0] == s[4];
    }
  }

  lemma LongDigits(b: string)
    requires AllDigits(b)
    ensures DigitsAt(b) <==> |b| >= 4
  {
    if |b| >= 4 { assert b[0] in b && b[1] in b && b[2] in b && b[3] in b; }
  }

  // A run survives the round trip when it is one year, or lies within the
  // four-digit years; otherwise at least its last year is lost, and nothing
  // outside the run is ever gained.
  predicate Survives(r: (nat, nat)) { r.0 == r.1 || (1000 <= r.0 && r.1 <= 9999) }

  lemma RunRoundTrip(r: (nat, nat))
    requires r.0 <= r.1
    ensures Survives(r) ==> DateSet(RunText(r)) == Span(r)
    ensures !Survives(r) ==> DateSet(RunText(r)) <= Span(r) && r.1 !in DateSet(RunText(r))
  {
    hide Decimal, MatchRange, ParseInt, FourDigits;
    if r.0 == r.1 {
      SingleYear(r.0);
      assert Span(r) == {r.0 as int};
    } else {
      RangeIsNoNumber(r.0, r.1);
      if 1000 <= r.0 <= 9999 {
        RangeMatch(r.0, r.1);
        if r.1 <= 9999 { FourDigitsOf(r.1); }
      } else {
        RangeNoMatch(r.0, r.1);
      }
    }
  }

  lemma RunTextClean(r: (nat, nat))
    ensures ',' !in RunText(r) && Strip(RunText(r)) == RunText(r)
  {
    DecimalDigits(r.0);
    DecimalDigits(r.1);
    var t := RunText(r);
    assert Decimal(r.0)[0] in Decimal(r.0) && Decimal(r.1)[|Decimal(r.1)| - 1] in Decimal(r.1);
    StripNothing(t);
  }

  // ----- the round trip -----

  // The years read from the texts of the runs.
  function ReadBack(runs: seq<(nat, nat)>): set<int> {
    if runs == [] then {} else ReadBack(runs[..|runs| - 1]) + DateSet(RunText(runs[|runs| - 1]))
  }

  lemma {:induction false} DatesOfTexts(runs: seq<(nat, nat)>)
    ensures DatesOf(RunTexts(runs)) == ReadBack(runs)
  {
    if runs == [] {
    } else {
      hide DateSet, RunText, Strip;
      var p := runs[..|runs| - 1];
      DatesOfTexts(p);
      assert RunTexts(runs)[..|runs| - 1] == RunTexts(p);
      RunTextClean(runs[|runs| - 1]);
    }
  }

  lemma TextReadsBack(years: seq<nat>)
    requires years != [] && Ascending(years)
    ensures ProcessDates(DateStr(years)) == ReadBack(Runs(years))
  {
    hide DateSet, Runs, RunText, Strip, Split, Join, ReadBack;
    var runs := Runs(years);
    RunsFacts(years);
    forall i | 0 <= i < |runs| ensures ',' !in RunText(runs[i]) { RunTextClean(runs[i]); }
    SplitJoin(RunTexts(runs), ',');
    DatesOfTexts(runs);
  }

  lemma {:induction false} SpanBounds(runs: seq<(nat, nat)>, x: int)
    requires Maximal(runs) && x in SpanAll(runs)
    ensures runs != [] && runs[0].0 <= x <= runs[|runs| - 1].1
  {
    var p := runs[..|runs| - 1];
    if x in SpanAll(p) { SpanBounds(p, x); }
  }

  lemma SpansApart(runs: seq<(nat, nat)>)
    requires Maximal(runs) && runs != []
    ensures SpanAll(runs[..|runs| - 1]) !! Span(runs[|runs| - 1])
  {
    hide SpanAll;
    var p := runs[..|runs| - 1];
    forall x | x in SpanAll(p) ensures x !in Span(runs[|runs| - 1]) { SpanBounds(p, x); }
  }

  ghost predicate AllSurvive(runs: seq<(nat, nat)>) {
    forall i :: 0 <= i < |runs| ==> Survives(runs[i])
  }

  lemma AllSurviveStep(runs: seq<(nat, nat)>)
    requires runs != []
    ensures AllSurvive(runs) <==> AllSurvive(runs[..|runs| - 1]) && Survives(runs[|runs| - 1])
  {
    hide Survives;
    var p := runs[..|runs| - 1];
    assert forall i :: 0 <= i < |p| ==> p[i] == runs[i];
  }

  // Reading back never adds a year, and is exact when all runs survive.
  lemma {:induction false} ReadBackIff(runs: seq<(nat, nat)>)
    requires Maximal(runs)
    ensures ReadBack(runs) <= SpanAll(runs)
    ensures ReadBack(runs) == SpanAll(runs) <==> AllSurvive(runs)
  {
    if runs == [] {
    } else {
      hide DateSet, RunText, Survives, AllSurvive, Span;
      var p, r := runs[..|runs| - 1], runs[|runs| - 1];
      ReadBackIff(p);
      RunRoundTrip(r);
      SpansApart(runs);
      AllSurviveStep(runs);
      LastYear(r);
      SplitEqual(ReadBack(p), SpanAll(p), DateSet(RunText(r)), Span(r));
    }
  }

  lemma LastYear(r: (nat, nat))
    requires r.0 <= r.1
    ensures r.1 in Span(r)
  {
  }

  lemma SplitEqual(a: set<int>, A: set<int>, b: set<int>, B: set<int>)
    requires a <= A && b <= B && A !! B
    ensures a + b == A + B <==> a == A && b == B
  {
    if a + b == A + B {
      forall x ensures x in A ==> x in a { assert x in A + B <==> x in a + b; }
      forall x ensures x in B ==> x in b { assert x in A + B <==> x in a + b; }
    }
  }

  // Reading back the text of a set of years gives the set exactly when every run
  // of two or more years lies within 1000 .. 9999; for four-digit years, always.
  lemma DatesRoundTripIff(years: seq<nat>)
    requires years != [] && Ascending(years)
    ensures ProcessDates(DateStr(years)) == YearSet(years) <==> AllSurvive(Runs(years))
  {
    hide *;
    RunsFacts(years);
    TextReadsBack(years);
    ReadBackIff(Runs(years));
  }

  lemma FourDigitYearsRoundTrip(years: seq<nat>)
    requires years != [] && Ascending(years) && 1000 <= years[0] && years[|years| - 1] <= 9999
    ensures ProcessDates(DateStr(years)) == YearSet(years)
  {
    hide ProcessDates, DateStr, Runs, YearSet;
    DatesRoundTripIff(years);
    RunsFacts(years);
    FirstRun(years);
  }

  lemma {:induction false} FirstRun(years: seq<nat>)
    requires years != [] && Ascending(years)
    ensures Runs(years) != [] && Runs(years)[0].0 == years[0]
  {
    if |years| == 1 {
      assert years[..0] == [];
    } else {
      FirstRun(years[..|years| - 1]);
    }
  }

  // ----- the programs -----

  method SortYears(dates: set<nat>) returns (years: seq<nat>)
    ensures Ascending(years) && forall y :: y in dates <==> y in years
  {
    years := [];
    var left := dates;
    while left != {}
      invariant Ascending(years) && left <= dates
      invariant forall y :: y in dates <==> y in years || y in left
      invariant forall i, y :: 0 <= i < |years| && y in left ==> years[i] < y
    {
      var m :| m in left;
      var rest := left - {m};
      while rest != {}
        invariant rest <= left && m in left && m !in rest
        invariant forall y :: y in left && y !in rest ==> m <= y
      {
        var y :| y in rest;
        if y < m {
          m := y;
        }
        rest := rest - {y};
      }
      years := years + [m];
      left := left - {m};
    }
  }

  lemma TextsAdd(runs: seq<(nat, nat)>, y: nat)
    requires runs != []
    ensures var r, n := AddYear(runs, y), |runs|;
      if y == runs[n - 1].1 + 1
      then r[|r| - 1] == (runs[n - 1].0, y) && RunTexts(r) == RunTexts(runs)[..n - 1] + [RunText((runs[n - 1].0, y))]
      else r[|r| - 1] == (y, y) && RunTexts(r) == RunTexts(runs) + [RunText((y, y))]
  {
    hide RunText;
  }

  // The years of a set in ascending order.
  ghost predicate InOrder(dates: set<nat>, years: seq<nat>) {
    Ascending(years) && forall y :: y in dates <==> y in years
  }

  // datestr; popping from the empty list is an error
  method MakeDateStr(dates: set<nat>) returns (text: Option<string>)
    ensures text.None? <==> dates == {}
    ensures text.Some? ==> exists years :: years != [] && InOrder(dates, years) && text.value == DateStr(years)
  {
    hide RunText, RunTexts, AddYear;
    var all := SortYears(dates);
    if |all| == 0 {
      return None;
    }
    assert all[0] in dates;
    var first, second, output := all[0], all[0], [];
    ghost var runs := Runs(all[..1]);
    FirstText(all);
    for i := 1 to |all|
      invariant runs == Runs(all[..i]) && runs != [] && runs[|runs| - 1] == (first, second)
      invariant RunTexts(runs) == output + [RunText((first, second))]
    {
      var next := all[i];
      assert all[..i + 1][..i] == all[..i];
      TextsAdd(runs, next);
      assert RunTexts(runs)[..|runs| - 1] == output;
      if next == second + 1 {
        second := next;
      } else {
        output := output + [RunText((first, second))];
        first, second := next, next;
      }
      runs := AddYear(runs, next);
    }
    assert all[..|all|] == all;
    output := output + [RunText((first, second))];
    text := Some(Join(output, ','));
    assert InOrder(dates, all) && text.value == DateStr(all);
  }

  lemma FirstText(all: seq<nat>)
    requires all != []
    ensures Runs(all[..1]) == [(all[0], all[0])]
    ensures RunTexts(Runs(all[..1])) == [] + [RunText((all[0], all[0]))]
  {
    assert all[..1][..0] == [];
  }

  method ReadDates(text: string) returns (output: set<int>)
    ensures output == ProcessDates(text)
  {
    hide MatchRange, ParseInt, Strip, Split;
    var parts := Split(text, ',');
    output := {};
    for k := 0 to |parts|
      invariant output == DatesOf(parts[..k])
    {
      assert parts[..k + 1][..k] == parts[..k];
      var date := Strip(parts[k]);
      var m := MatchRange(date);
      if m.Some? {
        ghost var before := output;
        var i: int := m.value.0;
        while i <= m.value.1
          invariant m.value.0 <= i && (i == m.value.0 || i <= m.value.1 + 1)
          invariant output == before + Interval(m.value.0, i - 1)
        {
          assert Interval(m.value.0, i) == Interval(m.value.0, i - 1) + {i};
          output := output + {i};
          i := i + 1;
        }
        assert Interval(m.value.0, i - 1) == Span(m.value);
      } else {
        var v := ParseInt(date);
        if v.Some? {
          output := output + {v.value};
        }
      }
    }
    assert parts[..|parts|] == parts;
  }
}
