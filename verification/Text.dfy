/** The pieces of Python text handling that the tools rely on: decimal numbers,
    split and join on one character, strip, and iteration over lines. */
module Text {
  import opened Options

  // ----- decimal numbers -----

  predicate IsDigit(c: char) { '0' <= c <= '9' }

  function Digit(d: nat): (c: char)
    requires d < 10
    ensures IsDigit(c) && c as int - '0' as int == d
  {
    '0' + d as char
  }

  function Decimal(n: nat): string {
    if n < 10 then [Digit(n)] else Decimal(n / 10) + [Digit(n % 10)]
  }

  ghost predicate AllDigits(s: string) {
    forall c :: c in s ==> IsDigit(c)
  }

  function Value(s: string): Option<nat> {
    if s == [] then Some(0)
    else
      var c, front := s[|s| - 1], Value(s[..|s| - 1]);
      if front.None? || !IsDigit(c) then None else Some(10 * front.value + (c as int - '0' as int))
  }

  lemma {:induction false} DecimalDigits(n: nat)
    ensures Decimal(n) != [] && AllDigits(Decimal(n)) && Value(Decimal(n)) == Some(n)
  {
    if n < 10 {
      assert [Digit(n)][..0] == [];
    } else {
      DecimalDigits(n / 10);
      var p := Decimal(n / 10);
      assert (p + [Digit(n % 10)])[..|p|] == p;
    }
  }

  // ----- white space -----

  predicate IsSpace(c: char) {
    c == ' ' || '\t' <= c <= '\r' || 28 as char <= c <= 31 as char
  }

  function StripFront(s: string): string {
    if s == [] || !IsSpace(s[0]) then s else StripFront(s[1..])
  }

  function StripBack(s: string): string {
    if s == [] || !IsSpace(s[|s| - 1]) then s else StripBack(s[..|s| - 1])
  }

  function Strip(s: string): string { StripBack(StripFront(s)) }

  ghost predicate NoSpace(s: string) {
    forall c :: c in s ==> !IsSpace(c)
  }

  lemma StripNothing(s: string)
    requires s == [] || (!IsSpace(s[0]) && !IsSpace(s[|s| - 1]))
    ensures Strip(s) == s
  {
  }

  lemma StripNewline(s: string)
    requires s != [] && !IsSpace(s[0]) && !IsSpace(s[|s| - 1])
    ensures Strip(s + "\n") == s
  {
    var t := s + "\n";
    assert t[..|s|] == s && IsSpace('\n');
    assert StripFront(t) == t && StripBack(t) == StripBack(s) == s;
  }

  // int(s): optional sign and digits, surrounded by white space.
  function ParseInt(s: string): Option<int> {
    var t := Strip(s);
    if t == [] then None
    else
      var signed := t[0] == '-' || t[0] == '+';
      var body := if signed then t[1..] else t;
      var v := Value(body);
      if body == [] || v.None? then None
      else
        var n: int := v.value;
        Some(if t[0] == '-' then -n else n)
  }

  lemma ParseDecimal(n: nat)
    ensures ParseInt(Decimal(n)) == Some(n)
  {
    DecimalDigits(n);
    var s := Decimal(n);
    assert s[0] in s && s[|s| - 1] in s;
    StripNothing(s);
  }

  // ----- split and join -----

  // The list with its last part lengthened.
  function Extend(r: seq<string>, t: string): (e: seq<string>)
    requires r != []
    ensures |e| == |r|
  {
    r[..|r| - 1] + [r[|r| - 1] + t]
  }

  function Split(s: string, sep: char): (r: seq<string>)
    ensures r != []
  {
    if s == [] then [""]
    else
      var c, front := s[|s| - 1], Split(s[..|s| - 1], sep);
      if c == sep then front + [""] else Extend(front, [c])
  }

  lemma ExtendFacts(r: seq<string>, t: string, u: string)
    requires r != []
    ensures Extend(r, "") == r
    ensures Extend(Extend(r, t), u) == Extend(r, t + u)
    ensures Extend(r + [""], t) == r + [t]
  {
    var l := r[|r| - 1];
    assert l + "" == l && (l + t) + u == l + (t + u) && "" + t == t;
    assert (r[..|r| - 1] + [l + t])[..|r| - 1] == r[..|r| - 1];
    assert (r + [""])[..|r|] == r;
  }

  function Join(parts: seq<string>, sep: char): string
    requires parts != []
  {
    if |parts| == 1 then parts[0]
    else Join(parts[..|parts| - 1], sep) + [sep] + parts[|parts| - 1]
  }

  ghost predicate Free(parts: seq<string>, sep: char) {
    forall i :: 0 <= i < |parts| ==> sep !in parts[i]
  }

  lemma {:induction false} SplitAppend(s: string, t: string, sep: char)
    requires sep !in t
    ensures Split(s + t, sep) == Extend(Split(s, sep), t)
    decreases |t|
  {
    hide Extend;
    if t == [] {
      assert s + t == s;
      ExtendFacts(Split(s, sep), "", "");
    } else {
      var p, c := t[..|t| - 1], t[|t| - 1];
      SplitAppend(s, p, sep);
      assert (s + t)[..|s + t| - 1] == s + p;
      ExtendFacts(Split(s, sep), p, [c]);
      assert p + [c] == t;
    }
  }

  lemma SplitSeparator(s: string, sep: char)
    ensures Split(s + [sep], sep) == Split(s, sep) + [""]
  {
    assert (s + [sep])[..|s|] == s;
  }

  // Splitting a joined list gives the list back when no part holds the separator.
  lemma {:induction false} SplitJoin(parts: seq<string>, sep: char)
    requires parts != [] && Free(parts, sep)
    ensures Split(Join(parts, sep), sep) == parts
    decreases |parts|
  {
    if |parts| == 1 {
      SplitWhole(parts[0], sep);
    } else {
      var p, l := parts[..|parts| - 1], parts[|parts| - 1];
      SplitJoin(p, sep);
      SplitOneMore(Join(p, sep), p, l, sep);
      assert p + [l] == parts;
    }
  }

  lemma SplitWhole(t: string, sep: char)
    requires sep !in t
    ensures Split(t, sep) == [t]
  {
    SplitAppend("", t, sep);
    assert "" + t == t;
  }

  lemma SplitOneMore(s: string, p: seq<string>, l: string, sep: char)
    requires p != [] && Split(s, sep) == p && sep !in l
    ensures Split(s + [sep] + l, sep) == p + [l]
  {
    hide Split, Extend;
    SplitSeparator(s, sep);
    SplitAppend(s + [sep], l, sep);
    ExtendFacts(p, l, "");
  }

  lemma {:induction false} JoinChars(parts: seq<string>, sep: char, c: char)
    requires parts != []
    ensures c in Join(parts, sep) <==> (|parts| > 1 && c == sep) || exists i :: 0 <= i < |parts| && c in parts[i]
    decreases |parts|
  {
    if |parts| > 1 {
      var p := parts[..|parts| - 1];
      JoinChars(p, sep, c);
      assert forall i :: 0 <= i < |p| ==> p[i] == parts[i];
      if i :| 0 <= i < |parts| && c in parts[i] { assert i < |p| ==> c in p[i]; }
    }
  }

  // ----- lines -----

  predicate EndsLine(ls: seq<string>) {
    ls == [] || (ls[|ls| - 1] != [] && ls[|ls| - 1][|ls[|ls| - 1]| - 1] == '\n')
  }

  // One more character of a text: it opens a new line or extends the last one.
  function AddChar(ls: seq<string>, c: char): seq<string> {
    if EndsLine(ls) then ls + [[c]] else ls[..|ls| - 1] + [ls[|ls| - 1] + [c]]
  }

  // Iterating over a text file: each line keeps its newline.
  function LinesOf(s: string): seq<string> {
    if s == [] then [] else AddChar(LinesOf(s[..|s| - 1]), s[|s| - 1])
  }

  ghost predicate IsLine(l: string) {
    l != [] && l[|l| - 1] == '\n' && '\n' !in l[..|l| - 1]
  }

  function Concat(ls: seq<string>): string {
    if ls == [] then [] else Concat(ls[..|ls| - 1]) + ls[|ls| - 1]
  }

  lemma {:induction false} LinesAppend(ls: seq<string>, t: string)
    requires forall l :: l in ls ==> IsLine(l)
    requires LinesOf(Concat(ls)) == ls && t != [] && '\n' !in t[..|t| - 1]
    ensures LinesOf(Concat(ls) + t) == ls + [t]
    decreases |t|
  {
    hide AddChar;
    var s := Concat(ls);
    var p, c := t[..|t| - 1], t[|t| - 1];
    assert (s + t)[..|s + t| - 1] == s + p;
    if p == [] {
      assert s + p == s && [c] == t;
      OpenLine(ls, c);
    } else {
      LinesAppend(ls, p);
      ExtendLine(ls, p, c);
      assert p + [c] == t;
    }
  }

  lemma OpenLine(ls: seq<string>, c: char)
    requires forall l :: l in ls ==> IsLine(l)
    ensures AddChar(ls, c) == ls + [[c]]
  {
    if ls != [] { assert ls[|ls| - 1] in ls; }
  }

  lemma ExtendLine(ls: seq<string>, p: string, c: char)
    requires p != [] && '\n' !in p
    ensures AddChar(ls + [p], c) == ls + [p + [c]]
  {
    assert (ls + [p])[..|ls|] == ls;
    assert p[|p| - 1] in p;
  }

  lemma {:induction false} LinesOfConcat(ls: seq<string>)
    requires forall l :: l in ls ==> IsLine(l)
    ensures LinesOf(Concat(ls)) == ls
  {
    if ls == [] {
    } else {
      var p, l := ls[..|ls| - 1], ls[|ls| - 1];
      LinesOfConcat(p);
      assert l in ls;
      LinesAppend(p, l);
      assert p + [l] == ls;
    }
  }
}
