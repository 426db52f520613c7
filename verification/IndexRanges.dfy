/** Printing a list of indices as ranges, such as "0-2, 4-6", and reading the print back. */
module IndexRanges {
  import opened Wrappers

  datatype Range = Range(lo: int, hi: int)

  /** The numbers from `lo` up to and including `hi`. */
  function Span(lo: int, hi: int): seq<int>
    decreases hi - lo
  {
    if hi < lo then [] else Span(lo, hi - 1) + [hi]
  }

  function Expand(rs: seq<Range>): seq<int> {
    if rs == [] then [] else Expand(rs[..|rs| - 1]) + Span(rs[|rs| - 1].lo, rs[|rs| - 1].hi)
  }

  /** Ranges are not empty and no range continues the one before it. */
  ghost predicate Maximal(rs: seq<Range>) {
    && (forall k :: 0 <= k < |rs| ==> rs[k].lo <= rs[k].hi)
    && (forall k :: 0 < k < |rs| ==> rs[k].lo != rs[k - 1].hi + 1)
  }

  // ---- Sorting ----

  ghost predicate Ordered(s: seq<int>) { forall i, j :: 0 <= i < j < |s| ==> s[i] <= s[j] }

  function Insert(s: seq<int>, x: int): seq<int> {
    if s == [] || s[|s| - 1] <= x then s + [x] else Insert(s[..|s| - 1], x) + [s[|s| - 1]]
  }

  function Sorted(s: seq<int>): seq<int> {
    if s == [] then [] else Insert(Sorted(s[..|s| - 1]), s[|s| - 1])
  }

  lemma {:induction false} InsertKeeps(s: seq<int>, x: int)
    requires Ordered(s)
    ensures Ordered(Insert(s, x)) && multiset(Insert(s, x)) == multiset(s) + multiset{x}
    ensures forall y :: y in Insert(s, x) <==> y in s || y == x
  {
    if s != [] && s[|s| - 1] > x {
      var front, last := s[..|s| - 1], s[|s| - 1];
      assert s == front + [last];
      InsertKeeps(front, x);
      hide Insert;
      var r := Insert(front, x);
      forall y | y in r ensures y <= last { }
      OrderedSnoc(r, last);
      assert Insert(s, x) == r + [last];
    } else if s != [] {
      OrderedSnoc(s, x);
    }
  }

  lemma OrderedSnoc(s: seq<int>, x: int)
    requires Ordered(s) && forall y :: y in s ==> y <= x
    ensures Ordered(s + [x])
  {
    forall i | 0 <= i < |s| ensures s[i] <= x { assert s[i] in s; }
  }

  lemma {:induction false} SortedIs(s: seq<int>)
    ensures Ordered(Sorted(s)) && multiset(Sorted(s)) == multiset(s)
  {
    if s != [] {
      SortedIs(s[..|s| - 1]);
      InsertKeeps(Sorted(s[..|s| - 1]), s[|s| - 1]);
      assert s == s[..|s| - 1] + [s[|s| - 1]];
    }
  }

  // ---- The loop ----

  /** What the loop keeps: closed ranges and the open run spell out the numbers seen so far. */
  ghost predicate Spelled(seen: seq<int>, rs: seq<Range>, start: int, end: int) {
    && start <= end && Expand(rs) + Span(start, end) == seen
    && Maximal(rs) && (rs != [] ==> rs[|rs| - 1].hi + 1 != start)
  }

  lemma SpelledFirst(x: int)
    ensures Spelled([x], [], x, x)
  {
    assert Span(x, x) == [x];
  }

  lemma SpelledLonger(seen: seq<int>, rs: seq<Range>, start: int, end: int)
    requires Spelled(seen, rs, start, end)
    ensures Spelled(seen + [end + 1], rs, start, end + 1)
  {
    var e, p := Expand(rs), Span(start, end);
    assert e + (p + [end + 1]) == e + p + [end + 1];
  }

  lemma SpelledClosed(seen: seq<int>, rs: seq<Range>, start: int, end: int)
    requires Spelled(seen, rs, start, end)
    ensures Expand(rs + [Range(start, end)]) == seen && Maximal(rs + [Range(start, end)])
  {
    assert (rs + [Range(start, end)])[..|rs|] == rs;
  }

  lemma SpelledNext(seen: seq<int>, rs: seq<Range>, start: int, end: int, idx: int)
    requires Spelled(seen, rs, start, end) && idx != end + 1
    ensures Spelled(seen + [idx], rs + [Range(start, end)], idx, idx)
  {
    SpelledClosed(seen, rs, start, end);
    assert Span(idx, idx) == [idx];
  }

  /** The ranges of a list that is not empty, in the order it has. */
  method FindRanges(s: seq<int>) returns (rs: seq<Range>)
    requires s != []
    ensures Expand(rs) == s && Maximal(rs) && rs != []
  {
    hide Spelled, Expand, Maximal;
    rs := [];
    var start, end := s[0], s[0];
    SpelledFirst(s[0]);
    assert s[..1] == [s[0]];
    for i := 1 to |s|
      invariant Spelled(s[..i], rs, start, end)
    {
      var idx := s[i];
      assert s[..i + 1] == s[..i] + [idx];
      if idx == end + 1 {
        SpelledLonger(s[..i], rs, start, end);
        end := idx;
      } else {
        SpelledNext(s[..i], rs, start, end, idx);
        rs := rs + [Range(start, end)];
        start, end := idx, idx;
      }
    }
    assert s[..|s|] == s;
    SpelledClosed(s, rs, start, end);
    rs := rs + [Range(start, end)];
  }

  // ---- There is only one way ----

  /** How many of the last numbers follow each other. */
  function RunLength(s: seq<int>): nat {
    if |s| <= 1 then |s|
    else if s[|s| - 1] == s[|s| - 2] + 1 then 1 + RunLength(s[..|s| - 1])
    else 1
  }

  lemma {:induction false} RunOfSpan(x: seq<int>, lo: int, hi: int)
    requires lo <= hi && (x == [] || x[|x| - 1] + 1 != lo)
    ensures RunLength(x + Span(lo, hi)) == hi - lo + 1 == |Span(lo, hi)| && Span(lo, hi)[hi - lo] == hi
    decreases hi - lo
  {
    var s := x + Span(lo, hi);
    if lo == hi {
      assert Span(lo, hi) == [hi] && s == x + [hi];
    } else {
      RunOfSpan(x, lo, hi - 1);
      assert s == x + Span(lo, hi - 1) + [hi];
      assert s[..|s| - 1] == x + Span(lo, hi - 1);
    }
  }

  /** The last of maximal ranges is read off the list. */
  lemma LastRange(rs: seq<Range>)
    requires Maximal(rs) && rs != []
    ensures var s, r := Expand(rs), rs[|rs| - 1];
      && 1 <= RunLength(s) <= |s|
      && r == Range(s[|s| - 1] - RunLength(s) + 1, s[|s| - 1])
      && Expand(rs[..|rs| - 1]) == s[..|s| - RunLength(s)] && Maximal(rs[..|rs| - 1])
  {
    hide Maximal, RunLength, Span;
    var n := |rs| - 1;
    var x, span := Expand(rs[..n]), Span(rs[n].lo, rs[n].hi);
    MaximalFront(rs);
    assert Expand(rs) == x + span;
    hide Expand;
    if n > 0 { LastNumber(rs[..n]); } else { NoRanges(); }
    RunOfSpan(x, rs[n].lo, rs[n].hi);
    assert (x + span)[..|x|] == x;
  }

  lemma LastNumber(rs: seq<Range>)
    requires Maximal(rs) && rs != []
    ensures Expand(rs) != [] && Expand(rs)[|Expand(rs)| - 1] == rs[|rs| - 1].hi
  {
    hide Maximal, RunLength;
    MaximalFront(rs);
    RunOfSpan([], rs[|rs| - 1].lo, rs[|rs| - 1].hi);
  }

  lemma MaximalFront(rs: seq<Range>)
    requires Maximal(rs) && rs != []
    ensures Maximal(rs[..|rs| - 1]) && rs[|rs| - 1].lo <= rs[|rs| - 1].hi
    ensures |rs| >= 2 ==> rs[|rs| - 1].lo != rs[|rs| - 2].hi + 1
  {
  }

  lemma {:induction false} RangesUnique(a: seq<Range>, b: seq<Range>)
    requires Maximal(a) && Maximal(b) && Expand(a) == Expand(b)
    ensures a == b
  {
    hide Expand, RunLength, Maximal;
    NoRanges();
    if a != [] { LastRange(a); }
    if b != [] { LastRange(b); }
    if a != [] && b != [] {
      var n, m := |a| - 1, |b| - 1;
      RangesUnique(a[..n], b[..m]);
      assert a == a[..n] + [a[n]] && b == b[..m] + [b[m]];
    }
  }

  lemma NoRanges()
    ensures Expand([]) == []
  {
  }

  // ---- The print and its reading ----

  function Digit(d: nat): char
    requires d < 10
  {
    "0123456789"[d]
  }

  predicate IsDigit(c: char) { '0' <= c <= '9' }

  function DigitValue(c: char): nat
    requires IsDigit(c)
  {
    c as int - '0' as int
  }

  /** Decimal digits. */
  function Str(n: nat): string { if n < 10 then [Digit(n)] else Str(n / 10) + [Digit(n % 10)] }

  function StrInt(n: int): string { if n < 0 then "-" + Str(-n) else Str(n) }

  function PrintRange(r: Range): string {
    if r.lo == r.hi then StrInt(r.lo) else StrInt(r.lo) + "-" + StrInt(r.hi)
  }

  ghost predicate Natural(rs: seq<Range>) { forall k :: 0 <= k < |rs| ==> 0 <= rs[k].lo <= rs[k].hi }

  /** The ranges separated by a comma and a space. */
  function Print(rs: seq<Range>): string {
    if rs == [] then "" else if |rs| == 1 then PrintRange(rs[0]) else PrintRange(rs[0]) + ", " + Print(rs[1..])
  }

  /** Read digits into a number and return what follows. */
  function ReadNumber(acc: nat, s: string): (r: (nat, string))
    ensures |r.1| <= |s|
    decreases |s|
  {
    if s == "" || !IsDigit(s[0]) then (acc, s) else ReadNumber(10 * acc + DigitValue(s[0]), s[1..])
  }

  function ReadRange(s: string): (r: (Range, string))
    ensures |r.1| <= |s|
  {
    var (lo, rest) := ReadNumber(0, s);
    if rest != "" && rest[0] == '-' then
      var (hi, rest2) := ReadNumber(0, rest[1..]);
      (Range(lo, hi), rest2)
    else (Range(lo, lo), rest)
  }

  function Parse(s: string): Option<seq<Range>>
    decreases |s|
  {
    var (r, rest) := ReadRange(s);
    if rest == "" then Some([r])
    else if |rest| >= 2 && rest[..2] == ", " then
      match Parse(rest[2..]) case None => None case Some(rs) => Some([r] + rs)
    else None
  }

  lemma {:induction false} ReadStr(n: nat, rest: string)
    ensures ReadNumber(0, Str(n) + rest) == ReadNumber(n, rest)
  {
    if n < 10 {
      var s := Str(n) + rest;
      assert s[0] == Digit(n) && s[1..] == rest;
      DigitReads(n);
    } else {
      var c := Digit(n % 10);
      DigitReads(n % 10);
      ReadStr(n / 10, [c] + rest);
      assert Str(n) + rest == Str(n / 10) + ([c] + rest);
      assert ([c] + rest)[1..] == rest;
    }
  }

  lemma DigitReads(d: nat)
    requires d < 10
    ensures IsDigit(Digit(d)) && DigitValue(Digit(d)) == d
  {
  }

  /** Nothing that looks like more of the same number follows. */
  predicate Ends(rest: string) { rest == "" || rest[0] == ',' }

  lemma ReadPrinted(r: Range, rest: string)
    requires 0 <= r.lo <= r.hi && Ends(rest)
    ensures ReadRange(PrintRange(r) + rest) == (r, rest)
  {
    if r.lo == r.hi {
      ReadStr(r.lo, rest);
    } else {
      var more := ['-'] + (Str(r.hi) + rest);
      assert PrintRange(r) + rest == Str(r.lo) + more;
      ReadStr(r.lo, more);
      ReadStr(r.hi, rest);
      hide Str;
      assert more[1..] == Str(r.hi) + rest;
    }
  }

  /** The print reads back as the ranges it was made from. */
  lemma {:induction false} ParsePrint(rs: seq<Range>)
    requires rs != [] && Natural(rs)
    ensures Parse(Print(rs)) == Some(rs)
  {
    hide PrintRange, ReadRange;
    if |rs| == 1 {
      ReadPrinted(rs[0], "");
      assert PrintRange(rs[0]) + "" == PrintRange(rs[0]);
      assert rs == [rs[0]];
    } else {
      var rest := ", " + Print(rs[1..]);
      assert Print(rs) == PrintRange(rs[0]) + rest;
      ReadPrinted(rs[0], rest);
      assert rest[..2] == ", " && rest[2..] == Print(rs[1..]);
      ParsePrint(rs[1..]);
      assert rs == [rs[0]] + rs[1..];
    }
  }

  /** Numbers are printed in digits, with no zero in front. */
  lemma {:induction false} StrCanonical(n: nat)
    ensures Str(n) != "" && (forall i :: 0 <= i < |Str(n)| ==> IsDigit(Str(n)[i])) && (n > 0 ==> Str(n)[0] != '0')
  {
    if n < 10 { DigitReads(n); } else {
      StrCanonical(n / 10);
      DigitReads(n % 10);
    }
  }

  /** A range of one number is printed as that number alone. */
  lemma DashIff(r: Range)
    requires 0 <= r.lo <= r.hi
    ensures '-' in PrintRange(r) <==> r.lo < r.hi
  {
    hide Str;
    StrCanonical(r.lo);
    if r.lo < r.hi { assert PrintRange(r)[|Str(r.lo)|] == '-'; }
  }

  /** The documented form. */
  lemma TwoRanges()
    ensures Print([Range(0, 2), Range(4, 6)]) == "0-2, 4-6" && Print([Range(3, 3), Range(12, 12)]) == "3, 12"
  {
    var a, b := [Range(0, 2), Range(4, 6)], [Range(3, 3), Range(12, 12)];
    assert a[1..] == [Range(4, 6)] && b[1..] == [Range(12, 12)];
    assert Str(12) == Str(1) + [Digit(2)] == "12";
  }

  lemma {:induction false} ExpandNatural(rs: seq<Range>)
    requires Maximal(rs) && forall x :: x in Expand(rs) ==> x >= 0
    ensures Natural(rs)
  {
    if rs != [] {
      var n := |rs| - 1;
      MaximalFront(rs);
      hide Maximal, Span;
      forall x | x in Expand(rs[..n]) ensures x >= 0 { assert x in Expand(rs); }
      ExpandNatural(rs[..n]);
      SpanStart(rs[n].lo, rs[n].hi);
      assert rs[n].lo in Expand(rs);
    }
  }

  lemma {:induction false} SpanStart(lo: int, hi: int)
    requires lo <= hi
    ensures lo in Span(lo, hi)
    decreases hi - lo
  {
    if lo < hi { SpanStart(lo, hi - 1); }
  }

  /**
   The whole printer: an empty list raises. Otherwise the text is the print of the one list of maximal
   ranges whose numbers are the input in order, duplicates included, and reads back as that list when
   no index is negative.
   */
  method FormatIndexRanges(indices: seq<int>) returns (text: Option<string>)
    ensures text.None? <==> indices == []
    ensures text.Some? ==>
      exists rs :: text.value == Print(rs) && Maximal(rs) && Expand(rs) == Sorted(indices)
                   && ((forall x :: x in indices ==> x >= 0) ==> Parse(text.value) == Some(rs))
  {
    hide Expand, Maximal, Print, Parse, Sorted, Natural;
    if indices == [] { return None; }
    var s := Sorted(indices);
    SortedIs(indices);
    assert |multiset(s)| == |multiset(indices)|;
    var rs := FindRanges(s);
    text := Some(Print(rs));
    if forall x :: x in indices ==> x >= 0 {
      forall x | x in Expand(rs) ensures x >= 0 {
        assert x in multiset(s);
        assert x in indices;
      }
      ExpandNatural(rs);
      ParsePrint(rs);
    }
  }
}
