/**
 * The figures of the statistics table for a list of values: Python's mean and median,
 * and the most common value, the first of them to occur where several are as common.
 * Figures are exact: rounding of floating point is not modelled.
 */
module Averages {
  import opened Common

  datatype Figures = Figures(mean: real, median: real, mode: real)

  function Sum(values: seq<real>): real {
    if values == [] then 0.0 else Sum(DropLast(values)) + Last(values)
  }

  function Mean(values: seq<real>): real
    requires values != []
  {
    Sum(values) / |values| as real
  }

  // ---- The median ----

  function Insert(s: seq<real>, x: real): (r: seq<real>)
    ensures |r| == |s| + 1
  {
    if s == [] || Last(s) <= x then s + [x] else Insert(DropLast(s), x) + [Last(s)]
  }

  function Sort(values: seq<real>): (r: seq<real>)
    ensures |r| == |values|
  {
    if values == [] then [] else Insert(Sort(DropLast(values)), Last(values))
  }

  /** The middle of sorted values, or the number half way between the two in the middle. */
  function Middle(s: seq<real>): real
    requires s != []
  {
    var h := |s| / 2;
    if |s| % 2 == 1 then s[h] else (s[h - 1] + s[h]) / 2.0
  }

  function Median(values: seq<real>): real
    requires values != []
  {
    Middle(Sort(values))
  }

  ghost predicate Ordered(s: seq<real>) {
    forall i, j :: 0 <= i < j < |s| ==> s[i] <= s[j]
  }

  /** How many of the values satisfy p. */
  function HowMany(s: seq<real>, p: real -> bool): nat {
    if s == [] then 0 else HowMany(DropLast(s), p) + if p(Last(s)) then 1 else 0
  }

  lemma HowManySnoc(s: seq<real>, x: real, p: real -> bool)
    ensures HowMany(s + [x], p) == HowMany(s, p) + if p(x) then 1 else 0
  {
    assert DropLast(s + [x]) == s;
  }

  lemma {:induction false} InsertOrdered(s: seq<real>, x: real)
    requires Ordered(s)
    ensures Ordered(Insert(s, x)) && Insert(s, x) != []
    ensures s != [] ==> Last(Insert(s, x)) == if Last(s) <= x then x else Last(s)
  {
    if s != [] && x < Last(s) {
      var r := Insert(DropLast(s), x);
      InsertOrdered(DropLast(s), x);
      assert s[|s| - 1] == Last(s) && (|s| > 1 ==> Last(DropLast(s)) == s[|s| - 2]);
      hide Insert;
      assert forall i :: 0 <= i < |r| ==> r[i] <= Last(r);
    }
  }

  lemma {:induction false} InsertCounts(s: seq<real>, x: real, p: real -> bool)
    ensures HowMany(Insert(s, x), p) == HowMany(s, p) + if p(x) then 1 else 0
  {
    if s == [] || Last(s) <= x {
      HowManySnoc(s, x, p);
    } else {
      InsertCounts(DropLast(s), x, p);
      HowManySnoc(Insert(DropLast(s), x), Last(s), p);
    }
  }

  /** Sorting orders the values and neither loses nor adds any. */
  lemma {:induction false} SortExact(values: seq<real>, p: real -> bool)
    ensures Ordered(Sort(values)) && HowMany(Sort(values), p) == HowMany(values, p)
  {
    if values != [] {
      SortExact(DropLast(values), p);
      InsertOrdered(Sort(DropLast(values)), Last(values));
      InsertCounts(Sort(DropLast(values)), Last(values), p);
    }
  }

  lemma {:induction false} AtLeastMany(s: seq<real>, p: real -> bool, lo: nat, hi: nat)
    requires lo <= hi <= |s| && forall i :: lo <= i < hi ==> p(s[i])
    ensures HowMany(s, p) >= hi - lo
  {
    if lo < hi {
      AtLeastMany(DropLast(s), p, lo, if hi == |s| then hi - 1 else hi);
    }
  }

  function UpTo(m: real): real -> bool {
    x => x <= m
  }

  function Below(m: real): real -> bool {
    x => x < m
  }

  function From(m: real): real -> bool {
    x => x >= m
  }

  /** Of the values in order, counted from 0, x is number k: at most k are less, and more than k are not greater. */
  ghost predicate IsRank(values: seq<real>, k: int, x: real) {
    HowMany(values, Below(x)) <= k < HowMany(values, UpTo(x))
  }

  lemma {:induction false} BelowOrFrom(s: seq<real>, x: real)
    ensures HowMany(s, Below(x)) + HowMany(s, From(x)) == |s|
  {
    if s != [] {
      BelowOrFrom(DropLast(s), x);
    }
  }

  lemma {:induction false} UpToBelow(s: seq<real>, x: real, y: real)
    requires x < y
    ensures HowMany(s, UpTo(x)) <= HowMany(s, Below(y))
  {
    if s != [] {
      UpToBelow(DropLast(s), x, y);
    }
  }

  /** Only one value has a rank. */
  lemma RankUnique(values: seq<real>, k: int, x: real, y: real)
    requires IsRank(values, k, x) && IsRank(values, k, y)
    ensures x == y
  {
    hide HowMany;
    if x < y {
      UpToBelow(values, x, y);
    } else if y < x {
      UpToBelow(values, y, x);
    }
  }

  lemma OrderedAt(s: seq<real>, k: nat, i: nat)
    requires Ordered(s) && k < |s| && i < |s|
    ensures i <= k ==> UpTo(s[k])(s[i])
    ensures i >= k ==> From(s[k])(s[i])
  {
  }

  lemma OrderedRank(s: seq<real>, k: nat)
    requires Ordered(s) && k < |s|
    ensures HowMany(s, Below(s[k])) <= k < HowMany(s, UpTo(s[k]))
  {
    hide *;
    forall i | 0 <= i < |s|
      ensures i <= k ==> UpTo(s[k])(s[i])
      ensures i >= k ==> From(s[k])(s[i])
    {
      OrderedAt(s, k, i);
    }
    AtLeastMany(s, UpTo(s[k]), 0, k + 1);
    AtLeastMany(s, From(s[k]), k, |s|);
    BelowOrFrom(s, s[k]);
  }

  /** The ranks of the values are their places once sorted. */
  lemma SortedRank(values: seq<real>, k: nat)
    requires k < |values|
    ensures IsRank(values, k, Sort(values)[k])
  {
    hide Sort, HowMany, Ordered, Below, UpTo;
    var x := Sort(values)[k];
    SortExact(values, UpTo(x));
    SortExact(values, Below(x));
    OrderedRank(Sort(values), k);
  }

  lemma MiddleIs(s: seq<real>, lo: nat, hi: nat)
    requires s != [] && lo <= hi <= lo + 1 && lo + hi + 1 == |s|
    ensures Middle(s) == (s[lo] + s[hi]) / 2.0
  {
    if lo == hi {
      assert Middle(s) == s[hi];
    }
  }

  /** The median is half way between the values of the two middle ranks, which are one for an odd number of values. */
  lemma MedianExact(values: seq<real>) returns (lo: real, hi: real)
    requires values != []
    ensures IsRank(values, (|values| - 1) / 2, lo) && IsRank(values, |values| / 2, hi)
    ensures Median(values) == (lo + hi) / 2.0
  {
    var i, j := (|values| - 1) / 2, |values| / 2;
    lo, hi := Sort(values)[i], Sort(values)[j];
    SortedRank(values, i);
    SortedRank(values, j);
    hide Middle, IsRank, Sort;
    MiddleIs(Sort(values), i, j);
  }

  // ---- The mode ----

  /** How often x occurs. */
  function Occurrences(values: seq<real>, x: real): nat {
    multiset(values)[x]
  }

  /** The most common of the first n values, the earliest of them in case of a tie. */
  function ModeOf(values: seq<real>, n: nat): real
    requires 1 <= n <= |values|
  {
    if n == 1 then values[0]
    else
      var best := ModeOf(values, n - 1);
      if Occurrences(values, values[n - 1]) > Occurrences(values, best) then values[n - 1] else best
  }

  function Mode(values: seq<real>): real
    requires values != []
  {
    ModeOf(values, |values|)
  }

  lemma {:induction false} ModeOfExact(values: seq<real>, n: nat) returns (f: nat)
    requires 1 <= n <= |values|
    ensures f < n && values[f] == ModeOf(values, n)
    ensures forall i :: 0 <= i < n ==> Occurrences(values, values[i]) <= Occurrences(values, values[f])
    ensures forall i :: 0 <= i < f ==> Occurrences(values, values[i]) < Occurrences(values, values[f])
  {
    hide Occurrences;
    if n == 1 {
      f := 0;
    } else {
      f := ModeOfExact(values, n - 1);
      if Occurrences(values, values[n - 1]) > Occurrences(values, values[f]) {
        f := n - 1;
      }
    }
  }

  /** No value occurs more often than the mode, and every value that stands before it occurs less often. */
  lemma ModeExact(values: seq<real>) returns (f: nat)
    requires values != []
    ensures f < |values| && values[f] == Mode(values)
    ensures forall x :: Occurrences(values, x) <= Occurrences(values, Mode(values))
    ensures forall i :: 0 <= i < f ==> Occurrences(values, values[i]) < Occurrences(values, Mode(values))
  {
    f := ModeOfExact(values, |values|);
    forall x
      ensures Occurrences(values, x) <= Occurrences(values, Mode(values))
    {
      if x in values {
        var i :| 0 <= i < |values| && values[i] == x;
      }
    }
  }

  /** The figures of some values, None where the table says that there are none. */
  function FiguresOf(values: seq<real>): Option<Figures> {
    if values == [] then None else Some(Figures(Mean(values), Median(values), Mode(values)))
  }

  // ---- What the figures are ----

  /** The values of the two middle ranks, which are one rank for an odd number of values. */
  ghost predicate InTheMiddle(values: seq<real>, lo: real, hi: real) {
    IsRank(values, (|values| - 1) / 2, lo) && IsRank(values, |values| / 2, hi)
  }

  ghost predicate IsMedian(values: seq<real>, m: real) {
    exists lo, hi :: InTheMiddle(values, lo, hi) && m == (lo + hi) / 2.0
  }

  /** The value at place i is the mode, and the earliest one. */
  ghost predicate IsModeAt(values: seq<real>, i: int) {
    && 0 <= i < |values|
    && (forall x :: Occurrences(values, x) <= Occurrences(values, values[i]))
    && (forall j :: 0 <= j < i ==> Occurrences(values, values[j]) < Occurrences(values, values[i]))
  }

  ghost predicate IsMode(values: seq<real>, x: real) {
    exists i :: IsModeAt(values, i) && values[i] == x
  }

  /** The figures of some values: none if there are no values, and otherwise their mean, median and mode. */
  ghost predicate AreFigures(values: seq<real>, figures: Option<Figures>) {
    && (figures.None? <==> values == [])
    && (figures.Some? ==>
          && figures.value.mean * |values| as real == Sum(values)
          && IsMedian(values, figures.value.median)
          && IsMode(values, figures.value.mode))
  }

  lemma FiguresOfAre(values: seq<real>)
    ensures AreFigures(values, FiguresOf(values))
  {
    hide Mean, Median, Mode, IsMedian, IsMode, Sum;
    if values != [] {
      MeanTimes(values);
      MedianIsMedian(values);
      ModeIsMode(values);
    }
  }

  lemma MedianIsMedian(values: seq<real>)
    requires values != []
    ensures IsMedian(values, Median(values))
  {
    hide Median, IsRank;
    var lo, hi := MedianExact(values);
    assert InTheMiddle(values, lo, hi);
  }

  lemma ModeIsMode(values: seq<real>)
    requires values != []
    ensures IsMode(values, Mode(values))
  {
    hide Mode, Occurrences;
    var f := ModeExact(values);
    assert IsModeAt(values, f);
  }

  /** Only one record has the figures of the values. */
  lemma FiguresUnique(values: seq<real>, f: Option<Figures>, g: Option<Figures>)
    requires AreFigures(values, f) && AreFigures(values, g)
    ensures f == g
  {
    hide Sum, IsMedian, IsMode;
    if values != [] {
      SameQuotient(f.value.mean, g.value.mean, |values| as real);
      MedianUnique(values, f.value.median, g.value.median);
      ModeUnique(values, f.value.mode, g.value.mode);
    }
  }

  lemma SameQuotient(x: real, y: real, n: real)
    requires n > 0.0 && x * n == y * n
    ensures x == y
  {
  }

  lemma MedianUnique(values: seq<real>, x: real, y: real)
    requires IsMedian(values, x) && IsMedian(values, y)
    ensures x == y
  {
    hide IsRank;
    var a, b :| InTheMiddle(values, a, b) && x == (a + b) / 2.0;
    var c, d :| InTheMiddle(values, c, d) && y == (c + d) / 2.0;
    RankUnique(values, (|values| - 1) / 2, a, c);
    RankUnique(values, |values| / 2, b, d);
  }

  lemma ModeUnique(values: seq<real>, x: real, y: real)
    requires IsMode(values, x) && IsMode(values, y)
    ensures x == y
  {
    hide Occurrences;
    var i :| IsModeAt(values, i) && values[i] == x;
    var j :| IsModeAt(values, j) && values[j] == y;
  }

  /** The mean times the number of values is their sum. */
  lemma MeanTimes(values: seq<real>)
    requires values != []
    ensures Mean(values) * |values| as real == Sum(values)
  {
    hide Sum;
    var n := |values| as real;
    QuotientTimes(Sum(values), n);
    assert Mean(values) == Sum(values) / n;
  }

  lemma QuotientTimes(x: real, n: real)
    requires n > 0.0
    ensures x / n * n == x
  {
  }
}
