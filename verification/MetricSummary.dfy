/** Median, median absolute deviation and extremes of the values of a metric. */
module MetricSummary {
  import opened Base
  import opened Sorting

  // ---------------------------------------------------------------- sorting

  predicate Ascending(s: seq<real>) { forall i, j :: 0 <= i < j < |s| ==> s[i] <= s[j] }

  const LESS: (real, real) -> bool := (a: real, b: real) => a < b

  function Sorted(s: seq<real>): seq<real> { Sort(s, LESS) }

  predicate AllAtMost(s: seq<real>, b: real) { forall i :: 0 <= i < |s| ==> s[i] <= b }

  lemma {:induction false} InsertBounded(s: seq<real>, x: real, b: real)
    requires AllAtMost(s, b) && x <= b
    ensures AllAtMost(Insert(s, x, LESS), b)
  {
    if s != [] && !(s[|s| - 1] <= x) {
      InsertBounded(s[..|s| - 1], x, b);
    }
  }

  lemma {:induction false} InsertIsAscending(s: seq<real>, x: real)
    requires Ascending(s)
    ensures Ascending(Insert(s, x, LESS))
  {
    var n := |s| - 1;
    if s != [] && !(s[n] <= x) {
      InsertIsAscending(s[..n], x);
      InsertBounded(s[..n], x, s[n]);
      AppendGreatest(Insert(s[..n], x, LESS), s[n]);
    }
  }

  lemma AppendGreatest(s: seq<real>, x: real)
    requires Ascending(s) && AllAtMost(s, x)
    ensures Ascending(s + [x])
  {
  }

  lemma {:induction false} SortedIs(s: seq<real>)
    ensures Ascending(Sorted(s)) && multiset(Sorted(s)) == multiset(s) && |Sorted(s)| == |s|
  {
    SortKeeps(s, LESS);
    if s != [] {
      var n := |s| - 1;
      SortedIs(s[..n]);
      InsertIsAscending(Sorted(s[..n]), s[n]);
      assert s == s[..n] + [s[n]];
    }
  }

  /** There is only one way to sort. */
  lemma {:induction false} AscendingIsUnique(a: seq<real>, b: seq<real>)
    requires Ascending(a) && Ascending(b) && multiset(a) == multiset(b)
    ensures a == b
  {
    SameLength(a, b);
    if a != [] {
      var n := |a| - 1;
      SplitLast(a);
      SplitLast(b);
      LastAtMost(a, b);
      LastAtMost(b, a);
      assert Ascending(a[..n]) && Ascending(b[..n]);
      hide Ascending;
      Cancel(multiset(a[..n]), multiset(b[..n]), a[n]);
      AscendingIsUnique(a[..n], b[..n]);
    }
  }

  lemma LastAtMost(a: seq<real>, b: seq<real>)
    requires a != [] && b != [] && Ascending(b) && multiset(a) == multiset(b)
    ensures a[|a| - 1] <= b[|b| - 1]
  {
    assert a[|a| - 1] in multiset(b);
    var k :| 0 <= k < |b| && b[k] == a[|a| - 1];
  }

  // ---------------------------------------------------------------- the median

  /** The middle value, or the mean of the two middle values. */
  function Median(s: seq<real>): real
    requires s != []
  {
    SortedIs(s);
    var t, h := Sorted(s), |s| / 2;
    if |s| % 2 == 1 then t[h] else (t[h - 1] + t[h]) / 2.0
  }

  function CountAtMost(s: seq<real>, x: real): nat {
    if s == [] then 0 else CountAtMost(s[..|s| - 1], x) + (if s[|s| - 1] <= x then 1 else 0)
  }

  lemma {:induction false} CountOfInsert(s: seq<real>, v: real, x: real)
    ensures CountAtMost(Insert(s, v, LESS), x) == CountAtMost(s, x) + (if v <= x then 1 else 0)
  {
    if s == [] || s[|s| - 1] <= v {
      assert (s + [v])[..|s|] == s;
    } else {
      var n := |s| - 1;
      CountOfInsert(s[..n], v, x);
      var t := Insert(s[..n], v, LESS);
      assert (t + [s[n]])[..|t|] == t;
    }
  }

  lemma {:induction false} CountOfSorted(s: seq<real>, x: real)
    ensures CountAtMost(Sorted(s), x) == CountAtMost(s, x)
  {
    if s != [] {
      CountOfSorted(s[..|s| - 1], x);
      CountOfInsert(Sorted(s[..|s| - 1]), s[|s| - 1], x);
    }
  }

  lemma {:induction false} CountAtLeast(s: seq<real>, k: nat, x: real)
    requires k <= |s| && forall i :: 0 <= i < k ==> s[i] <= x
    ensures CountAtMost(s, x) >= k
  {
    if k == |s| && k > 0 {
      CountAtLeast(s[..k - 1], k - 1, x);
    } else if k < |s| {
      CountAtLeast(s[..|s| - 1], k, x);
    }
  }

  /** At least half of the values are at most the median. */
  lemma HalfAtMostMedian(s: seq<real>)
    requires s != []
    ensures 2 * CountAtMost(s, Median(s)) >= |s|
  {
    hide Median, Sorted, CountAtMost;
    SortedIs(s);
    var k, m := (|s| + 1) / 2, Median(s);
    LowerHalf(s);
    CountAtLeast(Sorted(s), k, m);
    CountOfSorted(s, m);
  }

  lemma LowerHalf(s: seq<real>)
    requires s != []
    ensures |Sorted(s)| == |s| && forall i :: 0 <= i < (|s| + 1) / 2 ==> Sorted(s)[i] <= Median(s)
  {
    hide Sorted;
    SortedIs(s);
  }

  /** The median lies between the least and the greatest value. */
  lemma MedianIsBetween(s: seq<real>, low: real, high: real)
    requires s != [] && forall i :: 0 <= i < |s| ==> low <= s[i] <= high
    ensures low <= Median(s) <= high
  {
    SortedIs(s);
    forall v | v in Sorted(s)
      ensures low <= v <= high
    {
      assert v in multiset(s);
    }
    var t, h := Sorted(s), |s| / 2;
    assert t[h] in t;
    if |s| % 2 == 0 {
      assert t[h - 1] in t;
    }
  }

  /** The median does not depend on the order of the values. */
  lemma MedianIgnoresOrder(a: seq<real>, b: seq<real>)
    requires a != [] && b != [] && multiset(a) == multiset(b)
    ensures Median(a) == Median(b)
  {
    SameLength(a, b);
    SortedIs(a);
    SortedIs(b);
    AscendingIsUnique(Sorted(a), Sorted(b));
  }

  // ---------------------------------------------------------------- the summary

  datatype Summary = NoValues | Summary(count: nat, median: real, mad: real, min: real, max: real)

  function Abs(x: real): real { if x < 0.0 then -x else x }

  function Deviations(s: seq<real>, m: real): seq<real> { seq(|s|, i requires 0 <= i < |s| => Abs(s[i] - m)) }

  function Least(s: seq<real>): (r: real)
    requires s != []
    ensures r in s && forall i :: 0 <= i < |s| ==> r <= s[i]
  {
    if |s| == 1 then s[0]
    else
      var rest := Least(s[..|s| - 1]);
      if rest <= s[|s| - 1] then rest else s[|s| - 1]
  }

  function Greatest(s: seq<real>): (r: real)
    requires s != []
    ensures r in s && forall i :: 0 <= i < |s| ==> s[i] <= r
  {
    if |s| == 1 then s[0]
    else
      var rest := Greatest(s[..|s| - 1]);
      if s[|s| - 1] <= rest then rest else s[|s| - 1]
  }

  /** The values that are there. */
  function Present(values: seq<Option<real>>): seq<real> {
    if values == [] then []
    else Present(values[..|values| - 1]) + (var v := values[|values| - 1]; if v.Some? then [v.value] else [])
  }

  function Summarize(values: seq<Option<real>>): Summary {
    var s := Present(values);
    if s == [] then NoValues
    else Summary(|s|, Median(s), Median(Deviations(s, Median(s))), Least(s), Greatest(s))
  }

  function CountWithin(s: seq<real>, m: real, d: real): nat {
    if s == [] then 0 else CountWithin(s[..|s| - 1], m, d) + (if m - d <= s[|s| - 1] <= m + d then 1 else 0)
  }

  lemma {:induction false} CountOfDeviations(s: seq<real>, m: real, d: real)
    ensures CountAtMost(Deviations(s, m), d) == CountWithin(s, m, d)
  {
    if s != [] {
      var n := |s| - 1;
      CountOfDeviations(s[..n], m, d);
      assert Deviations(s, m)[..n] == Deviations(s[..n], m);
    }
  }

  /**
   * A summary of some values: the median lies between the extremes, which are values, and at least half of the
   * values lie within the median absolute deviation of the median.
   */
  lemma SummaryIsRobust(values: seq<Option<real>>)
    ensures var s, r := Present(values), Summarize(values);
            if s == [] then r == NoValues
            else
              && r.Summary? && r.count == |s| && r.min in s && r.max in s
              && r.min <= r.median <= r.max && 0.0 <= r.mad
              && (forall i :: 0 <= i < |s| ==> r.min <= s[i] <= r.max)
              && 2 * CountWithin(s, r.median, r.mad) >= |s|
  {
    hide Median, Present;
    var s := Present(values);
    if s != [] {
      var m := Median(s);
      var devs := Deviations(s, m);
      MedianIsBetween(s, Least(s), Greatest(s));
      MedianIsBetween(devs, 0.0, Greatest(devs));
      HalfAtMostMedian(devs);
      CountOfDeviations(s, m, Median(devs));
    }
  }

  // ---------------------------------------------------------------- order

  lemma DeviationsTakeOut(b: seq<real>, k: nat, m: real)
    requires k < |b|
    ensures multiset(Deviations(b, m)) == multiset(Deviations(b[..k] + b[k + 1..], m)) + multiset{Abs(b[k] - m)}
  {
    hide Abs;
    var d := Deviations(b, m);
    TakeOut(d, k);
    assert d[..k] + d[k + 1..] == Deviations(b[..k] + b[k + 1..], m);
  }

  lemma {:induction false} DeviationsIgnoreOrder(a: seq<real>, b: seq<real>, m: real)
    requires multiset(a) == multiset(b)
    ensures multiset(Deviations(a, m)) == multiset(Deviations(b, m))
  {
    hide Abs;
    SameLength(a, b);
    if a != [] {
      hide Deviations;
      var n := |a| - 1;
      SplitLast(a);
      assert a[n] in multiset(b);
      var k :| 0 <= k < |b| && b[k] == a[n];
      var rest := b[..k] + b[k + 1..];
      TakeOut(b, k);
      Cancel(multiset(a[..n]), multiset(rest), a[n]);
      DeviationsIgnoreOrder(a[..n], rest, m);
      DeviationsTakeOut(b, k, m);
      DeviationsTakeOut(a, n, m);
      assert a[..n] + a[n + 1..] == a[..n];
    }
  }

  function AsBag(v: Option<real>): multiset<real> { if v.Some? then multiset{v.value} else multiset{} }

  lemma PresentTakeOut(b: seq<Option<real>>, k: nat)
    requires k < |b|
    ensures multiset(Present(b)) == multiset(Present(b[..k] + b[k + 1..])) + AsBag(b[k])
  {
    hide Present, AsBag;
    var front, back := b[..k], b[k + 1..];
    assert b == front + ([b[k]] + back);
    PresentAppend(front, [b[k]] + back);
    PresentAppend([b[k]], back);
    PresentAppend(front, back);
    PresentOne(b[k]);
    Middle(Present(front), Present([b[k]]), Present(back));
  }

  lemma PresentOne(v: Option<real>)
    ensures multiset(Present([v])) == AsBag(v)
  {
    assert Present([v]) == if v.Some? then [v.value] else [];
  }

  lemma Middle<T>(p: seq<T>, m: seq<T>, q: seq<T>)
    ensures multiset(p + (m + q)) == multiset(p + q) + multiset(m)
  {
  }

  lemma {:induction false} PresentIgnoresOrder(a: seq<Option<real>>, b: seq<Option<real>>)
    requires multiset(a) == multiset(b)
    ensures multiset(Present(a)) == multiset(Present(b))
  {
    SameLength(a, b);
    if a != [] {
      var n := |a| - 1;
      SplitLast(a);
      assert a[n] in multiset(b);
      var k :| 0 <= k < |b| && b[k] == a[n];
      TakeOut(b, k);
      var rest := b[..k] + b[k + 1..];
      hide Present, AsBag;
      Cancel(multiset(a[..n]), multiset(rest), a[n]);
      PresentIgnoresOrder(a[..n], rest);
      PresentTakeOut(b, k);
      PresentTakeOut(a, n);
      assert a[..n] + a[n + 1..] == a[..n];
    }
  }

  lemma {:induction false} PresentAppend(a: seq<Option<real>>, b: seq<Option<real>>)
    ensures Present(a + b) == Present(a) + Present(b)
  {
    if b == [] {
      assert a + b == a;
    } else {
      var n := |b| - 1;
      PresentAppend(a, b[..n]);
      assert (a + b)[..|a| + n] == a + b[..n];
    }
  }

  /** The summary does not depend on the order of the values. */
  lemma SummaryIgnoresOrder(a: seq<Option<real>>, b: seq<Option<real>>)
    requires multiset(a) == multiset(b)
    ensures Summarize(a) == Summarize(b)
  {
    hide Median, Present;
    PresentIgnoresOrder(a, b);
    var s, t := Present(a), Present(b);
    SameLength(s, t);
    if s != [] {
      MedianIgnoresOrder(s, t);
      DeviationsIgnoreOrder(s, t, Median(s));
      MedianIgnoresOrder(Deviations(s, Median(s)), Deviations(t, Median(t)));
      assert Least(s) in multiset(t) && Least(t) in multiset(s);
      assert Greatest(s) in multiset(t) && Greatest(t) in multiset(s);
    }
  }

  // ---------------------------------------------------------------- the middle

  /** Whatever the order in which they are put in ascending order: twice the median is the sum of the middle values. */
  lemma MedianIsMiddle(s: seq<real>, t: seq<real>)
    requires s != [] && Ascending(t) && multiset(t) == multiset(s)
    ensures |t| == |s| && 2.0 * Median(s) == t[(|t| - 1) / 2] + t[|t| / 2]
  {
    SameLength(s, t);
    SortedIs(s);
    AscendingIsUnique(Sorted(s), t);
    hide Sorted, Ascending;
  }

  /** Likewise for the deviations: the summary's MAD is the middle of the distances to the median. */
  lemma MadIsMiddle(values: seq<Option<real>>, t: seq<real>)
    requires Present(values) != []
    requires Ascending(t) && multiset(t) == multiset(Deviations(Present(values), Median(Present(values))))
    ensures |t| == |Present(values)| && 2.0 * Summarize(values).mad == t[(|t| - 1) / 2] + t[|t| / 2]
  {
    hide Present, Median;
    MedianIsMiddle(Deviations(Present(values), Median(Present(values))), t);
  }

  /** The values that are there, in their order: none is lost and none is added. */
  lemma PresentIs(front: seq<Option<real>>, v: real)
    ensures Present(front + [Some(v)]) == Present(front) + [v] && Present(front + [None]) == Present(front)
  {
    assert (front + [Some(v)])[..|front|] == front && (front + [None])[..|front|] == front;
  }
}
