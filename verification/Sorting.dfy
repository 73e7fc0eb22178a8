/** Rearranging sequences, and stable sorting by an order given as a function. */
module Sorting {

  // ---------------------------------------------------------------- sequences and their elements

  lemma SameLength<T>(a: seq<T>, b: seq<T>)
    requires multiset(a) == multiset(b)
    ensures |a| == |b|
  {
    assert |multiset(a)| == |a|;
  }

  lemma SplitLast<T>(a: seq<T>)
    requires a != []
    ensures a == a[..|a| - 1] + [a[|a| - 1]] && multiset(a) == multiset(a[..|a| - 1]) + multiset{a[|a| - 1]}
  {
    assert a == a[..|a| - 1] + [a[|a| - 1]];
  }

  lemma TakeOut<T>(b: seq<T>, k: nat)
    requires k < |b|
    ensures multiset(b) == multiset(b[..k] + b[k + 1..]) + multiset{b[k]}
  {
    assert b == b[..k] + [b[k]] + b[k + 1..];
  }

  lemma Cancel<T>(a: multiset<T>, b: multiset<T>, x: T)
    requires a + multiset{x} == b + multiset{x}
    ensures a == b
  {
    assert a == (a + multiset{x}) - multiset{x};
    assert b == (b + multiset{x}) - multiset{x};
  }

  // ---------------------------------------------------------------- sorting

  /** Put an element behind all that it does not come before. */
  function Insert<T>(sorted: seq<T>, x: T, before: (T, T) -> bool): seq<T> {
    if sorted == [] || !before(x, sorted[|sorted| - 1]) then sorted + [x]
    else Insert(sorted[..|sorted| - 1], x, before) + [sorted[|sorted| - 1]]
  }

  function Sort<T>(s: seq<T>, before: (T, T) -> bool): seq<T> {
    if s == [] then [] else Insert(Sort(s[..|s| - 1], before), s[|s| - 1], before)
  }

  lemma {:induction false} InsertKeeps<T>(sorted: seq<T>, x: T, before: (T, T) -> bool)
    ensures multiset(Insert(sorted, x, before)) == multiset(sorted) + multiset{x}
    ensures |Insert(sorted, x, before)| == |sorted| + 1
  {
    if sorted != [] && before(x, sorted[|sorted| - 1]) {
      var n := |sorted| - 1;
      InsertKeeps(sorted[..n], x, before);
      assert sorted == sorted[..n] + [sorted[n]];
    }
  }

  lemma {:induction false} SortKeeps<T>(s: seq<T>, before: (T, T) -> bool)
    ensures multiset(Sort(s, before)) == multiset(s) && |Sort(s, before)| == |s|
  {
    if s != [] {
      var n := |s| - 1;
      SortKeeps(s[..n], before);
      InsertKeeps(Sort(s[..n], before), s[n], before);
      assert s == s[..n] + [s[n]];
    }
  }

  /** Nothing comes before the element in front of it. */
  predicate Ordered<T>(s: seq<T>, before: (T, T) -> bool) {
    forall i :: 0 <= i < |s| - 1 ==> !before(s[i + 1], s[i])
  }

  lemma InsertLast<T>(s: seq<T>, x: T, before: (T, T) -> bool)
    requires s == [] || !before(x, s[|s| - 1])
    ensures Insert(s, x, before) == s + [x]
  {
  }

  lemma FrontIsOrdered<T>(s: seq<T>, before: (T, T) -> bool)
    requires s != [] && Ordered(s, before)
    ensures Ordered(s[..|s| - 1], before)
    ensures |s| > 1 ==> !before(s[|s| - 1], s[|s| - 2])
  {
    var n := |s| - 1;
    assert n > 0 ==> !before(s[n - 1 + 1], s[n - 1]);
  }

  /** What is in order already stays as it is. */
  lemma {:induction false} SortOfSorted<T>(s: seq<T>, before: (T, T) -> bool)
    requires Ordered(s, before)
    ensures Sort(s, before) == s
  {
    hide Insert, Ordered;
    if s != [] {
      var n := |s| - 1;
      FrontIsOrdered(s, before);
      SortOfSorted(s[..n], before);
      InsertLast(s[..n], s[n], before);
      assert s == s[..n] + [s[n]];
    }
  }

  // ---------------------------------------------------------------- sorted by a strict order

  /** A strict order in which any two different elements of a sequence compare. */
  ghost predicate StrictOn<T(!new)>(before: (T, T) -> bool) {
    && (forall x, y :: before(x, y) ==> !before(y, x))
    && (forall x, y, z :: before(x, y) && before(y, z) ==> before(x, z))
  }

  /** Each element comes before all that follow it. */
  predicate Strictly<T>(s: seq<T>, before: (T, T) -> bool) {
    forall i, j :: 0 <= i < j < |s| ==> before(s[i], s[j])
  }

  lemma {:induction false} ChainIsStrict<T(!new)>(s: seq<T>, before: (T, T) -> bool, i: nat, j: nat)
    requires StrictOn(before) && (forall k :: 0 <= k < |s| - 1 ==> before(s[k], s[k + 1])) && i < j < |s|
    ensures before(s[i], s[j])
    decreases j
  {
    if i < j - 1 {
      ChainIsStrict(s, before, i, j - 1);
    }
    assert before(s[j - 1], s[j - 1 + 1]);
  }

  /** Two strictly ordered sequences of the same elements are the same. */
  lemma {:induction false} StrictIsUnique<T(!new)>(a: seq<T>, b: seq<T>, before: (T, T) -> bool)
    requires StrictOn(before) && Strictly(a, before) && Strictly(b, before) && multiset(a) == multiset(b)
    ensures a == b
    decreases |a|
  {
    SameLength(a, b);
    if a != [] {
      var n := |a| - 1;
      SplitLast(a);
      SplitLast(b);
      SameLast(a, b, before);
      assert Strictly(a[..n], before) && Strictly(b[..n], before);
      hide Strictly, StrictOn;
      Cancel(multiset(a[..n]), multiset(b[..n]), a[n]);
      StrictIsUnique(a[..n], b[..n], before);
    }
  }

  lemma SameLast<T(!new)>(a: seq<T>, b: seq<T>, before: (T, T) -> bool)
    requires StrictOn(before) && Strictly(a, before) && Strictly(b, before) && multiset(a) == multiset(b)
    requires a != [] && |a| == |b|
    ensures a[|a| - 1] == b[|b| - 1]
  {
    var n := |a| - 1;
    assert a[n] in multiset(b) && b[n] in multiset(a);
    var i :| 0 <= i < |b| && b[i] == a[n];
    var j :| 0 <= j < |a| && a[j] == b[n];
  }

  lemma OneOf<T>(t: seq<T>, front: seq<T>, x: T, i: nat)
    requires multiset(t) == multiset(front) + multiset{x} && i < |t|
    ensures t[i] == x || exists k :: 0 <= k < |front| && front[k] == t[i]
  {
    assert t[i] in multiset(t);
  }

  /** Inserting into a strictly ordered sequence an element that compares with all others keeps the order. */
  lemma {:induction false} InsertIsStrict<T(!new)>(s: seq<T>, x: T, before: (T, T) -> bool)
    requires StrictOn(before) && Strictly(s, before)
    requires forall i :: 0 <= i < |s| ==> before(s[i], x) || before(x, s[i])
    ensures Strictly(Insert(s, x, before), before)
  {
    if s != [] && before(x, s[|s| - 1]) {
      var n := |s| - 1;
      var front := s[..n];
      InsertIsStrict(front, x, before);
      InsertKeeps(front, x, before);
      var t := Insert(front, x, before);
      forall i | 0 <= i < |t|
        ensures before(t[i], s[n])
      {
        OneOf(t, front, x, i);
      }
    } else if s != [] {
      var n := |s| - 1;
      forall i | 0 <= i < |s|
        ensures before(s[i], x)
      {
        if i < n {
          assert before(s[i], s[n]);
        }
      }
    }
  }

  /** If any two elements at different places compare, sorting puts them in strict order. */
  lemma {:induction false} SortIsStrict<T(!new)>(s: seq<T>, before: (T, T) -> bool)
    requires StrictOn(before)
    requires forall i, j :: 0 <= i < j < |s| ==> before(s[i], s[j]) || before(s[j], s[i])
    ensures Strictly(Sort(s, before), before)
  {
    if s != [] {
      var n := |s| - 1;
      var front := s[..n];
      SortIsStrict(front, before);
      SortKeeps(front, before);
      var t := Sort(front, before);
      forall i | 0 <= i < |t|
        ensures before(t[i], s[n]) || before(s[n], t[i])
      {
        assert t[i] in multiset(front);
        var k :| 0 <= k < n && front[k] == t[i];
        assert s[k] == t[i];
      }
      InsertIsStrict(t, s[n], before);
    }
  }
}
