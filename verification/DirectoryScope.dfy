/**
 The directory scope of a query: the deepest directory that holds all its best-scored
 ground-truth documents, and the ground truth that a directory query keeps.
 */
module DirectoryScope {
  import opened Strings
  import opened Paths
  import opened WrittenPaths

  /** The length of the longest common prefix. */
  function Agreement(a: seq<string>, b: seq<string>): (n: nat)
    ensures n <= |a| && n <= |b| && a[..n] == b[..n]
    ensures n < |a| && n < |b| ==> a[n] != b[n]
  {
    if a != [] && b != [] && a[0] == b[0] then
      var n := 1 + Agreement(a[1..], b[1..]);
      assert a[..n] == [a[0]] + a[1..][..n - 1];
      assert b[..n] == [b[0]] + b[1..][..n - 1];
      n
    else 0
  }

  /** `c` is a prefix of every path, and no other prefix of all of them is longer. */
  ghost predicate GreatestCommonPrefix(c: seq<string>, paths: seq<seq<string>>) {
    CommonPrefix(c, paths) && forall d :: CommonPrefix(d, paths) ==> d <= c
  }

  predicate CommonPrefix(c: seq<string>, paths: seq<seq<string>>) {
    forall k :: 0 <= k < |paths| ==> c <= paths[k]
  }

  lemma PrefixesCompare(c: seq<string>, d: seq<string>, p: seq<string>)
    requires c <= p && d <= p
    ensures c <= d || d <= c
  {
    assert forall k :: 0 <= k < |c| ==> c[k] == p[k];
    assert forall k :: 0 <= k < |d| ==> d[k] == p[k];
  }

  /** Cutting at the agreement with one more path keeps the greatest common prefix. */
  lemma CutIsGreatest(c: seq<string>, paths: seq<seq<string>>, p: seq<string>)
    requires GreatestCommonPrefix(c, paths)
    ensures GreatestCommonPrefix(c[..Agreement(c, p)], paths + [p])
  {
    var n := Agreement(c, p);
    var all := paths + [p];
    assert CommonPrefix(c[..n], all);
    forall d | CommonPrefix(d, all)
      ensures d <= c[..n]
    {
      assert forall k :: 0 <= k < |paths| ==> paths[k] == all[k];
      assert CommonPrefix(d, paths);
      assert all[|paths|] == p;
      PrefixesCompare(d, c[..n], c);
      NoLonger(c, p, d);
    }
  }

  lemma NoLonger(c: seq<string>, p: seq<string>, d: seq<string>)
    requires d <= c && d <= p
    ensures |d| <= Agreement(c, p)
  {
  }

  /** There is only one, whatever the order of the paths and however often each occurs. */
  lemma GreatestIsUnique(c: seq<string>, xs: seq<seq<string>>, d: seq<string>, ys: seq<seq<string>>)
    requires GreatestCommonPrefix(c, xs) && GreatestCommonPrefix(d, ys)
    requires forall p :: p in xs <==> p in ys
    ensures c == d
  {
    assert CommonPrefix(c, ys) by {
      assert forall k :: 0 <= k < |ys| ==> ys[k] in xs;
    }
    assert CommonPrefix(d, xs) by {
      assert forall k :: 0 <= k < |xs| ==> xs[k] in ys;
    }
  }

  /** The inner loop of `common_path_prefix`. */
  method AgreementLoop(prefix: seq<string>, parts: seq<string>) returns (index: nat)
    ensures index == Agreement(prefix, parts)
  {
    index := 0;
    while index < |prefix| && index < |parts| && prefix[index] == parts[index]
      invariant index <= |prefix| && index <= |parts|
      invariant index + Agreement(prefix[index..], parts[index..]) == Agreement(prefix, parts)
    {
      assert prefix[index..][1..] == prefix[index + 1..];
      assert parts[index..][1..] == parts[index + 1..];
      index := index + 1;
    }
  }

  function PartsOf(paths: seq<string>): (parts: seq<seq<string>>)
    ensures |parts| == |paths|
    ensures forall k :: 0 <= k < |paths| ==> parts[k] == PathParts(paths[k])
  {
    seq(|paths|, k requires 0 <= k < |paths| => PathParts(paths[k]))
  }

  function JoinParts(prefix: seq<string>): string { if prefix == [] then "/" else "/" + Join(prefix, '/') }

  /** `common_path_prefix`: truncate the first path's parts at the agreement with each further path. */
  method CommonPathPrefix(paths: seq<string>) returns (common: string)
    ensures paths == [] ==> common == "/"
    ensures paths != [] ==> exists prefix :: common == JoinParts(prefix) && GreatestCommonPrefix(prefix, PartsOf(paths))
  {
    hide PathParts;
    if paths == [] {
      return "/";
    }
    var parts := PathParts(paths[0]);
    assert GreatestCommonPrefix(parts, PartsOf(paths[..1])) by {
      Single(paths[0]);
      assert paths[..1] == [paths[0]];
    }
    for i := 1 to |paths|
      invariant GreatestCommonPrefix(parts, PartsOf(paths[..i]))
    {
      var index := AgreementLoop(parts, PathParts(paths[i]));
      CutIsGreatest(parts, PartsOf(paths[..i]), PathParts(paths[i]));
      PartsExtend(paths, i);
      parts := parts[..index];
      if parts == [] {
        RootIsGreatest(paths, i + 1);
        common := JoinParts([]);
        return;
      }
    }
    assert paths[..|paths|] == paths;
    return JoinParts(parts);
  }

  lemma Single(path: string)
    ensures GreatestCommonPrefix(PathParts(path), PartsOf([path]))
  {
    var parts := PartsOf([path]);
    assert parts[0] == PathParts(path);
  }

  lemma PartsExtend(paths: seq<string>, i: nat)
    requires i < |paths|
    ensures PartsOf(paths[..i + 1]) == PartsOf(paths[..i]) + [PathParts(paths[i])]
  {
  }

  /** Once only the root is common to some of the paths, it is the common prefix of all of them. */
  lemma RootIsGreatest(paths: seq<string>, i: nat)
    requires i <= |paths| && GreatestCommonPrefix([], PartsOf(paths[..i]))
    ensures GreatestCommonPrefix([], PartsOf(paths))
  {
    var some, all := PartsOf(paths[..i]), PartsOf(paths);
    assert CommonPrefix([], all);
    forall d | CommonPrefix(d, all)
      ensures d <= []
    {
      assert forall k :: 0 <= k < |some| ==> some[k] == all[k];
      assert CommonPrefix(d, some);
    }
  }

  // ---------------------------------------------------------------- ground truth

  datatype GroundTruthItem = GroundTruthItem(corpusId: string, score: real)

  /** The items with the highest score, as `derived_gt_lca_scope` selects them. */
  function Highest(items: seq<GroundTruthItem>): (h: real)
    requires items != []
    ensures exists k :: 0 <= k < |items| && items[k].score == h
    ensures forall k :: 0 <= k < |items| ==> items[k].score <= h
  {
    if |items| == 1 then items[0].score
    else
      var h := Highest(items[1..]);
      if items[0].score > h then items[0].score else h
  }

  function Relevant(items: seq<GroundTruthItem>, score: real, corpus: map<string, string>): (paths: seq<string>)
    requires forall k :: 0 <= k < |items| && items[k].score == score ==> items[k].corpusId in corpus
    ensures forall p :: p in paths <==>
              exists k :: 0 <= k < |items| && items[k].score == score && corpus[items[k].corpusId] == p
  {
    if items == [] then []
    else
      var rest := Relevant(items[1..], score, corpus);
      if items[0].score == score then
        [corpus[items[0].corpusId]] + rest
      else rest
  }

  /** The corpus maps the best-scored documents to paths of proper segments. */
  ghost predicate ProperCorpus(items: seq<GroundTruthItem>, corpus: map<string, string>) {
    forall k :: 0 <= k < |items| && IsTop(items, k) ==>
      items[k].corpusId in corpus && ProperPath(corpus[items[k].corpusId])
  }

  predicate IsTop(items: seq<GroundTruthItem>, k: nat)
    requires k < |items|
  {
    items[k].score == Highest(items)
  }

  ghost predicate ProperPath(path: string) {
    exists segs :: Segments(segs) && path == PathText(segs)
  }

  /** As `ProperCorpus`, but names may hold semicolons. */
  ghost predicate NamedCorpus(items: seq<GroundTruthItem>, corpus: map<string, string>) {
    forall k :: 0 <= k < |items| && IsTop(items, k) ==>
      items[k].corpusId in corpus && NamedPath(corpus[items[k].corpusId])
  }

  ghost predicate NamedPath(path: string) {
    exists segs :: Names(segs) && path == PathText(segs)
  }

  ghost function TopPaths(items: seq<GroundTruthItem>, corpus: map<string, string>): set<string>
    requires forall k :: 0 <= k < |items| && IsTop(items, k) ==> items[k].corpusId in corpus
  {
    set k | 0 <= k < |items| && IsTop(items, k) :: corpus[items[k].corpusId]
  }

  method DerivedScope(items: seq<GroundTruthItem>, corpus: map<string, string>)
    returns (scope: string)
    requires forall k :: 0 <= k < |items| && IsTop(items, k) ==> items[k].corpusId in corpus
    ensures items == [] ==> scope == "/"
    ensures items != [] ==> exists prefix :: scope == JoinParts(prefix) && IsScope(items, corpus, prefix)
  {
    if items == [] {
      return "/";
    }
    var highest := Highest(items);
    var relevant := Relevant(items, highest, corpus);
    scope := CommonPathPrefix(relevant);
    var k :| 0 <= k < |items| && items[k].score == highest;
    assert corpus[items[k].corpusId] in relevant;
    ghost var prefix :| scope == JoinParts(prefix) && GreatestCommonPrefix(prefix, PartsOf(relevant));
    assert IsScope(items, corpus, prefix);
  }

  /** A scope `derived_gt_lca_scope` may return. */
  ghost predicate IsScope(items: seq<GroundTruthItem>, corpus: map<string, string>, prefix: seq<string>)
    requires items != []
    requires forall k :: 0 <= k < |items| && IsTop(items, k) ==> items[k].corpusId in corpus
  {
    exists paths :: GreatestCommonPrefix(prefix, PartsOf(paths))
                    && forall p :: p in paths <==> p in TopPaths(items, corpus)
  }

  /** The scope does not depend on the order of the items. */
  lemma ScopeIgnoresOrder(items: seq<GroundTruthItem>, other: seq<GroundTruthItem>, corpus: map<string, string>,
                          c: seq<string>, d: seq<string>)
    requires items != [] && multiset(items) == multiset(other)
    requires forall k :: 0 <= k < |items| && IsTop(items, k) ==> items[k].corpusId in corpus
    requires forall k :: 0 <= k < |other| && IsTop(other, k) ==> other[k].corpusId in corpus
    requires IsScope(items, corpus, c)
    requires other != [] && IsScope(other, corpus, d)
    ensures c == d && JoinParts(c) == JoinParts(d)
  {
    SameTop(items, other, corpus);
    SameTop(other, items, corpus);
    var xs :| GreatestCommonPrefix(c, PartsOf(xs)) && forall p :: p in xs <==> p in TopPaths(items, corpus);
    var ys :| GreatestCommonPrefix(d, PartsOf(ys)) && forall p :: p in ys <==> p in TopPaths(other, corpus);
    SameParts(xs, ys);
    SameParts(ys, xs);
    GreatestIsUnique(c, PartsOf(xs), d, PartsOf(ys));
  }

  lemma SameTop(items: seq<GroundTruthItem>, other: seq<GroundTruthItem>, corpus: map<string, string>)
    requires items != [] && other != [] && multiset(items) == multiset(other)
    requires forall k :: 0 <= k < |items| && IsTop(items, k) ==> items[k].corpusId in corpus
    requires forall k :: 0 <= k < |other| && IsTop(other, k) ==> other[k].corpusId in corpus
    ensures TopPaths(items, corpus) <= TopPaths(other, corpus)
  {
    forall x | x in items
      ensures x in other
    {
      assert x in multiset(items);
    }
    forall x | x in other
      ensures x in items
    {
      assert x in multiset(other);
    }
    SameHighest(items, other);
    forall p | p in TopPaths(items, corpus)
      ensures p in TopPaths(other, corpus)
    {
      var k :| 0 <= k < |items| && IsTop(items, k) && corpus[items[k].corpusId] == p;
      assert items[k] in other;
      var m :| 0 <= m < |other| && other[m] == items[k];
      assert IsTop(other, m);
    }
  }

  lemma SameHighest(items: seq<GroundTruthItem>, other: seq<GroundTruthItem>)
    requires items != [] && other != [] && (forall x :: x in items <==> x in other)
    ensures Highest(items) == Highest(other)
  {
    var k :| 0 <= k < |items| && items[k].score == Highest(items);
    var m :| 0 <= m < |other| && other[m].score == Highest(other);
    assert items[k] in other && other[m] in items;
  }

  lemma SameParts(xs: seq<string>, ys: seq<string>)
    requires forall p :: p in xs ==> p in ys
    ensures forall q :: q in PartsOf(xs) ==> q in PartsOf(ys)
  {
    forall q | q in PartsOf(xs)
      ensures q in PartsOf(ys)
    {
      var k :| 0 <= k < |xs| && PartsOf(xs)[k] == q;
      assert xs[k] in ys;
      var m :| 0 <= m < |ys| && ys[m] == xs[k];
      assert PartsOf(ys)[m] == q;
    }
  }

  /**
   * The deepest directory: on paths of proper segments the scope is itself such a path,
   * it matches every best-scored document, and any directory that matches all of them
   * lies above it.
   */
  lemma ScopeIsDeepest(items: seq<GroundTruthItem>, corpus: map<string, string>, prefix: seq<string>)
    requires items != [] && ProperCorpus(items, corpus) && IsScope(items, corpus, prefix)
    ensures Segments(prefix) && JoinParts(prefix) == PathText(prefix)
    ensures forall k :: 0 <= k < |items| && IsTop(items, k) ==>
            PathMatches(corpus[items[k].corpusId], JoinParts(prefix))
    ensures forall d: seq<string> ::
      Segments(d) && (forall k :: 0 <= k < |items| && IsTop(items, k) ==>
          PathMatches(corpus[items[k].corpusId], PathText(d)))
      ==> d <= prefix
  {
    hide PathMatches, PathText, PathParts, GreatestCommonPrefix, Segments;
    var paths :| GreatestCommonPrefix(prefix, PartsOf(paths))
                 && forall p :: p in paths <==> p in TopPaths(items, corpus);
    var top :| 0 <= top < |items| && IsTop(items, top);
    var p := corpus[items[top].corpusId];
    assert p in TopPaths(items, corpus);
    var segs := SegmentsOf(p);
    CommonBelow(prefix, paths, p);
    PrefixSegments(prefix, segs);
    forall k | 0 <= k < |items| && IsTop(items, k)
      ensures PathMatches(corpus[items[k].corpusId], JoinParts(prefix))
    {
      var q := corpus[items[k].corpusId];
      assert q in TopPaths(items, corpus);
      var qs := SegmentsOf(q);
      CommonBelow(prefix, paths, q);
      MatchesIsSegmentPrefix(qs, prefix);
    }
    forall d: seq<string> |
      Segments(d) && (forall k :: 0 <= k < |items| && IsTop(items, k) ==>
          PathMatches(corpus[items[k].corpusId], PathText(d)))
      ensures d <= prefix
    {
      forall q | q in paths
        ensures d <= PathParts(q)
      {
        var k :| 0 <= k < |items| && IsTop(items, k) && corpus[items[k].corpusId] == q;
        var qs := SegmentsOf(q);
        MatchesIsSegmentPrefix(qs, d);
      }
      AboveCommon(d, prefix, paths);
    }
  }

  lemma SegmentsOf(path: string) returns (segs: seq<string>)
    requires ProperPath(path)
    ensures Segments(segs) && path == PathText(segs) && PathParts(path) == segs
  {
    segs :| Segments(segs) && path == PathText(segs);
    PartsOfText(segs);
  }

  lemma CommonBelow(prefix: seq<string>, paths: seq<string>, p: string)
    requires GreatestCommonPrefix(prefix, PartsOf(paths)) && p in paths
    ensures prefix <= PathParts(p)
  {
    var k :| 0 <= k < |paths| && paths[k] == p;
    assert PartsOf(paths)[k] == PathParts(p);
  }

  lemma AboveCommon(d: seq<string>, prefix: seq<string>, paths: seq<string>)
    requires GreatestCommonPrefix(prefix, PartsOf(paths)) && forall q :: q in paths ==> d <= PathParts(q)
    ensures d <= prefix
  {
    var parts := PartsOf(paths);
    assert CommonPrefix(d, parts) by {
      assert forall k :: 0 <= k < |parts| ==> paths[k] in paths;
    }
  }

  lemma PrefixSegments(prefix: seq<string>, segs: seq<string>)
    requires Segments(segs) && prefix <= segs
    ensures Segments(prefix) && JoinParts(prefix) == PathText(prefix)
  {
    assert forall k :: 0 <= k < |prefix| ==> prefix[k] == segs[k];
    if prefix != [] {
      SlashedIsJoin(prefix);
    }
  }

  // ---------------------------------------------------------------- the directory query

  /** The ground truth a directory query over the full corpus keeps. */
  function DirectoryGroundTruth(items: seq<GroundTruthItem>, corpus: map<string, string>,
                                scope: string): (ids: seq<string>)
    requires forall k :: 0 <= k < |items| ==> items[k].corpusId in corpus
    ensures forall id :: id in ids <==>
      exists k :: 0 <= k < |items| && items[k].corpusId == id && PathMatches(corpus[id], scope)
  {
    if items == [] then []
    else
      var rest := DirectoryGroundTruth(items[1..], corpus, scope);
      var id := items[0].corpusId;
      if PathMatches(corpus[id], scope) then [id] + rest else rest
  }

  /** The scope is made of the first parts of every best-scored path. */
  lemma ScopeAbove(items: seq<GroundTruthItem>, corpus: map<string, string>, prefix: seq<string>, k: nat)
    requires items != [] && ScopeOf(items, corpus, prefix) && k < |items| && IsTop(items, k)
    ensures prefix <= PathParts(corpus[items[k].corpusId]) && AreParts(prefix)
  {
    hide PathParts, GreatestCommonPrefix;
    var paths :| GreatestCommonPrefix(prefix, PartsOf(paths))
                 && forall p :: p in paths <==> p in TopPaths(items, corpus);
    var p := corpus[items[k].corpusId];
    assert p in TopPaths(items, corpus);
    CommonBelow(prefix, paths, p);
    PathPartsAreParts(p);
    assert forall i :: 0 <= i < |prefix| ==> prefix[i] == PathParts(p)[i];
  }

  /** A scope of items whose best-scored documents all have a path. */
  ghost predicate ScopeOf(items: seq<GroundTruthItem>, corpus: map<string, string>, prefix: seq<string>)
    requires items != []
  {
    (forall k :: 0 <= k < |items| && IsTop(items, k) ==> items[k].corpusId in corpus) && IsScope(items, corpus, prefix)
  }

  /**
   * For every corpus: the scope matches a best-scored document if and only if one of the paths that
   * its value lists is written as the scope is, and on.
   */
  lemma ScopeMatchesExactly(items: seq<GroundTruthItem>, corpus: map<string, string>, prefix: seq<string>, k: nat)
    requires items != [] && ScopeOf(items, corpus, prefix) && k < |items| && IsTop(items, k)
    ensures PathMatches(corpus[items[k].corpusId], JoinParts(prefix)) <==> Reaches(corpus[items[k].corpusId], prefix)
  {
    hide PathMatches, PathText, PathParts, Reaches, IsScope;
    ScopeAbove(items, corpus, prefix, k);
    PathTextOf(prefix);
    AnyValueExactly(corpus[items[k].corpusId], prefix);
  }

  /**
   * A document with a single path: exactly when the scope's last name is blank or does not end in white space, and
   * the path has no doubled slash down to the scope.
   */
  lemma SinglePathMatchesExactly(items: seq<GroundTruthItem>, corpus: map<string, string>, prefix: seq<string>, k: nat)
    requires items != [] && prefix != [] && ScopeOf(items, corpus, prefix) && k < |items| && IsTop(items, k)
    requires ';' !in corpus[items[k].corpusId]
    ensures PathMatches(corpus[items[k].corpusId], JoinParts(prefix))
       <==> Tidy(prefix[|prefix| - 1]) && Plain(corpus[items[k].corpusId], prefix)
  {
    hide PathMatches, PathText, PathParts, Plain, Tidy, IsScope;
    ScopeAbove(items, corpus, prefix, k);
    PathTextOf(prefix);
    SinglePathExactly(corpus[items[k].corpusId], prefix);
  }

  /**
   * A document whose parts are names that do not end in white space, with no doubled slash: exactly when the text
   * of the scope holds no semicolon.
   */
  lemma NamedPathMatchesExactly(items: seq<GroundTruthItem>, corpus: map<string, string>, prefix: seq<string>, k: nat)
    requires items != [] && NamedCorpus(items, corpus) && IsScope(items, corpus, prefix) && prefix != []
    requires k < |items| && IsTop(items, k)
    ensures PathMatches(corpus[items[k].corpusId], JoinParts(prefix)) <==> ';' !in JoinParts(prefix)
  {
    hide PathMatches, PathText, PathParts, IsScope;
    var p := corpus[items[k].corpusId];
    var segs :| Names(segs) && p == PathText(segs);
    PartsOfText(segs);
    ScopeAbove(items, corpus, prefix, k);
    PathTextOf(prefix);
    MatchesAncestorExactly(segs, prefix);
  }

  lemma PathTextOf(prefix: seq<string>)
    ensures JoinParts(prefix) == PathText(prefix)
  {
    if prefix != [] {
      SlashedIsJoin(prefix);
    }
  }

  /** For every corpus: the directory query keeps all best-scored documents if and only if each of them is reached. */
  lemma KeepsBestScoredExactly(items: seq<GroundTruthItem>, corpus: map<string, string>, prefix: seq<string>)
    requires forall j :: 0 <= j < |items| ==> items[j].corpusId in corpus
    requires items != [] && IsScope(items, corpus, prefix)
    ensures KeepsBestScored(items, corpus, prefix)
       <==> forall k :: 0 <= k < |items| && IsTop(items, k) ==> Reaches(corpus[items[k].corpusId], prefix)
  {
    hide PathMatches, JoinParts, Reaches, IsScope;
    forall k | 0 <= k < |items| && IsTop(items, k)
      ensures items[k].corpusId in DirectoryGroundTruth(items, corpus, JoinParts(prefix))
         <==> Reaches(corpus[items[k].corpusId], prefix)
    {
      ScopeMatchesExactly(items, corpus, prefix, k);
    }
  }

  /** All best-scored documents are among those the directory query keeps. */
  predicate KeepsBestScored(items: seq<GroundTruthItem>, corpus: map<string, string>, prefix: seq<string>)
    requires forall j :: 0 <= j < |items| ==> items[j].corpusId in corpus
  {
    forall k :: 0 <= k < |items| && IsTop(items, k) ==>
      items[k].corpusId in DirectoryGroundTruth(items, corpus, JoinParts(prefix))
  }

  /**
   * If every best-scored document has a single path: exactly when the scope is tidy and each path is plain down to
   * it.
   */
  lemma KeepsSinglePathsExactly(items: seq<GroundTruthItem>, corpus: map<string, string>, prefix: seq<string>)
    requires forall j :: 0 <= j < |items| ==> items[j].corpusId in corpus
    requires items != [] && prefix != [] && IsScope(items, corpus, prefix)
    requires forall k :: 0 <= k < |items| && IsTop(items, k) ==> ';' !in corpus[items[k].corpusId]
    ensures KeepsBestScored(items, corpus, prefix)
       <==> && Tidy(prefix[|prefix| - 1])
            && forall k :: 0 <= k < |items| && IsTop(items, k) ==> Plain(corpus[items[k].corpusId], prefix)
  {
    hide PathMatches, JoinParts, Plain, Tidy, IsScope;
    forall k | 0 <= k < |items| && IsTop(items, k)
      ensures items[k].corpusId in DirectoryGroundTruth(items, corpus, JoinParts(prefix))
         <==> Tidy(prefix[|prefix| - 1]) && Plain(corpus[items[k].corpusId], prefix)
    {
      SinglePathMatchesExactly(items, corpus, prefix, k);
    }
    var top := SomeTop(items);
  }

  lemma SomeTop(items: seq<GroundTruthItem>) returns (k: nat)
    requires items != []
    ensures k < |items| && IsTop(items, k)
  {
    k :| 0 <= k < |items| && items[k].score == Highest(items);
  }

  /** If every best-scored document has proper names: exactly when the text of the scope holds no semicolon. */
  lemma KeepsNamedPathsExactly(items: seq<GroundTruthItem>, corpus: map<string, string>, prefix: seq<string>)
    requires forall j :: 0 <= j < |items| ==> items[j].corpusId in corpus
    requires items != [] && NamedCorpus(items, corpus) && IsScope(items, corpus, prefix) && prefix != []
    ensures KeepsBestScored(items, corpus, prefix) <==> ';' !in JoinParts(prefix)
  {
    hide PathMatches, JoinParts, PathText, IsScope, NamedCorpus;
    var scope := JoinParts(prefix);
    forall k | 0 <= k < |items| && IsTop(items, k)
      ensures items[k].corpusId in DirectoryGroundTruth(items, corpus, scope) <==> ';' !in scope
    {
      NamedPathMatchesExactly(items, corpus, prefix, k);
    }
    var top := SomeTop(items);
  }

  /**
   * A document that lists two paths: the scope derived from it alone is the whole list taken as
   * one path, which does not match the document.
   */
  lemma ListedPathsLoseTheirScope(items: seq<GroundTruthItem>, corpus: map<string, string>)
    requires items == [GroundTruthItem("7", 1.0)] && corpus == map["7" := "/a/b;/c"]
    ensures IsScope(items, corpus, ["a", "b;", "c"])
    ensures !PathMatches("/a/b;/c", JoinParts(["a", "b;", "c"]))
    ensures DirectoryGroundTruth(items, corpus, JoinParts(["a", "b;", "c"])) == []
  {
    hide PathMatches, PathParts;
    var segs := ["a", "b;", "c"];
    var path := "/a/b;/c";
    assert IsTop(items, 0);
    assert Names(segs);
    assert PathText(segs) == path by {
      assert segs[1..] == ["b;", "c"] && segs[1..][1..] == ["c"] && segs[1..][1..][1..] == [];
    }
    PartsOfText(segs);
    Single(path);
    assert TopPaths(items, corpus) == {path};
    assert GreatestCommonPrefix(segs, PartsOf([path]));
    assert forall p :: p in [path] <==> p in TopPaths(items, corpus);
    PathTextOf(segs);
    assert path[4] == ';';
    MatchesAncestorExactly(segs, segs);
    assert items[1..] == [];
  }

  /** How a best-scored document with a single path is lost. */
  lemma NotKept(items: seq<GroundTruthItem>, corpus: map<string, string>, paths: seq<string>, prefix: seq<string>,
                k: nat)
    requires forall j :: 0 <= j < |items| ==> items[j].corpusId in corpus
    requires k < |items| && IsTop(items, k) && prefix != [] && GreatestCommonPrefix(prefix, PartsOf(paths))
    requires TopPaths(items, corpus) == set p | p in paths
    requires ';' !in corpus[items[k].corpusId]
    requires !Tidy(prefix[|prefix| - 1]) || !Plain(corpus[items[k].corpusId], prefix)
    ensures IsScope(items, corpus, prefix) && !KeepsBestScored(items, corpus, prefix)
  {
    hide PathMatches, JoinParts, Plain, Tidy, GreatestCommonPrefix, PartsOf;
    assert forall p :: p in paths <==> p in TopPaths(items, corpus);
    SinglePathMatchesExactly(items, corpus, prefix, k);
    assert items[k].corpusId !in DirectoryGroundTruth(items, corpus, JoinParts(prefix));
  }

  /** A doubled slash: the scope derived from the document alone does not match it. */
  lemma DoubledSlashLosesItsScope(items: seq<GroundTruthItem>, corpus: map<string, string>)
    requires items == [GroundTruthItem("7", 1.0)] && corpus == map["7" := "//a"]
    ensures NormalizePath("//a") == "//a"
    ensures IsScope(items, corpus, ["a"]) && !KeepsBestScored(items, corpus, ["a"])
  {
    DoubledSlash();
    OneTop(items, corpus);
    NotPlain("//a");
    Single("//a");
    NoSemicolon();
    hide PathParts, Written, Plain, Tidy, KeepsBestScored, IsTop, NormalizePath, GreatestCommonPrefix, PartsOf,
        TopPaths, IsScope;
    NotKept(items, corpus, ["//a"], ["a"], 0);
  }

  lemma OneTop(items: seq<GroundTruthItem>, corpus: map<string, string>)
    requires items == [GroundTruthItem("7", 1.0)] && corpus == map["7" := "//a"]
    ensures IsTop(items, 0) && TopPaths(items, corpus) == {"//a"}
  {
    assert corpus[items[0].corpusId] == "//a";
  }

  lemma NotPlain(path: string)
    requires Written(path) == ["", "", "a"]
    ensures !Plain(path, ["a"])
  {
    hide Written;
    assert RStrip("a", Blank) == "a";
    assert Trimmed(["a"]) == [] + ["a"];
    assert Written(path)[1] == "";
  }

  lemma DoubledSlash()
    ensures NormalizePath("//a") == "//a" && PathParts("//a") == ["a"] && Written("//a") == ["", "", "a"]
  {
    IsNormal("//a");
    SplitDoubled();
    hide NormalizePath, Written, PathParts, Split;
    PartsAreWritten("//a");
    assert ["", "", "a"][1..] == ["", "a"] && ["", "a"][1..] == ["a"] && ["a"][1..] == [];
    assert NonEmpty(["a"]) == ["a"] + NonEmpty([]) == ["a"];
    assert NonEmpty(["", "", "a"]) == NonEmpty(["", "a"]) == NonEmpty(["a"]);
  }

  lemma SplitDoubled()
    ensures Split("//a", '/') == ["", "", "a"]
  {
    assert Split("a", '/') == ["a"];
    assert "//a" == "/" + "/a" && "/a" == "/" + "a";
    hide Split;
    SplitSlash("/a");
    SplitSlash("a");
    assert [""] + ([""] + ["a"]) == ["", "", "a"];
  }

  /** White space at the end of the common directory: the scope of the two documents matches neither. */
  lemma BlankEndLosesItsScope(items: seq<GroundTruthItem>, corpus: map<string, string>)
    requires items == [GroundTruthItem("7", 1.0), GroundTruthItem("8", 1.0)]
             && corpus == map["7" := "/a /b", "8" := "/a /c"]
    ensures NormalizePath("/a /b") == "/a /b" && NormalizePath("/a /c") == "/a /c"
    ensures IsScope(items, corpus, ["a "]) && !KeepsBestScored(items, corpus, ["a "])
  {
    BlankEnd("/a /b", "b");
    BlankEnd("/a /c", "c");
    NotTidy();
    NoSemicolon();
    BothTop(items, corpus);
    CommonOfTwo("/a /b", "/a /c");
    hide PathParts, Written, Plain, Tidy, KeepsBestScored, IsTop, NormalizePath, GreatestCommonPrefix, PartsOf,
        TopPaths, IsScope;
    NotKept(items, corpus, ["/a /b", "/a /c"], ["a "], 0);
  }

  lemma BothTop(items: seq<GroundTruthItem>, corpus: map<string, string>)
    requires items == [GroundTruthItem("7", 1.0), GroundTruthItem("8", 1.0)]
             && corpus == map["7" := "/a /b", "8" := "/a /c"]
    ensures IsTop(items, 0) && IsTop(items, 1)
    ensures TopPaths(items, corpus) == {"/a /b", "/a /c"}
  {
    assert items[0].score == items[1].score == 1.0;
    assert corpus[items[0].corpusId] == "/a /b" && corpus[items[1].corpusId] == "/a /c";
  }

  lemma NoSemicolon()
    ensures ';' !in "/a /b" && ';' !in "/a /c" && ';' !in "//a"
  {
  }

  lemma NotTidy()
    ensures !Tidy("a ")
  {
    assert "a "[..1] == "a";
    assert RStrip("a ", Blank) == RStrip("a", Blank) == "a";
  }

  lemma BlankEnd(path: string, last: string)
    requires path == "/a /" + last && (last == "b" || last == "c")
    ensures NormalizePath(path) == path && PathParts(path) == ["a ", last]
  {
    hide NormalizePath, PathParts;
    var segs := ["a ", last];
    assert path == Slashed(segs) by {
      assert segs[1..] == [last] && segs[1..][1..] == [];
      assert Slashed([last]) == "/" + last + Slashed([]) == "/" + last;
    }
    assert path[|path| - 1] == last[0];
    assert IsPart("a ") && IsPart(last);
    hide Slashed;
    TextOfParts(segs);
  }

  lemma CommonOfTwo(p: string, q: string)
    requires PathParts(p) == ["a ", "b"] && PathParts(q) == ["a ", "c"]
    ensures GreatestCommonPrefix(["a "], PartsOf([p, q]))
  {
    hide PathParts;
    var parts := PartsOf([p, q]);
    assert parts[0] == ["a ", "b"] && parts[1] == ["a ", "c"];
    forall d | CommonPrefix(d, parts)
      ensures d <= ["a "]
    {
      assert d <= parts[0] && d <= parts[1];
      assert d == parts[0][..|d|] == parts[1][..|d|];
      assert ["a ", "b"][..2] != ["a ", "c"][..2] by {
        assert ["a ", "b"][..2][1] == "b" && ["a ", "c"][..2][1] == "c";
      }
    }
  }
}
