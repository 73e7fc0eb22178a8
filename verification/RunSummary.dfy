/**
 Combining the result files of several benchmark processes: all files must describe the same experiment, and the
 results of each variant are grouped, one from each file.
 */
module RunSummary {
  import opened Base
  import opened MetricSummary
  import opened Sorting

  /** The canonical text of search parameters: of an object, of an empty value such as null, or of something else. */
  datatype Params = Fields(text: string) | Empty(text: string) | Other(text: string)

  datatype Variant = Variant(backend: string, params: Params)

  /** A metric that is a number, is absent, or is something else. */
  datatype Cell = Absent | Number(value: real) | NotNumeric

  datatype Result = Result(variant: Variant, metrics: string -> Cell)

  /**
   * A result file: where it is, its format, the experiment it describes (data set and parameters only if they are
   * objects),
   * when it ran ("" if it does not say), its results.
   */
  datatype Document = Document(path: string, formatVersion: int, dataset: Option<string>, parameters: Option<string>,
                               timestamp: string, results: seq<Result>)

  type Groups = map<Variant, seq<Result>>

  const METRICS: seq<string> := [
    "build_seconds", "first_search_per_query_ms", "warm_p50_ms", "warm_p95_ms", "warm_p99_ms", "qps", "recall_at_k",
    "rss_delta_bytes", "gpu_used_delta_bytes"
  ]

  // ---------------------------------------------------------------- what is accepted

  function Variants(results: seq<Result>): set<Variant> { set k | 0 <= k < |results| :: results[k].variant }

  /** The variants of a file are named and all different. */
  predicate Named(results: seq<Result>) {
    && (forall k :: 0 <= k < |results| ==> results[k].variant.backend != "")
    && (forall j, k :: 0 <= j < k < |results| ==> results[j].variant != results[k].variant)
  }

  predicate Numeric(d: Document) {
    forall k, m :: 0 <= k < |d.results| && 0 <= m < |METRICS| ==> !d.results[k].metrics(METRICS[m]).NotNumeric?
  }

  /** What `load_result` and `dataset_signature` ask for. */
  predicate Loads(d: Document) {
    d.formatVersion == 2 && d.dataset.Some? && d.parameters.Some? && d.results != []
  }

  /** The variants can be put in order for the report. */
  predicate Sortable(d: Document) { forall k :: 0 <= k < |d.results| ==> !d.results[k].variant.params.Other? }

  /** A file that may take part. */
  predicate Proper(d: Document) {
    d.timestamp != "" && Loads(d) && Named(d.results) && Sortable(d) && Numeric(d)
  }

  predicate Comparable(a: Document, b: Document) {
    a.dataset == b.dataset && a.parameters == b.parameters && Variants(a.results) == Variants(b.results)
  }

  /** At least two files, proper and comparable, of different processes. */
  predicate Acceptable(docs: seq<Document>) {
    && |docs| >= 2
    && (forall i :: 0 <= i < |docs| ==> Proper(docs[i]) && Comparable(docs[0], docs[i]))
    && (forall i, j :: 0 <= i < j < |docs| ==> docs[i].path != docs[j].path && docs[i].timestamp != docs[j].timestamp)
  }

  // ---------------------------------------------------------------- groups

  /** The results of one variant in a file. */
  function OfVariant(results: seq<Result>, v: Variant): seq<Result> {
    if results == [] then []
    else OfVariant(results[..|results| - 1], v)
         + (var r := results[|results| - 1]; if r.variant == v then [r] else [])
  }

  /** The results of one variant in several files. */
  function GroupOf(docs: seq<Document>, v: Variant): seq<Result> {
    if docs == [] then [] else GroupOf(docs[..|docs| - 1], v) + OfVariant(docs[|docs| - 1].results, v)
  }

  function Lookup(groups: Groups, v: Variant): seq<Result> { if v in groups then groups[v] else [] }

  lemma OneMoreResult(results: seq<Result>, k: nat, v: Variant)
    requires k < |results|
    ensures OfVariant(results[..k + 1], v) == OfVariant(results[..k], v) + (if results[k].variant == v
            then [results[k]] else [])
  {
    assert results[..k + 1][..k] == results[..k];
  }

  lemma OneMoreDocument(docs: seq<Document>, k: nat, v: Variant)
    requires k < |docs|
    ensures GroupOf(docs[..k + 1], v) == GroupOf(docs[..k], v) + OfVariant(docs[k].results, v)
  {
    assert docs[..k + 1][..k] == docs[..k];
  }

  /** The groups with the results of one more file. */
  ghost predicate Added(groups: Groups, results: seq<Result>, after: Groups) {
    && after.Keys == groups.Keys + Variants(results)
    && forall v :: Lookup(after, v) == Lookup(groups, v) + OfVariant(results, v)
  }

  lemma AddOne(groups: Groups, results: seq<Result>, k: nat, after: Groups)
    requires k < |results| && Added(groups, results[..k], after)
    ensures var v := results[k].variant;
            Added(groups, results[..k + 1], after[v := Lookup(after, v) + [results[k]]])
  {
    hide OfVariant, Variants;
    var r := results[k];
    var after' := after[r.variant := Lookup(after, r.variant) + [r]];
    MoreVariants(results, k);
    forall v
      ensures Lookup(after', v) == Lookup(groups, v) + OfVariant(results[..k + 1], v)
    {
      OneMoreResult(results, k, v);
    }
  }

  lemma NamedGrows(results: seq<Result>, k: nat)
    requires k < |results|
    ensures Named(results[..k + 1])
            <==> && Named(results[..k]) && results[k].variant.backend != ""
                 && results[k].variant !in Variants(results[..k])
    ensures Named(results) ==> Named(results[..k + 1])
  {
    var shorter, longer := results[..k], results[..k + 1];
    assert forall j :: 0 <= j < k ==> longer[j] == shorter[j];
    assert longer[k] == results[k];
    if results[k].variant in Variants(shorter) {
      var j :| 0 <= j < k && shorter[j].variant == results[k].variant;
      assert longer[j].variant == longer[k].variant;
    } else {
      assert forall j :: 0 <= j < k ==> shorter[j].variant in Variants(shorter);
    }
  }

  /** Add the results of one file to the groups; refuse a repeated or nameless variant. */
  method AddResults(results: seq<Result>, groups: Groups) returns (ok: bool, after: Groups, variants: set<Variant>)
    ensures ok <==> Named(results)
    ensures ok ==> variants == Variants(results) && Added(groups, results, after)
  {
    hide Added, Named, Variants;
    after, variants := groups, {};
    var k := 0;
    Empty(results, groups);
    while k < |results|
      invariant k <= |results| && variants == Variants(results[..k])
      invariant Named(results[..k]) && Added(groups, results[..k], after)
    {
      var r := results[k];
      MoreVariants(results, k);
      NamedGrows(results, k);
      AddOne(groups, results, k, after);
      if r.variant.backend == "" || r.variant in variants {
        return false, after, variants;
      }
      after := after[r.variant := Lookup(after, r.variant) + [r]];
      variants := variants + {r.variant};
      k := k + 1;
    }
    assert results[..k] == results;
    ok := true;
  }

  lemma Empty(results: seq<Result>, groups: Groups)
    ensures Variants(results[..0]) == {} && Named(results[..0]) && Added(groups, results[..0], groups)
  {
  }

  lemma MoreVariants(results: seq<Result>, k: nat)
    requires k < |results|
    ensures Variants(results[..k + 1]) == Variants(results[..k]) + {results[k].variant}
  {
    assert forall j :: 0 <= j < k ==> results[..k + 1][j] == results[j];
    assert results[..k + 1][k].variant in Variants(results[..k + 1]);
    forall v | v in Variants(results[..k])
      ensures v in Variants(results[..k + 1])
    {
      var j :| 0 <= j < k && results[..k][j].variant == v;
      assert results[..k + 1][j].variant == v;
    }
  }

  function Stamps(docs: seq<Document>): set<string> { set k | 0 <= k < |docs| :: docs[k].timestamp }

  /** What has been checked of the first files. */
  ghost predicate Checked(docs: seq<Document>, i: nat)
    requires i <= |docs|
  {
    && (forall j :: 0 <= j < i ==> Named(docs[j].results) && docs[j].timestamp != "" && Comparable(docs[0], docs[j]))
    && (forall j, k :: 0 <= j < k < i ==> docs[j].timestamp != docs[k].timestamp)
  }

  lemma StampsGrow(docs: seq<Document>, i: nat)
    requires i < |docs|
    ensures Stamps(docs[..i + 1]) == Stamps(docs[..i]) + {docs[i].timestamp}
    ensures docs[i].timestamp in Stamps(docs[..i]) <==> exists j :: 0 <= j < i && docs[j].timestamp == docs[i].timestamp
  {
    var shorter, longer := docs[..i], docs[..i + 1];
    assert forall j :: 0 <= j < i ==> longer[j] == shorter[j] == docs[j];
    assert longer[i] == docs[i];
    forall t | t in Stamps(shorter)
      ensures t in Stamps(longer)
    {
      var j :| 0 <= j < i && shorter[j].timestamp == t;
      assert longer[j].timestamp == t;
    }
    assert longer[i].timestamp in Stamps(longer);
    assert forall j :: 0 <= j < i ==> shorter[j].timestamp in Stamps(shorter);
  }

  lemma CheckedGrows(docs: seq<Document>, i: nat)
    requires i < |docs| && Checked(docs, i)
    ensures Checked(docs, i + 1)
            <==> && Named(docs[i].results) && Comparable(docs[0], docs[i])
                 && docs[i].timestamp != "" && docs[i].timestamp !in Stamps(docs[..i])
    ensures Stamps(docs[..i + 1]) == Stamps(docs[..i]) + {docs[i].timestamp}
    ensures Acceptable(docs) ==> Checked(docs, i + 1)
  {
    hide Named, Comparable, Numeric, Sortable, Loads, Stamps;
    StampsGrow(docs, i);
  }

  /** The groups hold the results of the first files. */
  ghost predicate Grouped(groups: Groups, docs: seq<Document>) {
    && groups.Keys == (if docs == [] then {} else Variants(docs[0].results))
    && forall v :: Lookup(groups, v) == GroupOf(docs, v)
  }

  lemma GroupedGrows(groups: Groups, docs: seq<Document>, i: nat, after: Groups)
    requires i < |docs| && Grouped(groups, docs[..i]) && Added(groups, docs[i].results, after)
    requires Variants(docs[i].results) == Variants(docs[0].results)
    ensures Grouped(after, docs[..i + 1])
  {
    hide OfVariant, GroupOf, Variants;
    forall v
      ensures Lookup(after, v) == GroupOf(docs[..i + 1], v)
    {
      OneMoreDocument(docs, i, v);
    }
  }

  /** `summarize_files` up to the groups; `None` stands for the errors it raises. */
  method SummarizeFiles(docs: seq<Document>) returns (r: Option<Groups>)
    ensures r.Some? <==> Acceptable(docs)
    ensures r.Some? ==> r.value.Keys == Variants(docs[0].results) && forall v :: v in r.value ==>
            r.value[v] == GroupOf(docs, v)
  {
    hide Added, Grouped, Checked, Acceptable, Variants, Named, Numeric, Sortable, Loads, Stamps;
    r := None;
    AcceptableIs(docs);
    if !Different(docs) || !(forall i :: 0 <= i < |docs| ==> Loads(docs[i])) {
      return;
    }
    var groups: Groups := map[];
    var reference: set<Variant> := {};
    var timestamps: set<string> := {};
    var i := 0;
    NothingYet(docs);
    while i < |docs|
      invariant i <= |docs| && (i > 0 ==> reference == Variants(docs[0].results))
      invariant Checked(docs, i) && timestamps == Stamps(docs[..i]) && Grouped(groups, docs[..i])
    {
      var d := docs[i];
      CheckedGrows(docs, i);
      if d.dataset != docs[0].dataset || d.parameters != docs[0].parameters {
        return;
      }
      var ok, after, variants := AddResults(d.results, groups);
      if !ok {
        return;
      }
      if i == 0 {
        reference := variants;
      } else if variants != reference {
        return;
      }
      if d.timestamp == "" || d.timestamp in timestamps {
        return;
      }
      GroupedGrows(groups, docs, i, after);
      timestamps := timestamps + {d.timestamp};
      groups := after;
      i := i + 1;
    }
    if !(forall i :: 0 <= i < |docs| ==> Sortable(docs[i]) && Numeric(docs[i])) {
      return;
    }
    assert docs[..i] == docs;
    GroupsOfAll(groups, docs);
    r := Some(groups);
  }

  /** The first two tests: at least two files, none of them repeated. */
  predicate Different(docs: seq<Document>) {
    |docs| >= 2 && forall i, j :: 0 <= i < j < |docs| ==> docs[i].path != docs[j].path
  }

  lemma AcceptableIs(docs: seq<Document>)
    ensures Acceptable(docs)
            <==> && Different(docs) && Checked(docs, |docs|)
                 && (forall i :: 0 <= i < |docs| ==> Loads(docs[i]))
                 && (forall i :: 0 <= i < |docs| ==> Sortable(docs[i]) && Numeric(docs[i]))
  {
    hide Named, Numeric, Sortable, Loads, Comparable;
  }

  lemma NothingYet(docs: seq<Document>)
    ensures Checked(docs, 0) && Stamps(docs[..0]) == {} && Grouped(map[], docs[..0])
  {
  }

  lemma GroupsOfAll(groups: Groups, docs: seq<Document>)
    requires docs != [] && Grouped(groups, docs)
    ensures groups.Keys == Variants(docs[0].results) && forall v :: v in groups ==> groups[v] == GroupOf(docs, v)
  {
    hide GroupOf, Variants;
    assert forall v :: v in groups ==> Lookup(groups, v) == groups[v];
  }

  // ---------------------------------------------------------------- one result per file

  lemma {:induction false} OneOfVariant(results: seq<Result>, v: Variant)
    requires Named(results)
    ensures |OfVariant(results, v)| == (if v in Variants(results) then 1 else 0)
    ensures forall k :: 0 <= k < |OfVariant(results, v)| ==>
              OfVariant(results, v)[k] in results && OfVariant(results, v)[k].variant == v
  {
    if results != [] {
      var n := |results| - 1;
      OneOfVariant(results[..n], v);
      MoreVariants(results, n);
      assert results[..n + 1] == results;
      assert forall j :: 0 <= j < n ==> results[..n][j] == results[j];
    }
  }

  /** In an accepted set of files, the group of every variant has exactly one result from each file, in file order. */
  lemma {:induction false} OnePerFile(docs: seq<Document>, v: Variant, all: set<Variant>)
    requires forall i :: 0 <= i < |docs| ==> Named(docs[i].results) && Variants(docs[i].results) == all
    requires v in all
    ensures |GroupOf(docs, v)| == |docs|
    ensures forall i :: 0 <= i < |docs| ==> GroupOf(docs, v)[i] in docs[i].results && GroupOf(docs, v)[i].variant == v
  {
    hide Named, OfVariant, Variants;
    if docs != [] {
      var n := |docs| - 1;
      OnePerFile(docs[..n], v, all);
      OneOfVariant(docs[n].results, v);
      GroupSplit(docs, v);
      hide GroupOf;
    }
  }

  // ---------------------------------------------------------------- the order of the files

  lemma GroupSplit(docs: seq<Document>, v: Variant)
    requires docs != []
    ensures var n := |docs| - 1; GroupOf(docs, v) == GroupOf(docs[..n], v) + OfVariant(docs[n].results, v)
  {
  }

  lemma {:induction false} GroupTakeOut(docs: seq<Document>, k: nat, v: Variant)
    requires k < |docs|
    ensures multiset(GroupOf(docs, v)) == multiset(GroupOf(docs[..k] + docs[k + 1..], v))
            + multiset(OfVariant(docs[k].results, v))
  {
    hide OfVariant, GroupOf;
    var n := |docs| - 1;
    var rest := docs[..k] + docs[k + 1..];
    GroupSplit(docs, v);
    if k == n {
      assert rest == docs[..n];
    } else {
      var front := docs[..n];
      var shorter := front[..k] + front[k + 1..];
      assert rest == shorter + [docs[n]];
      GroupSplit(rest, v);
      assert rest[..|rest| - 1] == shorter;
      GroupTakeOut(front, k, v);
      Regroup(GroupOf(front, v), GroupOf(shorter, v), OfVariant(docs[k].results, v), OfVariant(docs[n].results, v));
    }
  }

  lemma Regroup<T>(g: seq<T>, h: seq<T>, x: seq<T>, l: seq<T>)
    requires multiset(g) == multiset(h) + multiset(x)
    ensures multiset(g + l) == multiset(h + l) + multiset(x)
  {
  }

  lemma {:induction false} GroupIgnoresOrder(a: seq<Document>, b: seq<Document>, v: Variant)
    requires multiset(a) == multiset(b)
    ensures multiset(GroupOf(a, v)) == multiset(GroupOf(b, v))
  {
    SameLength(a, b);
    if a != [] {
      hide GroupOf, OfVariant;
      var n := |a| - 1;
      SplitLast(a);
      assert a[n] in multiset(b);
      var k :| 0 <= k < |b| && b[k] == a[n];
      var rest := b[..k] + b[k + 1..];
      TakeOut(b, k);
      Cancel(multiset(a[..n]), multiset(rest), a[n]);
      GroupIgnoresOrder(a[..n], rest, v);
      GroupTakeOut(b, k, v);
      GroupTakeOut(a, n, v);
      assert a[..n] + a[n + 1..] == a[..n];
    }
  }

  function ValueOf(c: Cell): Option<real> { if c.Number? then Some(c.value) else None }

  function Values(group: seq<Result>, metric: string): seq<Option<real>> {
    seq(|group|, i requires 0 <= i < |group| => ValueOf(group[i].metrics(metric)))
  }

  lemma ValuesTakeOut(group: seq<Result>, k: nat, metric: string)
    requires k < |group|
    ensures multiset(Values(group, metric))
            == multiset(Values(group[..k] + group[k + 1..], metric)) + multiset{ValueOf(group[k].metrics(metric))}
  {
    hide ValueOf;
    var d := Values(group, metric);
    TakeOut(d, k);
    assert d[..k] + d[k + 1..] == Values(group[..k] + group[k + 1..], metric);
  }

  lemma {:induction false} ValuesIgnoreOrder(a: seq<Result>, b: seq<Result>, metric: string)
    requires multiset(a) == multiset(b)
    ensures multiset(Values(a, metric)) == multiset(Values(b, metric))
  {
    SameLength(a, b);
    if a != [] {
      hide Values, ValueOf;
      var n := |a| - 1;
      SplitLast(a);
      assert a[n] in multiset(b);
      var k :| 0 <= k < |b| && b[k] == a[n];
      var rest := b[..k] + b[k + 1..];
      TakeOut(b, k);
      Cancel(multiset(a[..n]), multiset(rest), a[n]);
      ValuesIgnoreOrder(a[..n], rest, metric);
      ValuesTakeOut(b, k, metric);
      ValuesTakeOut(a, n, metric);
      assert a[..n] + a[n + 1..] == a[..n];
    }
  }

  /** The summary of one metric of one variant. */
  function MetricOf(docs: seq<Document>, v: Variant, metric: string): Summary {
    Summarize(Values(GroupOf(docs, v), metric))
  }

  lemma {:induction false} AtMostOnce<T>(s: seq<T>, x: T)
    requires forall i, j :: 0 <= i < j < |s| ==> s[i] != s[j]
    ensures multiset(s)[x] <= 1
  {
    if s != [] {
      SplitLast(s);
      AtMostOnce(s[..|s| - 1], x);
    }
  }

  lemma Twice<T>(s: seq<T>, i: nat, j: nat)
    requires i < j < |s| && s[i] == s[j]
    ensures multiset(s)[s[i]] >= 2
  {
    var t := s[..j] + s[j + 1..];
    TakeOut(s, j);
    assert t[i] == s[i];
    assert s[i] in multiset(t);
  }

  lemma AcceptableIgnoresOrder(a: seq<Document>, b: seq<Document>)
    requires multiset(a) == multiset(b) && Acceptable(a)
    ensures Acceptable(b)
  {
    hide Proper, Comparable;
    SameLength(a, b);
    forall i | 0 <= i < |b|
      ensures Proper(b[i]) && Comparable(b[0], b[i])
    {
      assert b[i] in multiset(a) && b[0] in multiset(a);
      var j, j0 :| 0 <= j < |a| && a[j] == b[i] && 0 <= j0 < |a| && a[j0] == b[0];
      Transitive(a[0], b[0], b[i]);
    }
    forall i, j | 0 <= i < j < |b|
      ensures b[i].path != b[j].path && b[i].timestamp != b[j].timestamp
    {
      assert b[i] in multiset(a) && b[j] in multiset(a);
      var k, l :| 0 <= k < |a| && a[k] == b[i] && 0 <= l < |a| && a[l] == b[j];
      if b[i] == b[j] {
        Twice(b, i, j);
        AtMostOnce(a, b[i]);
      }
      assert k != l;
      assert k < l || l < k;
    }
  }

  lemma Transitive(a: Document, b: Document, c: Document)
    requires Comparable(a, b) && Comparable(a, c)
    ensures Comparable(b, c)
  {
  }

  /** Neither acceptance nor the metrics of a variant depend on the order of the files. */
  lemma OrderOfFilesIsIrrelevant(a: seq<Document>, b: seq<Document>, v: Variant, metric: string)
    requires multiset(a) == multiset(b)
    ensures Acceptable(a) <==> Acceptable(b)
    ensures MetricOf(a, v, metric) == MetricOf(b, v, metric)
  {
    hide Acceptable, GroupOf, Values, Summarize;
    if Acceptable(a) {
      AcceptableIgnoresOrder(a, b);
    } else if Acceptable(b) {
      AcceptableIgnoresOrder(b, a);
    }
    GroupIgnoresOrder(a, b, v);
    ValuesIgnoreOrder(GroupOf(a, v), GroupOf(b, v), metric);
    SummaryIgnoresOrder(Values(GroupOf(a, v), metric), Values(GroupOf(b, v), metric));
  }

  /** What is accepted has the format, metadata, results and a time, and each result a name and numbers. */
  lemma AcceptedFiles(docs: seq<Document>, i: nat, k: nat, m: nat)
    requires i < |docs|
    ensures Acceptable(docs) ==>
              && docs[i].formatVersion == 2 && docs[i].dataset.Some? && docs[i].parameters.Some?
              && docs[i].results != [] && docs[i].timestamp != ""
    ensures Acceptable(docs) && k < |docs[i].results| ==>
              docs[i].results[k].variant.backend != "" && !docs[i].results[k].variant.params.Other?
    ensures Acceptable(docs) && k < |docs[i].results| && m < |METRICS| ==>
              !docs[i].results[k].metrics(METRICS[m]).NotNumeric?
  {
  }

  /** Two proper files of one result each are accepted if they agree and their processes differ. */
  lemma TwoFilesAccepted(a: Document, b: Document, r: Result, q: Result)
    requires a.results == [r] && b.results == [q] && r.variant == q.variant && r.variant.backend != ""
    requires !r.variant.params.Other?
    requires (forall m :: r.metrics(m) == Absent) && (forall m :: q.metrics(m) == Number(1.0))
    requires a.formatVersion == b.formatVersion == 2 && a.dataset == b.dataset == Some("d")
    requires a.parameters == b.parameters == Some("p") && a.path != b.path
    requires a.timestamp != "" && b.timestamp != "" && a.timestamp != b.timestamp
    ensures Acceptable([a, b])
  {
    assert Variants([r]) == {r.variant} by { assert [r][0] == r; }
    assert Variants([q]) == {r.variant} by { assert [q][0] == q; }
  }
}
