/**
 The grouped summaries of a load test: one row per adapter, scenario and operation, one row over all scenarios,
 and one row per time window. Rows are kept by their keys; counts are conserved by every grouping.
 */
module Aggregation {
  import opened Base

  datatype Event = Event(adapter: string, scenario: string, operation: string, elapsedMs: real, success: bool,
                         status: Option<string>, exception: Option<string>)

  datatype Row = Row(requests: nat, successes: nat, failures: nat, statuses: map<string, nat>)

  datatype Key = Key(adapter: string, scenario: string, operation: string)
  datatype OverallKey = OverallKey(adapter: string, operation: string)
  datatype WindowKey = WindowKey(window: int, key: Key)

  function KeyOf(e: Event): Key { Key(e.adapter, e.scenario, e.operation) }

  function OverallOf(e: Event): OverallKey { OverallKey(e.adapter, e.operation) }

  /** The window of an event: whole windows since the start of the run. */
  function WindowOf(e: Event, seconds: real): int
    requires seconds > 0.0
  {
    (e.elapsedMs / 1000.0 / seconds).Floor
  }

  function WindowKeyOf(seconds: real): Event -> WindowKey
    requires seconds > 0.0
  {
    (e: Event) => WindowKey(WindowOf(e, seconds), KeyOf(e))
  }

  /** The status code if there is one, else the exception (an empty name counts as none), else "ok". */
  function StatusOf(e: Event): string {
    if e.status.Some? then e.status.value
    else if e.exception.Some? && e.exception.value != "" then e.exception.value
    else "ok"
  }

  // ---------------------------------------------------------------- counting

  /** The events with a given key, in their order. */
  function Filter<K(==)>(events: seq<Event>, key: Event -> K, k: K): seq<Event> {
    if events == [] then []
    else
      var rest, e := Filter(events[..|events| - 1], key, k), events[|events| - 1];
      if key(e) == k then rest + [e] else rest
  }

  /** How many events have a property. */
  function Count(events: seq<Event>, p: Event -> bool): nat {
    if events == [] then 0 else Count(events[..|events| - 1], p) + (if p(events[|events| - 1]) then 1 else 0)
  }

  const EVERY: Event -> bool := (e: Event) => true
  const SUCCESS: Event -> bool := (e: Event) => e.success
  const FAILURE: Event -> bool := (e: Event) => !e.success

  function Restrict<K(==)>(events: seq<Event>, key: Event -> K, keys: set<K>): seq<Event> {
    if events == [] then []
    else
      var rest, e := Restrict(events[..|events| - 1], key, keys), events[|events| - 1];
      if key(e) in keys then rest + [e] else rest
  }

  ghost function SumOver<K>(keys: set<K>, f: K -> nat): nat {
    if keys == {} then 0 else var k :| k in keys; f(k) + SumOver(keys - {k}, f)
  }

  lemma CountOfAppend(events: seq<Event>, e: Event, p: Event -> bool)
    ensures Count(events + [e], p) == Count(events, p) + (if p(e) then 1 else 0)
  {
    assert (events + [e])[..|events|] == events;
  }

  lemma {:induction false} CountEvery(events: seq<Event>)
    ensures Count(events, EVERY) == |events|
    ensures Count(events, SUCCESS) + Count(events, FAILURE) == |events|
  {
    if events != [] {
      CountEvery(events[..|events| - 1]);
    }
  }

  /** Taking one key out of a set of keys takes its group out. */
  lemma {:induction false} RestrictSplits<K>(events: seq<Event>, key: Event -> K, keys: set<K>, k: K, p: Event -> bool)
    requires k in keys
    ensures Count(Restrict(events, key, keys), p)
            == Count(Filter(events, key, k), p) + Count(Restrict(events, key, keys - {k}), p)
  {
    if events != [] {
      var front, e := events[..|events| - 1], events[|events| - 1];
      RestrictSplits(front, key, keys, k, p);
      CountOfAppend(Restrict(front, key, keys), e, p);
      CountOfAppend(Restrict(front, key, keys - {k}), e, p);
      CountOfAppend(Filter(front, key, k), e, p);
    }
  }

  lemma {:induction false} SumIsRestricted<K>(events: seq<Event>, key: Event -> K, keys: set<K>, p: Event -> bool,
                                              f: K -> nat)
    requires forall k :: k in keys ==> f(k) == Count(Filter(events, key, k), p)
    ensures SumOver(keys, f) == Count(Restrict(events, key, keys), p)
    decreases |keys|
  {
    if keys == {} {
      RestrictToNone(events, key, keys);
    } else {
      hide Filter, Restrict, Count;
      var k := SumPicks(keys, f);
      SumIsRestricted(events, key, keys - {k}, p, f);
      RestrictSplits(events, key, keys, k, p);
    }
  }

  lemma SumPicks<K>(keys: set<K>, f: K -> nat) returns (k: K)
    requires keys != {}
    ensures k in keys && SumOver(keys, f) == f(k) + SumOver(keys - {k}, f)
  {
    k :| k in keys && SumOver(keys, f) == f(k) + SumOver(keys - {k}, f);
  }

  lemma {:induction false} RestrictToNone<K>(events: seq<Event>, key: Event -> K, keys: set<K>)
    requires keys == {}
    ensures Restrict(events, key, keys) == []
  {
    if events != [] {
      RestrictToNone(events[..|events| - 1], key, keys);
    }
  }

  lemma {:induction false} RestrictToAll<K>(events: seq<Event>, key: Event -> K, keys: set<K>)
    requires forall e :: e in events ==> key(e) in keys
    ensures Restrict(events, key, keys) == events
  {
    if events != [] {
      RestrictToAll(events[..|events| - 1], key, keys);
      assert events == events[..|events| - 1] + [events[|events| - 1]];
    }
  }

  /**
   * Conservation: over any set of keys that covers the events, the groups together have as many events of any
   * kind as there are.
   */
  lemma GroupsConserve<K>(events: seq<Event>, key: Event -> K, keys: set<K>, p: Event -> bool, f: K -> nat)
    requires forall e :: e in events ==> key(e) in keys
    requires forall k :: k in keys ==> f(k) == Count(Filter(events, key, k), p)
    ensures SumOver(keys, f) == Count(events, p)
  {
    RestrictToAll(events, key, keys);
    SumIsRestricted(events, key, keys, p, f);
  }

  // ---------------------------------------------------------------- grouping

  function Lookup<K(==)>(groups: map<K, seq<Event>>, k: K): seq<Event> { if k in groups then groups[k] else [] }

  lemma OneMore<K>(events: seq<Event>, i: nat, key: Event -> K, k: K)
    requires i < |events|
    ensures Filter(events[..i + 1], key, k) == Filter(events[..i], key, k) + (if key(events[i]) == k
            then [events[i]] else [])
  {
    assert events[..i + 1][..i] == events[..i];
  }

  /** Fill the groups event by event. */
  method GroupEvents<K(==)>(events: seq<Event>, key: Event -> K) returns (groups: map<K, seq<Event>>)
    ensures forall k :: k in groups ==> groups[k] == Filter(events, key, k) && groups[k] != []
    ensures forall i :: 0 <= i < |events| ==> key(events[i]) in groups
  {
    hide Filter;
    groups := map[];
    var i := 0;
    NoEvents(events, key);
    while i < |events|
      invariant i <= |events|
      invariant forall k :: Lookup(groups, k) == Filter(events[..i], key, k)
      invariant forall k :: k in groups ==> groups[k] != []
      invariant forall j :: 0 <= j < i ==> key(events[j]) in groups
    {
      var e := events[i];
      var more := groups[key(e) := Lookup(groups, key(e)) + [e]];
      forall k
        ensures Lookup(more, k) == Filter(events[..i + 1], key, k)
      {
        OneMore(events, i, key, k);
      }
      groups := more;
      i := i + 1;
    }
    assert events[..i] == events;
    assert forall k :: k in groups ==> Lookup(groups, k) == groups[k];
  }

  lemma NoEvents<K>(events: seq<Event>, key: Event -> K)
    ensures forall k :: Filter(events[..0], key, k) == []
  {
  }

  // ---------------------------------------------------------------- rows

  function StatusCount(events: seq<Event>, status: string): nat { |Filter(events, StatusOf, status)| }

  /** The row of a group of events. */
  ghost predicate IsRow(events: seq<Event>, r: Row) {
    && r.requests == |events|
    && r.successes == Count(events, SUCCESS) && r.failures == Count(events, FAILURE)
    && (forall s :: s in r.statuses ==> r.statuses[s] == StatusCount(events, s))
    && (forall i :: 0 <= i < |events| ==> StatusOf(events[i]) in r.statuses)
  }

  method BuildSummaryRow(events: seq<Event>) returns (r: Row)
    ensures IsRow(events, r)
  {
    hide Count, Filter;
    var successes: nat, statuses: map<string, nat> := 0, map[];
    var i := 0;
    NoCount(events);
    NoEvents(events, StatusOf);
    while i < |events|
      invariant i <= |events| && successes == Count(events[..i], SUCCESS)
      invariant forall s :: (if s in statuses then statuses[s] else 0) == StatusCount(events[..i], s)
      invariant forall j :: 0 <= j < i ==> StatusOf(events[j]) in statuses
    {
      var e := events[i];
      assert events[..i + 1] == events[..i] + [e];
      CountOfAppend(events[..i], e, SUCCESS);
      if e.success {
        successes := successes + 1;
      }
      var key := StatusOf(e);
      forall s
        ensures StatusCount(events[..i + 1], s) == StatusCount(events[..i], s) + (if s == key then 1 else 0)
      {
        OneMore(events, i, StatusOf, s);
      }
      statuses := statuses[key := (if key in statuses then statuses[key] else 0) + 1];
      i := i + 1;
    }
    assert events[..i] == events;
    CountEvery(events);
    r := Row(|events|, successes, |events| - successes, statuses);
  }

  lemma NoCount(events: seq<Event>)
    ensures Count(events[..0], SUCCESS) == 0
  {
  }

  /** The histogram of a row and its successes and failures both total its requests. */
  lemma RowTotals(events: seq<Event>, r: Row)
    requires IsRow(events, r)
    ensures r.successes + r.failures == r.requests
    ensures SumOver(r.statuses.Keys, (s: string) => if s in r.statuses then r.statuses[s] else 0) == r.requests
  {
    hide Count, Filter;
    CountEvery(events);
    var f: string -> nat := (s: string) => if s in r.statuses then r.statuses[s] else 0;
    forall s | s in r.statuses.Keys
      ensures f(s) == Count(Filter(events, StatusOf, s), EVERY)
    {
      CountEvery(Filter(events, StatusOf, s));
    }
    GroupsConserve(events, StatusOf, r.statuses.Keys, EVERY, f);
  }

  /** One row for every key that occurs, and no other. */
  ghost predicate AreRows<K>(events: seq<Event>, key: Event -> K, rows: map<K, Row>) {
    && (forall i :: 0 <= i < |events| ==> key(events[i]) in rows)
    && (forall k :: k in rows ==> rows[k].requests > 0 && IsRow(Filter(events, key, k), rows[k]))
  }

  /** Group, then build a row for each group. */
  method BuildRows<K(==)>(events: seq<Event>, key: Event -> K) returns (rows: map<K, Row>)
    ensures AreRows(events, key, rows)
  {
    hide Filter, IsRow;
    var groups := GroupEvents(events, key);
    rows := map[];
    var todo := groups.Keys;
    while todo != {}
      invariant todo <= groups.Keys && rows.Keys == groups.Keys - todo
      invariant forall k :: k in rows ==> rows[k].requests > 0 && IsRow(groups[k], rows[k])
      decreases |todo|
    {
      var k :| k in todo;
      var r := BuildSummaryRow(groups[k]);
      RowCounts(groups[k], r);
      rows, todo := rows[k := r], todo - {k};
    }
  }

  lemma RowCounts(events: seq<Event>, r: Row)
    requires IsRow(events, r)
    ensures r.requests == |events|
  {
  }

  /** The rows of a run: per scenario, over all scenarios, and per window. */
  method BuildRequestRows(events: seq<Event>, seconds: real)
    returns (summary: map<Key, Row>, overall: map<OverallKey, Row>, windows: map<WindowKey, Row>)
    requires seconds > 0.0
    ensures AreRows(events, KeyOf, summary) && AreRows(events, OverallOf, overall)
    ensures AreRows(events, WindowKeyOf(seconds), windows)
  {
    summary := BuildRows(events, KeyOf);
    overall := BuildRows(events, OverallOf);
    windows := BuildRows(events, WindowKeyOf(seconds));
  }

  datatype Field = Requests | Successes | Failures

  function Value(r: Row, field: Field): nat {
    match field
    case Requests => r.requests
    case Successes => r.successes
    case Failures => r.failures
  }

  function Kind(field: Field): Event -> bool {
    match field
    case Requests => EVERY
    case Successes => SUCCESS
    case Failures => FAILURE
  }

  function FieldOf<K(==)>(rows: map<K, Row>, field: Field): K -> nat {
    (k: K) => if k in rows then Value(rows[k], field) else 0
  }

  lemma ValueIsCount(events: seq<Event>, r: Row, field: Field)
    requires IsRow(events, r)
    ensures Value(r, field) == Count(events, Kind(field))
  {
    CountEvery(events);
  }

  lemma FieldIsCount<K>(events: seq<Event>, key: Event -> K, rows: map<K, Row>, field: Field, k: K)
    requires AreRows(events, key, rows) && k in rows
    ensures FieldOf(rows, field)(k) == Count(Filter(events, key, k), Kind(field))
  {
    hide IsRow, Filter, Count, Value, Kind;
    ValueIsCount(Filter(events, key, k), rows[k], field);
  }

  /** Every grouping counts every event, every success and every failure exactly once. */
  lemma RowsConserve<K>(events: seq<Event>, key: Event -> K, rows: map<K, Row>, field: Field)
    requires AreRows(events, key, rows)
    ensures SumOver(rows.Keys, FieldOf(rows, field)) == Count(events, Kind(field))
    ensures field == Requests ==> SumOver(rows.Keys, FieldOf(rows, field)) == |events|
  {
    hide IsRow, Filter, Count, FieldOf;
    forall k | k in rows.Keys
      ensures FieldOf(rows, field)(k) == Count(Filter(events, key, k), Kind(field))
    {
      FieldIsCount(events, key, rows, field, k);
    }
    GroupsConserve(events, key, rows.Keys, Kind(field), FieldOf(rows, field));
    CountEvery(events);
  }

  // ---------------------------------------------------------------- finer and coarser rows

  /** The fine key of an event determines its coarse key. */
  ghost predicate Refines<F(!new), G>(fine: Event -> F, coarse: Event -> G, project: F -> G) {
    forall e :: project(fine(e)) == coarse(e)
  }

  lemma {:induction false} RestrictIsFilter<F(!new), G>(events: seq<Event>, fine: Event -> F, coarse: Event -> G,
                                                        project: F -> G,
                                                 keys: set<F>, c: G)
    requires Refines(fine, coarse, project)
    requires forall i :: 0 <= i < |events| ==> (fine(events[i]) in keys <==> coarse(events[i]) == c)
    ensures Restrict(events, fine, keys) == Filter(events, coarse, c)
  {
    if events != [] {
      RestrictIsFilter(events[..|events| - 1], fine, coarse, project, keys, c);
    }
  }

  /** The keys of fine rows below a coarse key. */
  function Below<F, G(==)>(rows: map<F, Row>, project: F -> G, c: G): set<F> { set k | k in rows && project(k) == c }

  function KeyOfWindow(w: WindowKey): Key { w.key }

  function OverallOfKey(k: Key): OverallKey { OverallKey(k.adapter, k.operation) }

  /** The fine rows below a coarse row add up to it, in requests, successes and failures. */
  lemma FineRowsAddUp<F(!new), G>(events: seq<Event>, fine: Event -> F, coarse: Event -> G, project: F -> G,
                           fineRows: map<F, Row>, coarseRows: map<G, Row>, c: G, field: Field)
    requires Refines(fine, coarse, project)
    requires AreRows(events, fine, fineRows) && AreRows(events, coarse, coarseRows) && c in coarseRows
    ensures SumOver(Below(fineRows, project, c), FieldOf(fineRows, field)) == Value(coarseRows[c], field)
  {
    hide IsRow, Filter, Count, FieldOf, Kind, Value, Restrict;
    var keys := Below(fineRows, project, c);
    forall k | k in keys
      ensures FieldOf(fineRows, field)(k) == Count(Filter(events, fine, k), Kind(field))
    {
      FieldIsCount(events, fine, fineRows, field, k);
    }
    SumIsRestricted(events, fine, keys, Kind(field), FieldOf(fineRows, field));
    RestrictIsFilter(events, fine, coarse, project, keys, c);
    ValueIsCount(Filter(events, coarse, c), coarseRows[c], field);
  }

  /** Window rows add up to the summary row of their adapter, scenario and operation. */
  lemma WindowsAddUp(events: seq<Event>, seconds: real, windows: map<WindowKey, Row>, summary: map<Key, Row>, k: Key,
                     field: Field)
    requires seconds > 0.0 && AreRows(events, WindowKeyOf(seconds), windows) && AreRows(events, KeyOf, summary)
             && k in summary
    ensures SumOver(Below(windows, KeyOfWindow, k), FieldOf(windows, field)) == Value(summary[k], field)
  {
    hide AreRows, FieldOf, Value, SumOver, Below;
    FineRowsAddUp(events, WindowKeyOf(seconds), KeyOf, KeyOfWindow, windows, summary, k, field);
  }

  /** The rows of all scenarios add up to the row over all scenarios. */
  lemma ScenariosAddUp(events: seq<Event>, summary: map<Key, Row>, overall: map<OverallKey, Row>, k: OverallKey,
                       field: Field)
    requires AreRows(events, KeyOf, summary) && AreRows(events, OverallOf, overall) && k in overall
    ensures SumOver(Below(summary, OverallOfKey, k), FieldOf(summary, field)) == Value(overall[k], field)
  {
    hide AreRows, FieldOf, Value, SumOver, Below;
    FineRowsAddUp(events, KeyOf, OverallOf, OverallOfKey, summary, overall, k, field);
  }

  /** Every event starts inside its window. */
  lemma StartsInWindow(e: Event, seconds: real)
    requires seconds > 0.0
    ensures var w := WindowOf(e, seconds);
            w as real * seconds <= e.elapsedMs / 1000.0 < (w as real + 1.0) * seconds
  {
    FloorWindow(e.elapsedMs / 1000.0, seconds);
  }

  lemma FloorWindow(t: real, seconds: real)
    requires seconds > 0.0
    ensures var w := (t / seconds).Floor; w as real * seconds <= t < (w as real + 1.0) * seconds
  {
    var q := t / seconds;
    var w := q.Floor;
    assert q * seconds == t;
    var next := w as real + 1.0;
    assert w as real <= q < next;
    Scale(w as real, q, seconds);
    Scale(q, next, seconds);
    assert t < next * seconds;
  }

  lemma Scale(a: real, b: real, c: real)
    requires c > 0.0
    ensures (a <= b ==> a * c <= b * c) && (a < b ==> a * c < b * c)
  {
  }

  // ---------------------------------------------------------------- keys by their fields

  /** A status code comes first, then the name of an exception, then "ok". */
  lemma StatusIs(e: Event, code: string, name: string)
    ensures StatusOf(e.(status := Some(code))) == code
    ensures name != "" ==> StatusOf(e.(status := None, exception := Some(name))) == name
    ensures StatusOf(e.(status := None, exception := None)) == "ok"
    ensures StatusOf(e.(status := None, exception := Some(""))) == "ok"
  {
  }

  lemma {:induction false} FilterCounts<K>(events: seq<Event>, key: Event -> K, k: K, p: Event -> bool)
    requires forall e :: key(e) == k <==> p(e)
    ensures |Filter(events, key, k)| == Count(events, p)
  {
    if events != [] {
      FilterCounts(events[..|events| - 1], key, k, p);
    }
  }

  /**
   * The row of an adapter, scenario and operation counts the events with these three fields; the row over all
   * scenarios those with adapter and operation; and a window row those of them that start in the window.
   */
  lemma RowsByFields(events: seq<Event>, seconds: real, summary: map<Key, Row>, overall: map<OverallKey, Row>,
                     windows: map<WindowKey, Row>, adapter: string, scenario: string, operation: string, w: int)
    requires seconds > 0.0 && AreRows(events, KeyOf, summary) && AreRows(events, OverallOf, overall)
    requires AreRows(events, WindowKeyOf(seconds), windows)
    ensures var k := Key(adapter, scenario, operation);
            k in summary ==>
              summary[k].requests
              == Count(events, (e: Event) => e.adapter == adapter && e.scenario == scenario && e.operation == operation)
    ensures var k := OverallKey(adapter, operation);
            k in overall ==>
              overall[k].requests == Count(events, (e: Event) => e.adapter == adapter && e.operation == operation)
    ensures var k := WindowKey(w, Key(adapter, scenario, operation));
            k in windows ==>
              windows[k].requests
              == Count(events, (e: Event) => e.adapter == adapter && e.scenario == scenario && e.operation == operation
                                             && WindowOf(e, seconds) == w)
  {
    hide Filter, Count, WindowOf;
    FilterCounts(events, KeyOf, Key(adapter, scenario, operation),
                 (e: Event) => e.adapter == adapter && e.scenario == scenario && e.operation == operation);
    FilterCounts(events, OverallOf, OverallKey(adapter, operation),
                 (e: Event) => e.adapter == adapter && e.operation == operation);
    FilterCounts(events, WindowKeyOf(seconds), WindowKey(w, Key(adapter, scenario, operation)),
                 (e: Event) => e.adapter == adapter && e.scenario == scenario && e.operation == operation
                               && WindowOf(e, seconds) == w);
  }
}
