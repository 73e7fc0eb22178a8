/**
 What one uninterrupted run of the publisher does from any store, that staging leaves `current.json` alone,
 and that a stage run can be repeated after any interruption.
 */
module CatalogRerun {
  import opened Base
  import opened CatalogBuild
  import opened CatalogPublication

  // ---------------------------------------------------------------- current.json

  /** What `current.json` holds, if it is there. */
  function Current(store: Store): Option<string> {
    if CurrentUri() in store then Some(store[CurrentUri()]) else None
  }

  /** A request that is not the swap leaves `current.json` alone. */
  lemma OnlySwapChangesCurrent(codec: Codec, b: Build, store: Store, next: Next)
    ensures Current(store) != Current(Request(codec, b, store, next).store) ==> next.Swap?
  {
    hide FileUri, CurrentUri;
    RequestExtends(codec, b, store, next);
    forall i: nat | i < 4
      ensures Uri(b, i) != CurrentUri()
    {
      ReleaseIsNotCurrent(b.version, FILES[i]);
    }
    ReleaseIsNotCurrent(b.version, "acceptance/" + codec.digest(b.acceptanceText) + ".json");
  }

  /**
   * In every execution `current.json` changes only in the step of an activation whose whole release and acceptance
   * are stored; a stage run never changes it.
   */
  lemma CurrentChangesByActivation(codec: Codec, ex: Executor, trace: seq<System>, i: nat)
    requires Execution(codec, ex, trace) && i + 1 < |trace|
    requires Current(trace[i].store) != Current(trace[i + 1].store)
    ensures exists k: nat :: k < |trace[i].runs| && Progresses(codec, trace[i], trace[i + 1], k)
                             && trace[i].runs[k].next == Swap && trace[i].runs[k].build.activate
                             && Published(codec, trace[i].runs[k].build, trace[i].store)
  {
    hide Request, Admitted, Published, CurrentUri;
    assert Step(codec, ex, trace[i], trace[i + 1]);
    InvariantHolds(codec, ex, trace, i);
    var s, s' := trace[i], trace[i + 1];
    if k: nat :| Progresses(codec, s, s', k) {
      var r := s.runs[k];
      OnlySwapChangesCurrent(codec, r.build, trace[i].store, r.next);
      assert Knows(codec, r.build, trace[i].store, r.next);
    }
  }

  // ---------------------------------------------------------------- one run from start to end

  /** How many requests a run can still make. */
  function Rank(next: Next): nat {
    match next
    case Check(i, missing) => 20 + |missing| + (if i < 4 then 2 * (4 - i) else 0)
    case Write(missing) => 15 + |missing|
    case ReadBack(i) => 6 + (if i < 4 then 4 - i else 0)
    case AcceptCheck => 5
    case AcceptWrite => 4
    case AcceptReadBack => 3
    case Swap => 2
    case Confirm => 1
    case Done => 0
    case Stopped => 0
  }

  /** Every request brings a run closer to its end: an uninterrupted run makes at most 28 of them. */
  lemma RequestAdvances(codec: Codec, b: Build, store: Store, next: Next)
    requires !next.Done? && !next.Stopped?
    ensures Rank(Request(codec, b, store, next).next) < Rank(next)
  {
  }

  /** Where a run ends: the store, how it ended, and whether it made a request that writes. */
  datatype Outcome = Outcome(store: Store, next: Next, wrote: bool)

  /** Run to the end, alone and uninterrupted. */
  ghost function Finish(codec: Codec, b: Build, store: Store, next: Next): Outcome
    decreases Rank(next)
  {
    if next.Done? || next.Stopped? then Outcome(store, next, false)
    else
      RequestAdvances(codec, b, store, next);
      var e := Request(codec, b, store, next);
      var rest := Finish(codec, b, e.store, e.next);
      rest.(wrote := rest.wrote || next.Write? || next.AcceptWrite? || next.Swap?)
  }

  ghost function RunAlone(codec: Codec, b: Build, store: Store): Outcome {
    Finish(codec, b, store, Check(0, []))
  }

  // ---------------------------------------------------------------- names

  /** Two files have the same name only if they are the same file of the same release. */
  lemma SameUri(v: string, w: string, name: string, other: string)
    requires '/' !in v && '/' !in w
    ensures FileUri(v, name) == FileUri(w, other) ==> v == w && name == other
  {
    var p := ROOT + "/releases/";
    assert FileUri(v, name) == p + (v + "/" + name) && FileUri(w, other) == p + (w + "/" + other);
    SameTail(p, v + "/" + name, w + "/" + other);
    SlashSplits(v, w, name, other);
  }

  lemma SameTail(p: string, s: string, t: string)
    ensures p + s == p + t ==> s == t
  {
    assert (p + s)[|p|..] == s && (p + t)[|p|..] == t;
  }

  lemma SlashSplits(v: string, w: string, name: string, other: string)
    requires '/' !in v && '/' !in w
    ensures v + "/" + name == w + "/" + other ==> v == w && name == other
  {
    var s, t := v + "/" + name, w + "/" + other;
    if s == t {
      assert s[|v|] == '/' && t[|w|] == '/';
      assert s[..|v|] == v && t[..|w|] == w;
      assert s[|v| + 1..] == name && t[|w| + 1..] == other;
    }
  }

  /** The name of a stored acceptance is not that of a release file. */
  lemma AcceptanceIsApart(codec: Codec, b: Build, c: Build, i: nat)
    requires i < 4 && '/' !in b.version && '/' !in c.version
    ensures AcceptanceUri(codec, b) != Uri(c, i)
  {
    hide FileUri;
    var name := "acceptance/" + codec.digest(b.acceptanceText) + ".json";
    assert name[0] == 'a' && name[1] == 'c' && name[2] == 'c';
    SameUri(b.version, c.version, name, FILES[i]);
  }

  lemma UrisDiffer(b: Build, i: nat, j: nat)
    requires i < j < 4
    ensures Uri(b, i) != Uri(b, j)
  {
    hide FileUri;
    SameTail(ReleaseRoot(b.version) + "/", FILES[i], FILES[j]) by { assert FILES[i] != FILES[j]; }
    FileUriIs(b.version, FILES[i]);
    FileUriIs(b.version, FILES[j]);
  }

  lemma FileUriIs(version: string, name: string)
    ensures FileUri(version, name) == (ReleaseRoot(version) + "/") + name
  {
  }

  // ---------------------------------------------------------------- the checks

  /** The `i`-th release file is missing, or stored with the text of the build. */
  predicate Fits(b: Build, store: Store, i: nat)
    requires i < 4
  {
    Uri(b, i) in store ==> store[Uri(b, i)] == TextOf(b.texts, i)
  }

  /** Nothing stored contradicts the build. */
  predicate Compatible(b: Build, store: Store) { forall i :: 0 <= i < 4 ==> Fits(b, store, i) }

  /** The first `n` release files that are not stored. */
  function Missing(b: Build, store: Store, n: nat): seq<nat>
    requires n <= 4
  {
    if n == 0 then [] else Missing(b, store, n - 1) + (if Uri(b, n - 1) in store then [] else [n - 1])
  }

  /** The four files of the release. */
  function Release(b: Build): Store {
    map[Uri(b, 0) := TextOf(b.texts, 0), Uri(b, 1) := TextOf(b.texts, 1),
        Uri(b, 2) := TextOf(b.texts, 2), Uri(b, 3) := TextOf(b.texts, 3)]
  }

  predicate FitsFrom(b: Build, store: Store, i: nat)
    decreases 4 - i
  {
    i >= 4 || (Fits(b, store, i) && FitsFrom(b, store, i + 1))
  }

  lemma FitsFromStart(b: Build, store: Store)
    ensures FitsFrom(b, store, 0) == Compatible(b, store)
  {
    hide Fits;
    assert FitsFrom(b, store, 4);
    assert FitsFrom(b, store, 3) == Fits(b, store, 3);
    assert FitsFrom(b, store, 2) == (Fits(b, store, 2) && Fits(b, store, 3));
  }

  /** What one check does. */
  lemma OneCheck(codec: Codec, b: Build, store: Store, i: nat, missing: seq<nat>)
    requires i < 4
    ensures Finish(codec, b, store, Check(i, missing)) ==
            if Uri(b, i) !in store && b.activate then Outcome(store, Stopped, false)
            else if !Fits(b, store, i) then Outcome(store, Stopped, false)
            else Finish(codec, b, store, Check(i + 1, if Uri(b, i) in store then missing else missing + [i]))
  {
    hide FileUri, CurrentUri, TextOf;
  }

  lemma {:induction false} ChecksOfStage(codec: Codec, b: Build, store: Store, i: nat)
    requires !b.activate && i <= 4
    ensures Finish(codec, b, store, Check(i, Missing(b, store, i))) ==
            if FitsFrom(b, store, i) then Finish(codec, b, store, AfterChecks(Missing(b, store, 4)))
            else Outcome(store, Stopped, false)
    decreases 4 - i
  {
    hide Fits, Uri;
    if i < 4 {
      hide Finish;
      ChecksOfStage(codec, b, store, i + 1);
      OneCheck(codec, b, store, i, Missing(b, store, i));
      assert Missing(b, store, i) + [] == Missing(b, store, i);
    }
  }

  lemma {:induction false} ChecksOfActivation(codec: Codec, b: Build, store: Store, i: nat)
    requires b.activate && i <= 4 && Stored(b, store, i)
    ensures Finish(codec, b, store, Check(i, [])) ==
            if Stored(b, store, 4) then Finish(codec, b, store, ReadBack(0)) else Outcome(store, Stopped, false)
    decreases 4 - i
  {
    hide Uri, TextOf;
    if i < 4 {
      hide Finish;
      OneCheck(codec, b, store, i, []);
      if Reads(store, Uri(b, i), TextOf(b.texts, i)) {
        ChecksOfActivation(codec, b, store, i + 1);
      }
    }
  }

  // ---------------------------------------------------------------- the writes

  /** The store after the files in the list have been created. */
  function Added(b: Build, store: Store, missing: seq<nat>): Store
    requires forall k :: 0 <= k < |missing| ==> missing[k] < 4
    decreases |missing|
  {
    if missing == [] then store
    else Added(b, store[Uri(b, missing[0]) := TextOf(b.texts, missing[0])], missing[1..])
  }

  /** A list of files to create, in their order, none of them stored. */
  predicate Creatable(b: Build, store: Store, missing: seq<nat>) {
    && (forall k :: 0 <= k < |missing| ==> missing[k] < 4 && Uri(b, missing[k]) !in store)
    && forall j, k :: 0 <= j < k < |missing| ==> missing[j] < missing[k]
  }

  lemma {:induction false} WritesAll(codec: Codec, b: Build, store: Store, missing: seq<nat>)
    requires missing != [] && Creatable(b, store, missing)
    ensures Finish(codec, b, store, Write(missing)) ==
            Finish(codec, b, Added(b, store, missing), ReadBack(0)).(wrote := true)
    decreases |missing|
  {
    hide Uri, TextOf;
    var u := Uri(b, missing[0]);
    var store' := store[u := TextOf(b.texts, missing[0])];
    if |missing| > 1 {
      forall k | 1 <= k < |missing|
        ensures Uri(b, missing[k]) != u
      {
        UrisDiffer(b, missing[0], missing[k]);
      }
      WritesAll(codec, b, store', missing[1..]);
    }
  }

  lemma {:induction false} MissingIsCreatable(b: Build, store: Store, n: nat)
    requires n <= 4
    ensures Creatable(b, store, Missing(b, store, n))
    ensures forall k :: 0 <= k < |Missing(b, store, n)| ==> Missing(b, store, n)[k] < n
    ensures forall i :: 0 <= i < n && Uri(b, i) !in store ==> i in Missing(b, store, n)
  {
    hide Uri;
    if n > 0 {
      MissingIsCreatable(b, store, n - 1);
    }
  }

  lemma {:induction false} AddedHolds(b: Build, store: Store, missing: seq<nat>, u: string)
    requires Creatable(b, store, missing)
    ensures var after := Added(b, store, missing);
            && (u in store ==> u in after && after[u] == store[u])
            && (u !in store ==> (u in after <==> exists k :: k in missing && Uri(b, k) == u))
            && (u in after && u !in store ==>
                  exists k :: k in missing && Uri(b, k) == u && after[u] == TextOf(b.texts, k))
    decreases |missing|
  {
    hide Uri, TextOf;
    if missing != [] {
      var v := Uri(b, missing[0]);
      var store' := store[v := TextOf(b.texts, missing[0])];
      forall k | 1 <= k < |missing|
        ensures Uri(b, missing[k]) != v
      {
        UrisDiffer(b, missing[0], missing[k]);
      }
      AddedHolds(b, store', missing[1..], u);
    }
  }

  /** Creating what is missing of a compatible release makes the store hold the release. */
  lemma AddedIsRelease(b: Build, store: Store)
    requires Compatible(b, store) && Creatable(b, store, Missing(b, store, 4))
    ensures Added(b, store, Missing(b, store, 4)) == store + Release(b)
  {
    hide Uri, TextOf, Added, Missing;
    var missing := Missing(b, store, 4);
    var after, want := Added(b, store, missing), store + Release(b);
    MissingIsCreatable(b, store, 4);
    forall u
      ensures (u in after <==> u in want) && (u in after ==> after[u] == want[u])
    {
      AddedHolds(b, store, missing, u);
      ReleaseAt(b, u);
      if u in Release(b) && u in store {
        var i: nat :| i < 4 && Uri(b, i) == u;
        assert Fits(b, store, i);
      } else if u in Release(b) {
        var i: nat :| i < 4 && Uri(b, i) == u;
        assert i in missing;
        ReleaseHolds(b, i);
      }
      if u in after && u !in store {
        var k :| k in missing && Uri(b, k) == u && after[u] == TextOf(b.texts, k);
        ReleaseHolds(b, k);
      }
    }
  }

  lemma ReleaseAt(b: Build, u: string)
    ensures u in Release(b) <==> exists i: nat :: i < 4 && Uri(b, i) == u
    ensures u in Release(b) ==> forall i: nat :: i < 4 && Uri(b, i) == u ==> Release(b)[u] == TextOf(b.texts, i)
  {
    hide Uri, TextOf;
    if u in Release(b) {
      assert Uri(b, 0) == u || Uri(b, 1) == u || Uri(b, 2) == u || Uri(b, 3) == u;
    }
    UrisDiffer(b, 0, 1);
    UrisDiffer(b, 0, 2);
    UrisDiffer(b, 0, 3);
    UrisDiffer(b, 1, 2);
    UrisDiffer(b, 1, 3);
    UrisDiffer(b, 2, 3);
  }

  lemma ReleaseHolds(b: Build, i: nat)
    requires i < 4
    ensures Uri(b, i) in Release(b) && Release(b)[Uri(b, i)] == TextOf(b.texts, i)
  {
    hide Uri, TextOf, Release;
    ReleaseAt(b, Uri(b, i));
  }

  // ---------------------------------------------------------------- the end of a run

  lemma {:induction false} ReadsBack(codec: Codec, b: Build, store: Store, i: nat)
    requires i <= 4 && Stored(b, store, 4)
    ensures Finish(codec, b, store, ReadBack(i)) ==
            Finish(codec, b, store, if b.activate then AcceptCheck else Done)
    decreases 4 - i
  {
    hide Uri, TextOf;
    if i < 4 {
      assert Reads(store, Uri(b, i), TextOf(b.texts, i));
      ReadsBack(codec, b, store, i + 1);
    }
  }

  /**
   * A stage run on its own, from any store: it completes exactly when nothing stored contradicts the build,
   * and then has added the release and nothing else; otherwise it stops with the store as it was.
   * It writes only if a file was missing.
   */
  lemma StageAlone(codec: Codec, b: Build, store: Store)
    requires !b.activate
    ensures RunAlone(codec, b, store) ==
            if Compatible(b, store) then Outcome(store + Release(b), Done, !Stored(b, store, 4))
            else Outcome(store, Stopped, false)
  {
    hide Uri, TextOf, Added, Release, Finish, Request, Missing, Fits, FitsFrom, Creatable;
    FirstCheck(b, store);
    ChecksOfStage(codec, b, store, 0);
    FitsFromStart(b, store);
    MissingIsCreatable(b, store, 4);
    if Compatible(b, store) {
      var missing := Missing(b, store, 4);
      var after := store + Release(b);
      forall i: nat | i < 4
        ensures Reads(after, Uri(b, i), TextOf(b.texts, i))
      {
        ReleaseHolds(b, i);
      }
      ReadsBack(codec, b, after, 0);
      EndOfRun(codec, b, after);
      AddedIsRelease(b, store);
      MissingMeansNotStored(b, store);
      if missing == [] {
        AddedNone(b, store);
      } else {
        WritesAll(codec, b, store, missing);
      }
    }
  }

  lemma FirstCheck(b: Build, store: Store)
    ensures Missing(b, store, 0) == []
  {
  }

  lemma AddedNone(b: Build, store: Store)
    ensures Added(b, store, []) == store
  {
  }

  lemma EndOfRun(codec: Codec, b: Build, store: Store)
    ensures Finish(codec, b, store, Done) == Outcome(store, Done, false)
  {
  }

  lemma MissingMeansNotStored(b: Build, store: Store)
    requires Compatible(b, store)
    ensures Missing(b, store, 4) == [] <==> Stored(b, store, 4)
  {
    hide Uri, TextOf, Missing;
    MissingIsCreatable(b, store, 4);
    var missing := Missing(b, store, 4);
    if missing == [] {
      forall i | 0 <= i < 4
        ensures Reads(store, Uri(b, i), TextOf(b.texts, i))
      {
        assert Fits(b, store, i);
      }
    } else {
      assert !Reads(store, Uri(b, missing[0]), TextOf(b.texts, missing[0]));
    }
  }

  /**
   * An activation on its own, from any store: it completes exactly when the whole release is stored and the
   * acceptance is missing or stored as it is, and then has stored the acceptance and replaced `current.json`;
   * otherwise it stops with the store as it was.
   */
  lemma ActivateAlone(codec: Codec, b: Build, store: Store)
    requires b.activate
    ensures var a := AcceptanceUri(codec, b);
            RunAlone(codec, b, store) ==
            if Stored(b, store, 4) && (a in store ==> store[a] == b.acceptanceText)
            then Outcome(store[a := b.acceptanceText][CurrentUri() := codec.dump(ActivePointer(codec, b))], Done, true)
            else Outcome(store, Stopped, false)
  {
    hide Uri, TextOf, FileUri, CurrentUri, ActivePointer;
    ChecksOfActivation(codec, b, store, 0);
    var a := AcceptanceUri(codec, b);
    if Stored(b, store, 4) {
      ReadsBack(codec, b, store, 0);
      AcceptsAlone(codec, b, store);
    }
  }

  lemma AcceptsAlone(codec: Codec, b: Build, store: Store)
    ensures var a := AcceptanceUri(codec, b);
            Finish(codec, b, store, AcceptCheck) ==
            if a in store ==> store[a] == b.acceptanceText
            then Outcome(store[a := b.acceptanceText][CurrentUri() := codec.dump(ActivePointer(codec, b))], Done, true)
            else Outcome(store, Stopped, false)
  {
    hide FileUri, CurrentUri, ActivePointer, AcceptanceUri;
    var a := AcceptanceUri(codec, b);
    var after := store[a := b.acceptanceText];
    SwapsAlone(codec, b, after);
    if a in store && store[a] == b.acceptanceText {
      assert after == store;
    } else if a !in store {
      assert Finish(codec, b, store, AcceptWrite) == Finish(codec, b, after, AcceptReadBack).(wrote := true);
    }
  }

  lemma SwapsAlone(codec: Codec, b: Build, store: Store)
    requires Reads(store, AcceptanceUri(codec, b), b.acceptanceText)
    ensures Finish(codec, b, store, AcceptReadBack) ==
            Outcome(store[CurrentUri() := codec.dump(ActivePointer(codec, b))], Done, true)
  {
    hide FileUri, CurrentUri, ActivePointer, AcceptanceUri;
    var after := store[CurrentUri() := codec.dump(ActivePointer(codec, b))];
    assert Finish(codec, b, after, Confirm) == Outcome(after, Done, false);
    assert Finish(codec, b, store, Swap) == Outcome(after, Done, true);
  }

  // ---------------------------------------------------------------- after any interruption

  /** Every run of the release of `b` publishes the texts of `b`. */
  predicate SameTexts(b: Build, runs: seq<Run>) {
    forall k :: 0 <= k < |runs| && runs[k].build.version == b.version ==> runs[k].build.texts == b.texts
  }

  /** Runs of other releases do not matter, nor do runs that publish the same. */
  lemma OthersDoNotMatter(b: Build, runs: seq<Run>)
    ensures (forall k :: 0 <= k < |runs| ==> runs[k].build.version != b.version || runs[k].build.texts == b.texts)
       <==> SameTexts(b, runs)
  {
  }

  lemma RequestKeepsFit(codec: Codec, c: Build, b: Build, store: Store, next: Next, i: nat)
    requires '/' !in b.version && '/' !in c.version && (c.version == b.version ==> c.texts == b.texts)
    requires i < 4 && Fits(b, store, i)
    ensures Fits(b, Request(codec, c, store, next).store, i)
  {
    hide FileUri, CurrentUri, TextOf, ActivePointer;
    AcceptanceIsApart(codec, c, b, i);
    ReleaseIsNotCurrent(b.version, FILES[i]);
    if next.Write? && next.missing != [] && next.missing[0] < 4 {
      SameFile(c, b, next.missing[0], i);
    }
  }

  lemma SameFile(c: Build, b: Build, j: nat, i: nat)
    requires '/' !in b.version && '/' !in c.version && j < 4 && i < 4
    ensures Uri(c, j) == Uri(b, i) ==> c.version == b.version && j == i
  {
    hide FileUri;
    SameUri(c.version, b.version, FILES[j], FILES[i]);
  }

  lemma AdmittedVersion(codec: Codec, ex: Executor, b: Build)
    requires Admitted(codec, ex, b)
    ensures '/' !in b.version
  {
    hide ValidActions, ValidSelectors, ValidIndex, ValidProfile, LowerHex, Revision, FileUri, ValidAcceptance;
    assert VersionText(b.version);
  }

  lemma StepKeepsFit(codec: Codec, ex: Executor, b: Build, s: System, s': System)
    requires Admitted(codec, ex, b) && Invariant(codec, ex, s) && Step(codec, ex, s, s')
    requires SameTexts(b, s'.runs) && Compatible(b, s.store)
    ensures SameTexts(b, s.runs) && Compatible(b, s'.store)
  {
    hide Admitted, Knows, Published, Request, Fits;
    BuildsStay(codec, ex, s, s');
    if k: nat :| Progresses(codec, s, s', k) {
      var c := s.runs[k].build;
      AdmittedVersion(codec, ex, b);
      AdmittedVersion(codec, ex, c);
      forall i | 0 <= i < 4
        ensures Fits(b, s'.store, i)
      {
        RequestKeepsFit(codec, c, b, s.store, s.runs[k].next, i);
      }
    }
  }

  lemma BuildsStay(codec: Codec, ex: Executor, s: System, s': System)
    requires Step(codec, ex, s, s')
    ensures |s.runs| <= |s'.runs| && forall k :: 0 <= k < |s.runs| ==> s'.runs[k].build == s.runs[k].build
  {
    hide Admitted, Request;
    if Starts(codec, ex, s, s') {
      assert forall k :: 0 <= k < |s.runs| ==> s'.runs[k] == s'.runs[..|s.runs|][k];
    }
  }

  lemma {:induction false} StaysCompatible(codec: Codec, ex: Executor, trace: seq<System>, i: nat, b: Build)
    requires Execution(codec, ex, trace) && i < |trace| && Admitted(codec, ex, b)
    requires Compatible(b, trace[0].store) && SameTexts(b, trace[i].runs)
    ensures Compatible(b, trace[i].store)
  {
    hide Step, Admitted, Compatible, SameTexts, Invariant;
    if i > 0 {
      var s, s' := trace[i - 1], trace[i];
      assert Step(codec, ex, trace[i - 1], trace[i - 1 + 1]);
      InvariantHolds(codec, ex, trace, i - 1);
      SameTextsBefore(codec, ex, b, s, s');
      StaysCompatible(codec, ex, trace, i - 1, b);
      StepKeepsFit(codec, ex, b, s, s');
    }
  }

  lemma SameTextsBefore(codec: Codec, ex: Executor, b: Build, s: System, s': System)
    requires Step(codec, ex, s, s') && SameTexts(b, s'.runs)
    ensures SameTexts(b, s.runs)
  {
    hide Step;
    BuildsStay(codec, ex, s, s');
  }

  /**
   * Staging is repeatable. Take any execution in which every run of the release publishes the same texts,
   * whatever was cut off and whatever other releases did. A stage run of the build, on its own from there,
   * completes with all four files stored; a further one completes without a write and leaves the store as it is.
   */
  lemma RerunCompletes(codec: Codec, ex: Executor, trace: seq<System>, i: nat, b: Build)
    requires Execution(codec, ex, trace) && i < |trace| && Admitted(codec, ex, b) && !b.activate
    requires Compatible(b, trace[0].store) && SameTexts(b, trace[i].runs)
    ensures var once := RunAlone(codec, b, trace[i].store);
            && once.next == Done && Stored(b, once.store, 4)
            && RunAlone(codec, b, once.store) == Outcome(once.store, Done, false)
  {
    hide Step, Admitted, SameTexts, Release, Finish, Uri, TextOf, RunAlone;
    var store := trace[i].store;
    StaysCompatible(codec, ex, trace, i, b);
    StageAlone(codec, b, store);
    var after := store + Release(b);
    forall i | 0 <= i < 4
      ensures Reads(after, Uri(b, i), TextOf(b.texts, i)) && Fits(b, after, i)
    {
      ReleaseHolds(b, i);
    }
    StageAlone(codec, b, after);
    assert after + Release(b) == after;
  }

  // ---------------------------------------------------------------- a run alone is an execution

  predicate Active(s: System, b: Build) { s.active.Some? && s.active.value == b }

  /** The last run of an execution can go on alone to where `Finish` says. */
  lemma {:induction false} FinishIsExecution(codec: Codec, ex: Executor,
                                             trace: seq<System>) returns (longer: seq<System>)
    requires Execution(codec, ex, trace) && trace[|trace| - 1].runs != []
    ensures Execution(codec, ex, longer)
    ensures var s, s', k := trace[|trace| - 1], longer[|longer| - 1], |trace[|trace| - 1].runs| - 1;
            var r := s.runs[k];
            var end := Finish(codec, r.build, s.store, r.next);
            && s'.store == end.store && |s'.runs| == |s.runs|
            && (r.build.activate && end.next == Done && (Rank(r.next) >= 2 || Active(s, r.build)) ==>
                Active(s', r.build))
    decreases Rank(trace[|trace| - 1].runs[|trace[|trace| - 1].runs| - 1].next)
  {
    hide Initial, Starts;
    var s := trace[|trace| - 1];
    var k := |s.runs| - 1;
    var r := s.runs[k];
    if r.next.Done? || r.next.Stopped? {
      longer := trace;
    } else {
      RequestAdvances(codec, r.build, s.store, r.next);
      var e := Request(codec, r.build, s.store, r.next);
      var s' := System(e.store, s.runs[k := r.(next := e.next)], Activated(s, k));
      assert Progresses(codec, s, s', k);
      OnlySwapPasses(codec, r.build, s.store, r.next);
      hide Request, Rank, Finish;
      ExecutionGrows(codec, ex, trace, s');
      FinishUnfolds(codec, r.build, s.store, r.next);
      longer := FinishIsExecution(codec, ex, trace + [s']);
    }
  }

  /** After any execution an admitted run can be started and go on alone to its end. */
  lemma AloneIsExecution(codec: Codec, ex: Executor, trace: seq<System>, b: Build) returns (longer: seq<System>)
    requires Execution(codec, ex, trace) && Admitted(codec, ex, b)
    ensures Execution(codec, ex, longer)
    ensures var end := RunAlone(codec, b, trace[|trace| - 1].store);
            && longer[|longer| - 1].store == end.store
            && (b.activate && end.next == Done ==> Active(longer[|longer| - 1], b))
  {
    hide Admitted, Initial, Finish, Request;
    var s := trace[|trace| - 1];
    var s' := s.(runs := s.runs + [Run(b, Check(0, []))]);
    assert s'.runs[..|s.runs|] == s.runs;
    assert Starts(codec, ex, s, s');
    ExecutionGrows(codec, ex, trace, s');
    longer := FinishIsExecution(codec, ex, trace + [s']);
  }

  lemma FinishUnfolds(codec: Codec, b: Build, store: Store, next: Next)
    requires !next.Done? && !next.Stopped?
    ensures var e := Request(codec, b, store, next);
            var end, rest := Finish(codec, b, store, next), Finish(codec, b, e.store, e.next);
            end.store == rest.store && end.next == rest.next
  {
    hide Request, Rank;
  }

  /** Before its swap an activation is still to make at least two requests. */
  lemma OnlySwapPasses(codec: Codec, b: Build, store: Store, next: Next)
    requires !next.Done? && !next.Stopped?
    ensures var e := Request(codec, b, store, next);
            b.activate && Rank(next) >= 2 && !next.Swap? ==> Rank(e.next) >= 2 || e.next.Stopped?
    ensures next.Swap? ==> Request(codec, b, store, next).next == Confirm
  {
  }

  lemma ExecutionGrows(codec: Codec, ex: Executor, trace: seq<System>, s': System)
    requires Execution(codec, ex, trace) && Step(codec, ex, trace[|trace| - 1], s')
    ensures Execution(codec, ex, trace + [s'])
  {
    hide Step, Initial;
    var longer := trace + [s'];
    assert longer[0] == trace[0];
    forall i | 0 <= i < |longer| - 1
      ensures Step(codec, ex, longer[i], longer[i + 1])
    {
      if i < |trace| - 1 {
        assert Step(codec, ex, trace[i], trace[i + 1]);
      }
    }
  }

  /** Any run of an execution may be cut off at any time: the execution goes on with the store as it is. */
  lemma MayStop(codec: Codec, ex: Executor, trace: seq<System>, k: nat) returns (longer: seq<System>)
    requires Execution(codec, ex, trace) && k < |trace[|trace| - 1].runs|
    ensures Execution(codec, ex, longer) && |longer| == |trace| + 1
    ensures var s, s' := trace[|trace| - 1], longer[|trace|];
            s'.store == s.store && |s'.runs| == |s.runs| && s'.runs[k].next == Stopped
  {
    hide Initial, Starts, Admitted;
    var s := trace[|trace| - 1];
    var s' := s.(runs := s.runs[k := s.runs[k].(next := Stopped)]);
    assert Stops(s, s', k);
    ExecutionGrows(codec, ex, trace, s');
    longer := trace + [s'];
  }
}
