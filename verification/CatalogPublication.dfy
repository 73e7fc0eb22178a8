/**
 Publishing executor catalogs to a remote store: stage runs that write a release once, and
 activation runs that verify a staged release, store its acceptance and swap `current.json`.

 Any number of runs interleave, request by request, and each may stop after any request.
 */
module CatalogPublication {
  import opened Base
  import opened CatalogBuild

  type Store = map<string, string>

  const FILES: seq<string> := ["actions.json", "selectors.json", "source-index.json", "manifest.json"]

  /** What a run publishes. It starts only if the build is valid. */
  datatype Build = Build(texts: Texts, version: string, pointer: Pointer, activate: bool, acceptanceText: string)

  /** The text of the `i`-th release file. */
  function TextOf(t: Texts, i: nat): string
    requires i < 4
  {
    if i == 0 then t.actions else if i == 1 then t.selectors else if i == 2 then t.index else t.manifest
  }

  function Uri(b: Build, i: nat): string
    requires i < 4
  {
    FileUri(b.version, FILES[i])
  }

  function AcceptanceUri(codec: Codec, b: Build): string {
    FileUri(b.version, "acceptance/" + codec.digest(b.acceptanceText) + ".json")
  }

  /** The `current.json` an activation writes. */
  function ActivePointer(codec: Codec, b: Build): Pointer {
    b.pointer.(status := "production", acceptanceUri := Some(AcceptanceUri(codec, b)),
               acceptanceSha := Some(codec.digest(b.acceptanceText)))
  }

  predicate Admitted(codec: Codec, ex: Executor, b: Build) {
    && ValidBuild(codec, ex, b.texts, b.activate, b.acceptanceText)
    && var d := Load(codec, b.texts).value;
       b.version == d.manifest.version && b.pointer == d.current
  }

  // ---------------------------------------------------------------- runs

  /** The next request of a run. */
  datatype Next =
    | Check(i: nat, missing: seq<nat>)   // read release file i; earlier missing ones are noted
    | Write(missing: seq<nat>)           // create the noted files, one after the other
    | ReadBack(i: nat)                   // read release file i again
    | AcceptCheck | AcceptWrite | AcceptReadBack
    | Swap                               // replace current.json
    | Confirm                            // read current.json
    | Done
    | Stopped                            // an error, or the run was cut off

  datatype Run = Run(build: Build, next: Next)

  /** What one request does to the store, and what the run does after it. */
  datatype Effect = Effect(store: Store, next: Next)

  function AfterChecks(missing: seq<nat>): Next { if missing == [] then ReadBack(0) else Write(missing) }

  function Reads(store: Store, uri: string, text: string): bool { uri in store && store[uri] == text }

  /** One request that goes through. A `create` refuses an existing file; a `replace` is atomic. */
  function Request(codec: Codec, b: Build, store: Store, next: Next): Effect {
    match next
    case Check(i, missing) =>
      if i >= 4 then Effect(store, AfterChecks(missing))
      else if Uri(b, i) !in store then
        if b.activate then Effect(store, Stopped) else Effect(store, Check(i + 1, missing + [i]))
      else if store[Uri(b, i)] != TextOf(b.texts, i) then Effect(store, Stopped)
      else Effect(store, Check(i + 1, missing))
    case Write(missing) =>
      if missing == [] || missing[0] >= 4 then Effect(store, ReadBack(0))
      else if Uri(b, missing[0]) in store then Effect(store, Stopped)
      else Effect(store[Uri(b, missing[0]) := TextOf(b.texts, missing[0])],
                  if |missing| == 1 then ReadBack(0) else Write(missing[1..]))
    case ReadBack(i) =>
      if i >= 4 then Effect(store, if b.activate then AcceptCheck else Done)
      else if !Reads(store, Uri(b, i), TextOf(b.texts, i)) then Effect(store, Stopped)
      else Effect(store, ReadBack(i + 1))
    case AcceptCheck =>
      if AcceptanceUri(codec, b) !in store then Effect(store, AcceptWrite)
      else if store[AcceptanceUri(codec, b)] != b.acceptanceText then Effect(store, Stopped)
      else Effect(store, AcceptReadBack)
    case AcceptWrite =>
      if AcceptanceUri(codec, b) in store then Effect(store, Stopped)
      else Effect(store[AcceptanceUri(codec, b) := b.acceptanceText], AcceptReadBack)
    case AcceptReadBack =>
      Effect(store, if Reads(store, AcceptanceUri(codec, b), b.acceptanceText) then Swap else Stopped)
    case Swap =>
      Effect(store[CurrentUri() := codec.dump(ActivePointer(codec, b))], Confirm)
    case Confirm =>
      Effect(store, if Reads(store, CurrentUri(), codec.dump(ActivePointer(codec, b))) then Done else Stopped)
    case Done => Effect(store, Done)
    case Stopped => Effect(store, Stopped)
  }

  // ---------------------------------------------------------------- the system

  /** The store, the runs, and which build last wrote `current.json`, if an activation did. */
  datatype System = System(store: Store, runs: seq<Run>, active: Option<Build>)

  /** The store may hold anything before the first run. */
  predicate Initial(s: System) { s.runs == [] && s.active.None? }

  predicate Starts(codec: Codec, ex: Executor, s: System, s': System) {
    && |s'.runs| == |s.runs| + 1 && s'.runs[..|s.runs|] == s.runs
    && s'.runs[|s.runs|].next == Check(0, []) && Admitted(codec, ex, s'.runs[|s.runs|].build)
    && s'.store == s.store && s'.active == s.active
  }

  function Activated(s: System, k: nat): Option<Build>
    requires k < |s.runs|
  {
    if s.runs[k].next == Swap then Some(s.runs[k].build) else s.active
  }

  predicate Progresses(codec: Codec, s: System, s': System, k: nat) {
    && k < |s.runs|
    && var e := Request(codec, s.runs[k].build, s.store, s.runs[k].next);
       s' == System(e.store, s.runs[k := s.runs[k].(next := e.next)], Activated(s, k))
  }

  predicate Stops(s: System, s': System, k: nat) {
    k < |s.runs| && s' == s.(runs := s.runs[k := s.runs[k].(next := Stopped)])
  }

  ghost predicate Step(codec: Codec, ex: Executor, s: System, s': System) {
    || Starts(codec, ex, s, s')
    || (exists k: nat :: Progresses(codec, s, s', k))
    || (exists k: nat :: Stops(s, s', k))
  }

  ghost predicate Execution(codec: Codec, ex: Executor, trace: seq<System>) {
    && trace != [] && Initial(trace[0])
    && forall i :: 0 <= i < |trace| - 1 ==> Step(codec, ex, trace[i], trace[i + 1])
  }

  // ---------------------------------------------------------------- write once

  /** A release file never has the name of `current.json`. */
  lemma ReleaseIsNotCurrent(version: string, name: string)
    ensures FileUri(version, name) != CurrentUri()
  {
    var n := |ROOT| + 1;
    assert FileUri(version, name)[n] == "/releases/"[1];
    assert CurrentUri()[n] == "/current.json"[1];
  }

  /** Nothing but `current.json` ever changes once it is there. */
  predicate Extends(store: Store, store': Store) {
    forall u :: u in store && u != CurrentUri() ==> u in store' && store'[u] == store[u]
  }

  lemma RequestExtends(codec: Codec, b: Build, store: Store, next: Next)
    ensures Extends(store, Request(codec, b, store, next).store)
    ensures !next.Swap? ==> forall u :: u in store ==> u in Request(codec, b, store, next).store
                                                       && Request(codec, b, store, next).store[u] == store[u]
  {
    hide FileUri, CurrentUri;
  }

  lemma StepExtends(codec: Codec, ex: Executor, s: System, s': System)
    requires Step(codec, ex, s, s')
    ensures Extends(s.store, s'.store)
  {
    hide Request, Admitted, FileUri, CurrentUri;
    if k: nat :| Progresses(codec, s, s', k) {
      RequestExtends(codec, s.runs[k].build, s.store, s.runs[k].next);
    }
  }

  /** Bytes of a release, once present, stay for the rest of every execution. */
  lemma {:induction false} WrittenOnce(codec: Codec, ex: Executor, trace: seq<System>, i: nat, j: nat)
    requires Execution(codec, ex, trace) && i <= j < |trace|
    ensures Extends(trace[i].store, trace[j].store)
    decreases j - i
  {
    hide Step, CurrentUri;
    if i < j {
      WrittenOnce(codec, ex, trace, i, j - 1);
      assert Step(codec, ex, trace[j - 1], trace[j - 1 + 1]);
      StepExtends(codec, ex, trace[j - 1], trace[j]);
    }
  }

  // ---------------------------------------------------------------- what each run knows

  /** The first `n` release files of the build are stored. */
  predicate Stored(b: Build, store: Store, n: nat) {
    forall i :: 0 <= i < n && i < 4 ==> Reads(store, Uri(b, i), TextOf(b.texts, i))
  }

  /** What a run has made sure of before its next request. */
  predicate Knows(codec: Codec, b: Build, store: Store, next: Next) {
    match next
    case ReadBack(i) => Stored(b, store, i)
    case AcceptCheck => Stored(b, store, 4) && b.activate
    case AcceptWrite => Stored(b, store, 4) && b.activate
    case AcceptReadBack => Stored(b, store, 4) && b.activate
    case Swap => Published(codec, b, store) && b.activate
    case Confirm => Published(codec, b, store) && b.activate
    case Done => Stored(b, store, 4) && (b.activate ==> Published(codec, b, store))
    case _ => true
  }

  /** All four release files and the acceptance are stored. */
  predicate Published(codec: Codec, b: Build, store: Store) {
    Stored(b, store, 4) && Reads(store, AcceptanceUri(codec, b), b.acceptanceText)
  }

  predicate Invariant(codec: Codec, ex: Executor, s: System) {
    && (forall k :: 0 <= k < |s.runs| ==>
          Admitted(codec, ex, s.runs[k].build) && Knows(codec, s.runs[k].build, s.store, s.runs[k].next))
    && (s.active.Some? ==>
          && s.active.value.activate && Admitted(codec, ex, s.active.value)
          && Published(codec, s.active.value, s.store)
          && Reads(s.store, CurrentUri(), codec.dump(ActivePointer(codec, s.active.value))))
  }

  lemma StoredStays(b: Build, store: Store, store': Store, n: nat)
    requires Extends(store, store') && Stored(b, store, n)
    ensures Stored(b, store', n)
  {
    hide FileUri, CurrentUri;
    forall i | 0 <= i < n && i < 4
      ensures Reads(store', Uri(b, i), TextOf(b.texts, i))
    {
      ReleaseIsNotCurrent(b.version, FILES[i]);
    }
  }

  lemma KnowsStays(codec: Codec, b: Build, store: Store, store': Store, next: Next)
    requires Extends(store, store') && Knows(codec, b, store, next)
    ensures Knows(codec, b, store', next)
    ensures Published(codec, b, store) ==> Published(codec, b, store')
  {
    hide FileUri, CurrentUri, Stored;
    if next.ReadBack? {
      StoredStays(b, store, store', next.i);
    }
    if Stored(b, store, 4) {
      StoredStays(b, store, store', 4);
    }
    ReleaseIsNotCurrent(b.version, "acceptance/" + codec.digest(b.acceptanceText) + ".json");
  }

  lemma RequestKnows(codec: Codec, b: Build, store: Store, next: Next)
    requires Knows(codec, b, store, next)
    ensures var e := Request(codec, b, store, next); Knows(codec, b, e.store, e.next)
    ensures next.Swap? ==> var e := Request(codec, b, store, next);
                           Published(codec, b, e.store) && Reads(e.store, CurrentUri(),
                               codec.dump(ActivePointer(codec, b)))
  {
    hide FileUri, CurrentUri, ActivePointer;
    RequestExtends(codec, b, store, next);
    KnowsStays(codec, b, store, Request(codec, b, store, next).store, next);
  }

  lemma StepKeepsInvariant(codec: Codec, ex: Executor, s: System, s': System)
    requires Invariant(codec, ex, s) && Step(codec, ex, s, s')
    ensures Invariant(codec, ex, s')
  {
    hide Request, Admitted, Knows, Published, CurrentUri, ActivePointer;
    StepExtends(codec, ex, s, s');
    forall k | 0 <= k < |s.runs|
      ensures Knows(codec, s.runs[k].build, s'.store, s.runs[k].next)
    {
      KnowsStays(codec, s.runs[k].build, s.store, s'.store, s.runs[k].next);
    }
    if s.active.Some? {
      KnowsStays(codec, s.active.value, s.store, s'.store, Stopped) by {
        StopKnows(codec, s.active.value, s.store);
      }
    }
    if Starts(codec, ex, s, s') {
      var b := s'.runs[|s.runs|].build;
      StopKnows(codec, b, s.store);
      assert forall k :: 0 <= k < |s.runs| ==> s'.runs[k] == s'.runs[..|s.runs|][k];
    } else if k: nat :| Progresses(codec, s, s', k) {
      RequestKnows(codec, s.runs[k].build, s.store, s.runs[k].next);
      CurrentStays(codec, s.runs[k].build, s.store, s.runs[k].next);
      SwapActivates(codec, s.runs[k].build, s.store, s.runs[k].next);
    } else {
      var k: nat :| Stops(s, s', k);
      StopKnows(codec, s.runs[k].build, s.store);
    }
  }

  lemma StopKnows(codec: Codec, b: Build, store: Store)
    ensures Knows(codec, b, store, Stopped) && Knows(codec, b, store, Check(0, []))
  {
  }

  lemma SwapActivates(codec: Codec, b: Build, store: Store, next: Next)
    requires Knows(codec, b, store, next)
    ensures next.Swap? ==> b.activate
  {
  }

  /** Only a swap changes `current.json`. */
  lemma CurrentStays(codec: Codec, b: Build, store: Store, next: Next)
    ensures !next.Swap? && CurrentUri() in store ==>
      var e := Request(codec, b, store, next); CurrentUri() in e.store && e.store[CurrentUri()] == store[CurrentUri()]
  {
    RequestExtends(codec, b, store, next);
  }

  lemma {:induction false} InvariantHolds(codec: Codec, ex: Executor, trace: seq<System>, i: nat)
    requires Execution(codec, ex, trace) && i < |trace|
    ensures Invariant(codec, ex, trace[i])
  {
    hide Step, Knows, Published, Admitted, CurrentUri;
    if i > 0 {
      InvariantHolds(codec, ex, trace, i - 1);
      assert Step(codec, ex, trace[i - 1], trace[i - 1 + 1]);
      StepKeepsInvariant(codec, ex, trace[i - 1], trace[i]);
    }
  }

  /** A run that has completed has its release stored, and an activation its acceptance, from then on. */
  lemma CompletedIsStored(codec: Codec, ex: Executor, trace: seq<System>, i: nat, k: nat)
    requires Execution(codec, ex, trace) && i < |trace| && k < |trace[i].runs| && trace[i].runs[k].next == Done
    ensures var b := trace[i].runs[k].build;
            Stored(b, trace[i].store, 4) && (b.activate ==> Published(codec, b, trace[i].store))
  {
    hide Step, Stored, Admitted, Published, CurrentUri, ActivePointer;
    InvariantHolds(codec, ex, trace, i);
    assert Knows(codec, trace[i].runs[k].build, trace[i].store, trace[i].runs[k].next);
  }

  // ---------------------------------------------------------------- the main result

  /** The text a URI of the store holds has the given digest. */
  predicate HasDigest(codec: Codec, store: Store, uri: string, sha: string) {
    uri in store && codec.digest(store[uri]) == sha
  }

  /**
   * A production pointer all of whose references can be followed: the manifest is stored with the recorded
   * digest, the three files it lists are stored with their listed digests, and an acceptance is stored
   * with the recorded digest that validates against the manifest.
   */
  predicate Sound(codec: Codec, ex: Executor, store: Store, p: Pointer) {
    && p.status == "production" && p.acceptanceUri.Some? && p.acceptanceSha.Some?
    && HasDigest(codec, store, p.manifestUri, p.manifestSha)
    && HasDigest(codec, store, p.acceptanceUri.value, p.acceptanceSha.value)
    && var m, a := codec.manifest(store[p.manifestUri]), codec.acceptance(store[p.acceptanceUri.value]);
       && m.Some? && a.Some?
       && p.manifestUri == FileUri(m.value.version, "manifest.json")
       && m.value.files.Keys == {"actions.json", "selectors.json", "source-index.json"}
       && (forall name :: name in m.value.files ==>
             HasDigest(codec, store, FileUri(m.value.version, name), m.value.files[name]))
       && ValidAcceptance(ex, a.value, m.value, p.manifestSha)
  }

  lemma PublishedIsSound(codec: Codec, ex: Executor, store: Store, b: Build)
    requires Admitted(codec, ex, b) && b.activate && Published(codec, b, store)
    ensures Sound(codec, ex, store, ActivePointer(codec, b))
  {
    hide FileUri, ValidAcceptance, ValidActions, ValidSelectors, ValidIndex, ValidProfile, LowerHex, VersionText,
        Revision;
    assert FILES[3] == "manifest.json";
    assert Reads(store, Uri(b, 0), TextOf(b.texts, 0));
    assert Reads(store, Uri(b, 1), TextOf(b.texts, 1));
    assert Reads(store, Uri(b, 2), TextOf(b.texts, 2));
    assert Reads(store, Uri(b, 3), TextOf(b.texts, 3));
  }

  /**
   * In every state of every execution: if an activation has written `current.json`, the file decodes to a
   * pointer all of whose references are stored and match.
   */
  lemma CurrentIsAlwaysSound(codec: Codec, ex: Executor, trace: seq<System>, i: nat)
    requires Execution(codec, ex, trace) && i < |trace| && trace[i].active.Some?
    requires var p := ActivePointer(codec, trace[i].active.value); codec.pointer(codec.dump(p)) == Some(p)
    ensures var store := trace[i].store;
            && CurrentUri() in store && codec.pointer(store[CurrentUri()]).Some?
            && Sound(codec, ex, store, codec.pointer(store[CurrentUri()]).value)
  {
    hide Step, Knows, Admitted, Published, Sound, ActivePointer, CurrentUri;
    InvariantHolds(codec, ex, trace, i);
    PublishedIsSound(codec, ex, trace[i].store, trace[i].active.value);
  }
}
