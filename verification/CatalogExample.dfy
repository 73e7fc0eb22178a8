/** A smallest catalog that is admitted, staged into an empty store and activated: the checks can be met. */
module CatalogExample {
  import opened Base
  import opened Strings
  import opened CatalogBuild
  import opened CatalogPublication
  import opened CatalogRerun

  function Letters(n: nat): string { seq(n, _ => 'a') }

  const REVISION: string := Join([Decimal(0), Decimal(0), Decimal(0)], '.')
  const SHA: string := Letters(64)
  const COMMIT: string := Letters(40)
  const EVIDENCE: Evidence := Evidence(COMMIT, "e2e", SHA)
  const ACTION: Action := Action("add", "candidate", "node", "create", "node", REVISION, ["button"], [EVIDENCE])
  const EXECUTOR: Executor := Executor(REVISION, 1, map["node" := Contract("add", "create", "node")])
  const PROFILE: Profile := Profile("p", Some("7"), "linux", "chromium")

  const MANIFEST: Manifest := Manifest(
    "candidate", 1, 1, REVISION, COMMIT, "1",
    map["actions.json" := SHA, "selectors.json" := SHA, "source-index.json" := SHA], PROFILE)

  const CURRENT: Pointer := Pointer("candidate", 1, FileUri("1", "manifest.json"), "1", SHA, None, None)

  /** What the activation makes of it. */
  const ACTIVE: Pointer := CURRENT.(
    status := "production", acceptanceUri := Some(FileUri("1", "acceptance/" + SHA + ".json")),
        acceptanceSha := Some(SHA))

  const INDEX: Index := Index("1", COMMIT, map["e2e" := SHA], map["add" := Dependency(["button"], ["e2e"])])

  const ACCEPTANCE: Acceptance := Acceptance(
    1, "PASSED", SHA, Runtime(SHA, "1", "1", REVISION, 1), PROFILE, Agent("hermes", "openai-codex", "gpt-5.6-sol",
        "low"),
    map k | k in CHECKS :: true, "u", SHA, "2026-01-01T00:00:00Z")

  const CODEC: Codec := Codec(
    (s: string) => SHA, (s: string) => Some(MANIFEST), (s: string) => Some(if s == "current" then ACTIVE else CURRENT),
    (s: string) => Some(Actions("1", COMMIT, [ACTION])),
    (s: string) => Some(Selectors("1", COMMIT, [Selector("button", EVIDENCE)])),
    (s: string) => Some(INDEX), (s: string) => Some(ACCEPTANCE), (p: Pointer) => "current")

  function Example(activate: bool): Build { Build(Texts("a", "s", "i", "m", "c"), "1", CURRENT, activate, "accepted") }

  lemma RevisionIs()
    ensures Revision(REVISION) == Some([0, 0, 0])
  {
    RevisionRoundTrip(0, 0, 0);
  }

  lemma HexOf(n: nat)
    ensures LowerHex(Letters(n), n)
  {
  }

  lemma Visible(s: string)
    requires s != "" && '0' <= s[0] <= 'z'
    ensures NotBlank(s)
  {
  }

  lemma TimeIs()
    ensures Timestamp("2026-01-01T00:00:00Z")
  {
  }

  lemma AcceptanceIsValid()
    ensures ValidAcceptance(EXECUTOR, ACCEPTANCE, MANIFEST, SHA)
  {
    hide LowerHex, NotBlank, Timestamp;
    HexOf(64);
    TimeIs();
    Visible("7");
    Visible("1");
    Visible("u");
  }

  const DOCUMENTS: Documents := Documents(
    MANIFEST, CURRENT, Actions("1", COMMIT, [ACTION]), Selectors("1", COMMIT, [Selector("button", EVIDENCE)]), INDEX)

  lemma LoadIs(activate: bool)
    ensures Load(CODEC, Example(activate).texts) == Some(DOCUMENTS)
  {
    assert "c" != "current" by { assert |"c"| != |"current"|; }
  }

  lemma IdentityIsValid(t: Texts)
    ensures ValidIdentity(CODEC, EXECUTOR, t, DOCUMENTS)
  {
    hide LowerHex, Revision, FileUri;
    HexOf(40);
    RevisionIs();
    assert AtMost([0, 0, 0], [0, 0, 0]) by {
      assert [0, 0, 0][1..] == [0, 0] && [0, 0][1..] == [0] && [0][1..] == [];
    }
  }

  lemma SelectorsAreValid()
    ensures ValidSelectors(DOCUMENTS) && ValidIndex(DOCUMENTS)
  {
    hide LowerHex, NotBlank;
    HexOf(64);
    Visible("e2e");
    assert DOCUMENTS.actions.actions[0] == ACTION;
  }

  lemma ActionIsValid(activate: bool)
    ensures ValidContract(EXECUTOR, ACTION) && ValidAction(DOCUMENTS, activate, ACTION)
  {
    hide Letters;
    assert DOCUMENTS.selectors.selectors[0] == Selector("button", EVIDENCE);
  }

  lemma ActionsAreValid(activate: bool)
    ensures ValidActions(EXECUTOR, DOCUMENTS, activate)
  {
    hide Revision, ValidContract, ValidAction;
    RevisionIs();
    ActionIsValid(activate);
    assert AtMost([0, 0, 0], [0, 0, 0]) by {
      assert [0, 0, 0][1..] == [0, 0] && [0, 0][1..] == [0] && [0][1..] == [];
    }
    assert DOCUMENTS.actions.actions[0] == ACTION;
    assert EXECUTOR.capabilities["node"].actionKey == "add";
  }

  /** The example is admitted for staging and for activation. */
  lemma ExampleIsAdmitted(activate: bool)
    ensures Admitted(CODEC, EXECUTOR, Example(activate))
  {
    hide ValidIdentity, ValidActions, ValidSelectors, ValidIndex, ValidAcceptance, NotBlank, Load;
    LoadIs(activate);
    IdentityIsValid(Example(activate).texts);
    ActionsAreValid(activate);
    SelectorsAreValid();
    AcceptanceIsValid();
    Visible("p");
    Visible("7");
  }

  /** From the empty store it is staged and then activated. */
  lemma ExampleIsPublished()
    ensures var staged := RunAlone(CODEC, Example(false), map[]);
            var active := RunAlone(CODEC, Example(true), staged.store);
            staged.next == Done && active.next == Done && CurrentUri() in active.store
  {
    hide Finish, RunAlone, Uri, TextOf, Release, FileUri, CurrentUri, ActivePointer;
    var b, c := Example(false), Example(true);
    StageAlone(CODEC, b, map[]);
    var store := map[] + Release(b);
    forall i | 0 <= i < 4
      ensures Reads(store, Uri(c, i), TextOf(c.texts, i))
    {
      ReleaseHolds(b, i);
      SameNames(i);
    }
    AcceptanceIsMissing();
    ActivateAlone(CODEC, c, store);
  }

  /** So there is an execution that ends with the example active, and its `current.json` is sound. */
  lemma ExampleIsSound() returns (trace: seq<System>)
    ensures Execution(CODEC, EXECUTOR, trace)
    ensures var s := trace[|trace| - 1];
            && Active(s, Example(true)) && CurrentUri() in s.store
            && CODEC.pointer(s.store[CurrentUri()]) == Some(ACTIVE) && Sound(CODEC, EXECUTOR, s.store, ACTIVE)
  {
    hide Finish, RunAlone, Admitted, Step, Sound, CurrentUri, FileUri;
    ExampleIsAdmitted(false);
    ExampleIsAdmitted(true);
    ExampleIsPublished();
    trace := [System(map[], [], None)];
    assert Initial(trace[0]);
    trace := AloneIsExecution(CODEC, EXECUTOR, trace, Example(false));
    trace := AloneIsExecution(CODEC, EXECUTOR, trace, Example(true));
    var i := |trace| - 1;
    assert ActivePointer(CODEC, Example(true)) == ACTIVE;
    CurrentIsAlwaysSound(CODEC, EXECUTOR, trace, i);
    CurrentIsActive(trace, i);
  }

  lemma CurrentIsActive(trace: seq<System>, i: nat)
    requires Execution(CODEC, EXECUTOR, trace) && i < |trace| && Active(trace[i], Example(true))
    ensures CurrentUri() in trace[i].store && CODEC.pointer(trace[i].store[CurrentUri()]) == Some(ACTIVE)
  {
    hide Step, Admitted, CurrentUri, FileUri, Published;
    InvariantHolds(CODEC, EXECUTOR, trace, i);
  }

  lemma SameNames(i: nat)
    requires i < 4
    ensures Uri(Example(true), i) == Uri(Example(false), i)
  {
  }

  lemma AcceptanceIsMissing()
    ensures AcceptanceUri(CODEC, Example(true)) !in Release(Example(false))
  {
    hide Uri, FileUri, AcceptanceUri;
    var u := AcceptanceUri(CODEC, Example(true));
    forall i: nat | i < 4
      ensures u != Uri(Example(false), i)
    {
      AcceptanceIsApart(CODEC, Example(true), Example(false), i);
    }
    ReleaseAt(Example(false), u);
  }

  // ---------------------------------------------------------------- the report

  const NO_FILES: map<string, string> := map[]

  /**
   * With no live file the example's action is stale. It is reported if the live commit is the catalog's; if the
   * commit differs, publication stops before any action is reported.
   */
  lemma DifferingCommitReportsNothing(liveCommit: string)
    requires liveCommit != COMMIT
    ensures ValidBuild(CODEC, EXECUTOR, Example(true).texts, true, "accepted")
    ensures Load(CODEC, Example(true).texts) == Some(DOCUMENTS)
    ensures ACTION in DOCUMENTS.actions.actions && EvidenceOf(DOCUMENTS, ACTION, EVIDENCE)
    ensures EVIDENCE.path !in NO_FILES
    ensures CheckLive(DOCUMENTS, liveCommit, NO_FILES) == CommitDiffers
    ensures CheckLive(DOCUMENTS, COMMIT, NO_FILES) == SourcesChanged({"add"})
  {
    hide ValidIdentity, ValidActions, ValidSelectors, ValidIndex, ValidAcceptance, ValidProfile, Letters;
    ExampleIsAdmitted(true);
    LoadIs(true);
    hide Load, ValidBuild;
    assert DOCUMENTS.actions.actions[0] == ACTION;
    assert Changed(INDEX, NO_FILES) == {"e2e"};
    assert Affected(INDEX, NO_FILES) == {"add"};
  }
}
