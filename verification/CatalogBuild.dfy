/**
 An executor catalog build: the documents of `build/`, the checks that admit it, and the
 comparison of its source index with the live sources.
 */
module CatalogBuild {
  import opened Base
  import opened Strings

  // ---------------------------------------------------------------- documents

  datatype Profile = Profile(profileId: string, loginomBuild: Option<string>, platform: string, browser: string)

  datatype Manifest = Manifest(
    status: string, schemaVersion: int, capabilityAbi: int, minRevision: string, e2eCommit: string,
    version: string, files: map<string, string>, compatibility: Profile)

  /** `current.json`; the acceptance fields are added when the catalog is activated. */
  datatype Pointer = Pointer(
    status: string, schemaVersion: int, manifestUri: string, version: string, manifestSha: string,
    acceptanceUri: Option<string>, acceptanceSha: Option<string>)

  datatype Evidence = Evidence(commit: string, path: string, sha: string)

  datatype Action = Action(
    key: string, status: string, capability: string, effectKind: string, effectResource: string,
    minRevision: string, selectorSymbols: seq<string>, evidence: seq<Evidence>)

  datatype Selector = Selector(symbol: string, provenance: Evidence)

  datatype Dependency = Dependency(selectors: seq<string>, files: seq<string>)

  datatype Actions = Actions(version: string, e2eCommit: string, actions: seq<Action>)

  datatype Selectors = Selectors(version: string, e2eCommit: string, selectors: seq<Selector>)

  datatype Index = Index(version: string, e2eCommit: string, sourceFiles: map<string, string>,
                         dependencies: map<string, Dependency>)

  datatype Runtime = Runtime(clientRevision: string, playwright: string, chromiumRevision: string,
                             executorRevision: string, capabilityAbi: int)

  datatype Agent = Agent(name: string, provider: string, model: string, reasoningEffort: string)

  datatype Acceptance = Acceptance(
    schemaVersion: int, status: string, manifestSha: string, runtime: Runtime, target: Profile, agent: Agent,
    checks: map<string, bool>, evidenceUri: string, evidenceSha: string, recordedAt: string)

  datatype Documents = Documents(manifest: Manifest, current: Pointer, actions: Actions, selectors: Selectors,
                                 index: Index)

  /** A capability contract and the executor profile of the installation. */
  datatype Contract = Contract(actionKey: string, effectKind: string, effectResource: string)

  datatype Executor = Executor(revision: string, abi: int, capabilities: map<string, Contract>)

  /** The five texts of a build. */
  datatype Texts = Texts(actions: string, selectors: string, index: string, manifest: string, current: string)

  /**
   * What the program takes from elsewhere: SHA-256 as a function on texts, the JSON decoding of each
   * document (`None` for a text that is not a document of that shape), and the encoding of `current.json`.
   */
  datatype Codec = Codec(
    digest: string -> string,
    manifest: string -> Option<Manifest>,
    pointer: string -> Option<Pointer>,
    actions: string -> Option<Actions>,
    selectors: string -> Option<Selectors>,
    index: string -> Option<Index>,
    acceptance: string -> Option<Acceptance>,
    dump: Pointer -> string)

  const ROOT: string := "viking://resources/loginom-dock/catalogs/executor-preview"

  function ReleaseRoot(version: string): string { ROOT + "/releases/" + version }

  function FileUri(version: string, name: string): string { ReleaseRoot(version) + "/" + name }

  function CurrentUri(): string { ROOT + "/current.json" }

  const CHECKS: set<string> := {
    "node_add", "link_create_standard", "link_create_input_add", "package_save_as", "reopen", "negative",
    "ambiguous", "cleanup", "agent_partial_link_recovery", "agent_ui_recovery", "transport_receipt_recovery",
    "node_configure_text_import"
  }

  // ---------------------------------------------------------------- lexical checks

  predicate LowerHex(s: string, n: nat) {
    |s| == n && forall k :: 0 <= k < n ==> '0' <= s[k] <= '9' || 'a' <= s[k] <= 'f'
  }

  predicate NotBlank(s: string) { exists k :: 0 <= k < |s| && !IsSpace(s[k]) }

  predicate VersionText(s: string) {
    s != "" && forall k :: 0 <= k < |s| ==>
      '0' <= s[k] <= '9' || 'A' <= s[k] <= 'Z' || 'a' <= s[k] <= 'z' || s[k] == '.' || s[k] == '+' || s[k] == '-'
  }

  predicate Timestamp(s: string) {
    |s| == 20 && forall k :: 0 <= k < 20 ==>
      if k == 4 || k == 7 then s[k] == '-'
      else if k == 10 then s[k] == 'T'
      else if k == 13 || k == 16 then s[k] == ':'
      else if k == 19 then s[k] == 'Z'
      else Member(s[k], Digit)
  }

  const MAX_COMPONENT: nat := 9007199254740991

  function DigitValue(c: char): nat
    requires Member(c, Digit)
  {
    (c - '0') as nat
  }

  function Numeral(s: string): nat
    requires forall k :: 0 <= k < |s| ==> Member(s[k], Digit)
  {
    if s == "" then 0 else 10 * Numeral(s[..|s| - 1]) + DigitValue(s[|s| - 1])
  }

  predicate Digits(s: string) { s != "" && forall k :: 0 <= k < |s| ==> Member(s[k], Digit) }

  /** `revision_tuple`: three numerals, none too large; `None` for anything else. */
  function Revision(s: string): Option<seq<nat>> {
    var parts := Split(s, '.');
    if |parts| == 3 && (forall k :: 0 <= k < 3 ==> Digits(parts[k]) && Numeral(parts[k]) <= MAX_COMPONENT)
    then Some([Numeral(parts[0]), Numeral(parts[1]), Numeral(parts[2])])
    else None
  }

  /** Lexicographic order of equally long tuples. */
  predicate AtMost(a: seq<nat>, b: seq<nat>) {
    |a| == 0 || |b| == 0 || a[0] < b[0] || (a[0] == b[0] && AtMost(a[1..], b[1..]))
  }

  // ---------------------------------------------------------------- validation

  predicate ValidAcceptance(ex: Executor, a: Acceptance, m: Manifest, manifestSha: string) {
    && a.schemaVersion == 1 && a.status == "PASSED" && a.manifestSha == manifestSha
    && m.compatibility.loginomBuild.Some? && NotBlank(m.compatibility.loginomBuild.value)
    && a.target == m.compatibility
    && LowerHex(a.runtime.clientRevision, 64) && NotBlank(a.runtime.playwright) && NotBlank(a.runtime.chromiumRevision)
    && a.runtime.executorRevision == ex.revision && a.runtime.capabilityAbi == ex.abi
    && a.agent == Agent("hermes", "openai-codex", "gpt-5.6-sol", "low")
    && a.checks.Keys == CHECKS && (forall k :: k in CHECKS ==> a.checks[k])
    && NotBlank(a.evidenceUri) && LowerHex(a.evidenceSha, 64) && Timestamp(a.recordedAt)
  }

  function Load(codec: Codec, t: Texts): Option<Documents> {
    var m, c, a, s, i := codec.manifest(t.manifest), codec.pointer(t.current), codec.actions(t.actions),
                         codec.selectors(t.selectors), codec.index(t.index);
    if m.Some? && c.Some? && a.Some? && s.Some? && i.Some?
    then Some(Documents(m.value, c.value, a.value, s.value, i.value))
    else None
  }

  predicate ValidIdentity(codec: Codec, ex: Executor, t: Texts, d: Documents) {
    var m, c := d.manifest, d.current;
    && m.status == "candidate" && c.status == "candidate" && m.schemaVersion == 1 && c.schemaVersion == 1
    && m.capabilityAbi == ex.abi
    && Revision(m.minRevision).Some? && Revision(ex.revision).Some?
    && AtMost(Revision(m.minRevision).value, Revision(ex.revision).value)
    && LowerHex(m.e2eCommit, 40) && VersionText(m.version)
    && c.manifestUri == FileUri(m.version, "manifest.json") && c.version == m.version
    && c.manifestSha == codec.digest(t.manifest)
    && m.files == map["actions.json" := codec.digest(t.actions), "selectors.json" := codec.digest(t.selectors),
                      "source-index.json" := codec.digest(t.index)]
    && d.actions.version == m.version && d.actions.e2eCommit == m.e2eCommit
    && d.selectors.version == m.version && d.selectors.e2eCommit == m.e2eCommit
    && d.index.version == m.version && d.index.e2eCommit == m.e2eCommit
  }

  predicate ValidProfile(p: Profile) {
    && NotBlank(p.profileId) && (p.platform == "macos" || p.platform == "linux" || p.platform == "windows")
    && p.browser == "chromium" && (p.loginomBuild.Some? ==> NotBlank(p.loginomBuild.value))
  }

  /** The manifest asks for the greatest revision that one of its actions asks for. */
  predicate ValidRevisions(m: Manifest, actions: seq<Action>) {
    && (forall k :: 0 <= k < |actions| ==> Revision(actions[k].minRevision).Some?)
    && Revision(m.minRevision).Some?
    && (forall k :: 0 <= k < |actions| ==> AtMost(Revision(actions[k].minRevision).value,
        Revision(m.minRevision).value))
    && (exists k :: 0 <= k < |actions| && Revision(actions[k].minRevision) == Revision(m.minRevision))
  }

  predicate ValidContract(ex: Executor, a: Action) {
    && a.capability in ex.capabilities
    && a.key == ex.capabilities[a.capability].actionKey
    && a.effectKind == ex.capabilities[a.capability].effectKind
    && a.effectResource == ex.capabilities[a.capability].effectResource
  }

  function Keys(actions: seq<Action>): set<string> { set k | 0 <= k < |actions| :: actions[k].key }

  /** Evidence names the catalog's commit and the digest the source index records. */
  predicate Sourced(d: Documents, e: Evidence) {
    && e.commit == d.manifest.e2eCommit
    && e.path in d.index.sourceFiles && d.index.sourceFiles[e.path] == e.sha
  }

  /** `evidence` is evidence of the action: its own, or that of a selector it uses. */
  ghost predicate EvidenceOf(d: Documents, a: Action, e: Evidence) {
    e in a.evidence
    || exists s :: s in d.selectors.selectors && s.symbol in a.selectorSymbols && s.provenance == e
  }

  predicate ValidAction(d: Documents, activate: bool, a: Action) {
    && (a.status == "candidate" || (!activate && a.status == "stale"))
    && a.key in d.index.dependencies
    && var dep := d.index.dependencies[a.key];
       && (set s | s in dep.selectors) == (set s | s in a.selectorSymbols)
       && (forall p :: p in dep.files ==> p in d.index.sourceFiles)
       && (forall s :: s in a.selectorSymbols ==> exists x :: x in d.selectors.selectors && x.symbol == s)
       && (forall e :: e in a.evidence ==> Sourced(d, e) && e.path in dep.files)
       && (forall x :: x in d.selectors.selectors && x.symbol in a.selectorSymbols ==>
             Sourced(d, x.provenance) && x.provenance.path in dep.files)
  }

  predicate ValidSelectors(d: Documents) {
    var ss := d.selectors.selectors;
    && ss != [] && (forall i, j :: 0 <= i < j < |ss| ==> ss[i].symbol != ss[j].symbol)
    && (forall s :: s in ss ==> Sourced(d, s.provenance))
  }

  predicate ValidIndex(d: Documents) {
    && (forall p :: p in d.index.sourceFiles ==> NotBlank(p) && LowerHex(d.index.sourceFiles[p], 64))
    && d.index.dependencies.Keys == Keys(d.actions.actions)
  }

  predicate ValidActions(ex: Executor, d: Documents, activate: bool) {
    var as_ := d.actions.actions;
    && as_ != [] && (forall i, j :: 0 <= i < j < |as_| ==> as_[i].key != as_[j].key)
    && ValidRevisions(d.manifest, as_)
    && (activate ==> Keys(as_) == set c | c in ex.capabilities :: ex.capabilities[c].actionKey)
    && (forall a :: a in as_ ==> ValidContract(ex, a) && ValidAction(d, activate, a))
  }

  /** `validate_build`. The acceptance text is looked at only for an activation. */
  predicate ValidBuild(codec: Codec, ex: Executor, t: Texts, activate: bool, acceptanceText: string) {
    var docs := Load(codec, t);
    && docs.Some?
    && var d := docs.value;
       && ValidIdentity(codec, ex, t, d) && ValidProfile(d.manifest.compatibility)
       && ValidActions(ex, d, activate) && ValidSelectors(d) && ValidIndex(d)
       && (activate ==>
             var a := codec.acceptance(acceptanceText);
             a.Some? && ValidAcceptance(ex, a.value, d.manifest, d.current.manifestSha))
  }

  // ---------------------------------------------------------------- live sources

  /** The paths of the source index whose live digest is missing or different. */
  function Changed(index: Index, live: map<string, string>): set<string> {
    set p | p in index.sourceFiles && (p !in live || live[p] != index.sourceFiles[p])
  }

  /** The actions with a changed file among their dependencies. */
  function Affected(index: Index, live: map<string, string>): set<string> {
    set key | key in index.dependencies
              && exists p :: p in index.dependencies[key].files && p in Changed(index, live)
  }

  /** How the comparison with the live sources ends: two ways to stop, of which one reports actions, and going on. */
  datatype LiveCheck = CommitDiffers | SourcesChanged(affected: set<string>) | Goes

  /** The commits are compared first; the affected actions are worked out only if they agree. */
  function CheckLive(d: Documents, liveCommit: string, live: map<string, string>): LiveCheck {
    if liveCommit != d.manifest.e2eCommit then CommitDiffers
    else if Changed(d.index, live) != {} then SourcesChanged(Affected(d.index, live))
    else Goes
  }

  /** Publication goes on exactly when the commits agree and every indexed file is live with its indexed digest. */
  lemma GoesExactly(d: Documents, liveCommit: string, live: map<string, string>)
    ensures CheckLive(d, liveCommit, live) == Goes
       <==> && liveCommit == d.manifest.e2eCommit
            && forall p :: p in d.index.sourceFiles ==> p in live && live[p] == d.index.sourceFiles[p]
    ensures CheckLive(d, liveCommit, live) == CommitDiffers <==> liveCommit != d.manifest.e2eCommit
  {
    if Changed(d.index, live) == {} {
      forall p | p in d.index.sourceFiles
        ensures p in live && live[p] == d.index.sourceFiles[p]
      {
        assert p !in Changed(d.index, live);
      }
    } else {
      var p :| p in Changed(d.index, live);
      assert p in d.index.sourceFiles;
    }
  }

  /** Evidence of an action of a valid build is among the files its dependency entry names. */
  lemma EvidenceIsDependency(codec: Codec, ex: Executor, t: Texts, activate: bool, text: string, a: Action, e: Evidence)
    requires ValidBuild(codec, ex, t, activate, text)
    requires var d := Load(codec, t).value; a in d.actions.actions && EvidenceOf(d, a, e)
    ensures var d := Load(codec, t).value;
            && a.key in d.index.dependencies && e.path in d.index.dependencies[a.key].files
            && e.path in d.index.sourceFiles && d.index.sourceFiles[e.path] == e.sha
  {
    hide ValidIdentity, ValidProfile, ValidAcceptance, ValidRevisions, ValidContract, Load;
    var d := Load(codec, t).value;
    assert ValidAction(d, activate, a);
    if e !in a.evidence {
      var s :| s in d.selectors.selectors && s.symbol in a.selectorSymbols && s.provenance == e;
    }
  }

  /**
   * For every valid build: if some evidence of an action, or of a selector it uses, is not live, publication
   * stops, and the report names the action exactly when the live commit is the catalog's. If publication goes on,
   * all evidence is live.
   */
  lemma StaleEvidenceStops(codec: Codec, ex: Executor, t: Texts, activate: bool, text: string,
                           liveCommit: string, live: map<string, string>, a: Action, e: Evidence)
    requires ValidBuild(codec, ex, t, activate, text)
    requires var d := Load(codec, t).value; a in d.actions.actions && EvidenceOf(d, a, e)
    ensures var d := Load(codec, t).value;
            var result := CheckLive(d, liveCommit, live);
            && (!(e.path in live && live[e.path] == e.sha) ==>
                  && result != Goes
                  && (result.SourcesChanged? && a.key in result.affected <==> liveCommit == d.manifest.e2eCommit))
            && (result == Goes ==> e.path in live && live[e.path] == e.sha)
  {
    hide ValidIdentity, ValidProfile, ValidActions, ValidSelectors, ValidIndex, ValidAcceptance, Load, EvidenceOf;
    var d := Load(codec, t).value;
    EvidenceIsDependency(codec, ex, t, activate, text, a, e);
    if !(e.path in live && live[e.path] == e.sha) {
      assert e.path in Changed(d.index, live);
    }
  }

  /**
   * For every valid build: every action that is reported exists and depends on a file that is not live as indexed,
   * and of an action that is not reported, although there is a report, all evidence is live.
   */
  lemma ReportIsExact(codec: Codec, ex: Executor, t: Texts, activate: bool, text: string,
                      liveCommit: string, live: map<string, string>, key: string)
    requires ValidBuild(codec, ex, t, activate, text)
    requires CheckLive(Load(codec, t).value, liveCommit, live).SourcesChanged?
    ensures var d := Load(codec, t).value;
            var reported := CheckLive(d, liveCommit, live).affected;
            && (key in reported ==>
                  exists a, p ::
                    && a in d.actions.actions && a.key == key && key in d.index.dependencies
                    && p in d.index.dependencies[key].files && p in d.index.sourceFiles
                    && (p !in live || live[p] != d.index.sourceFiles[p]))
            && (key !in reported ==>
                  forall a, e :: a in d.actions.actions && a.key == key && EvidenceOf(d, a, e) ==>
                    e.path in live && live[e.path] == e.sha)
  {
    hide ValidIdentity, ValidProfile, ValidActions, ValidSelectors, ValidAcceptance, Load, EvidenceOf;
    var d := Load(codec, t).value;
    var reported := CheckLive(d, liveCommit, live).affected;
    if key in reported {
      assert key in Keys(d.actions.actions);
      var k :| 0 <= k < |d.actions.actions| && d.actions.actions[k].key == key;
      var p :| p in d.index.dependencies[key].files && p in Changed(d.index, live);
      assert d.actions.actions[k] in d.actions.actions;
    } else {
      forall a, e | a in d.actions.actions && a.key == key && EvidenceOf(d, a, e)
        ensures e.path in live && live[e.path] == e.sha
      {
        StaleEvidenceStops(codec, ex, t, activate, text, liveCommit, live, a, e);
      }
    }
  }

  // ---------------------------------------------------------------- revisions

  lemma {:induction false} NumeralOfDecimal(n: nat)
    ensures Numeral(Decimal(n)) == n
  {
    var s := Decimal(n);
    if n >= 10 {
      NumeralOfDecimal(n / 10);
      assert s[..|s| - 1] == Decimal(n / 10);
    } else {
      assert s[..|s| - 1] == "";
    }
    DigitOf(n % 10);
  }

  lemma DigitOf(n: nat)
    requires n < 10
    ensures Member(DIGITS[n], Digit) && DigitValue(DIGITS[n]) == n
  {
  }

  /** Written out with dots, a triple of numbers is read back exactly when none is too large. */
  lemma RevisionRoundTrip(a: nat, b: nat, c: nat)
    ensures var s := Join([Decimal(a), Decimal(b), Decimal(c)], '.');
            Revision(s) == if a <= MAX_COMPONENT && b <= MAX_COMPONENT
                && c <= MAX_COMPONENT then Some([a, b, c]) else None
  {
    var parts := [Decimal(a), Decimal(b), Decimal(c)];
    NumeralOfDecimal(a);
    NumeralOfDecimal(b);
    NumeralOfDecimal(c);
    NoDot(a);
    NoDot(b);
    NoDot(c);
    SplitJoin(parts, '.');
    assert parts[0] == Decimal(a) && parts[1] == Decimal(b) && parts[2] == Decimal(c);
  }

  lemma NoDot(n: nat)
    ensures '.' !in Decimal(n)
  {
  }
}
