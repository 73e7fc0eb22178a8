/**
 The validation of a build as the program runs it, check by check and loop by loop, proved to accept exactly the
 valid builds.
 */
module CatalogValidation {
  import opened Base
  import opened Strings
  import opened CatalogBuild
  import opened CatalogPublication
  import opened CatalogMeaning

  /** The comparison of tuples of numbers. */
  predicate TupleAtMost(a: seq<nat>, b: seq<nat>)
    requires |a| == |b| == 3
  {
    a[0] < b[0] || (a[0] == b[0] && (a[1] < b[1] || (a[1] == b[1] && a[2] <= b[2])))
  }

  predicate Hex(s: string, n: nat) { |s| == n && OnlyOf(s, LOWER_HEX) }

  predicate Present(s: string) { Strip(s, Blank) != "" }

  lemma FormsAgree(s: string, n: nat)
    ensures Hex(s, n) == LowerHex(s, n) && Present(s) == NotBlank(s)
  {
    hide OnlyOf, Strip, LowerHex, NotBlank;
    HexExactly(s, n);
    NotBlankExactly(s);
  }

  /** `validate_acceptance`. */
  method ValidateAcceptance(ex: Executor, a: Acceptance, m: Manifest, manifestSha: string) returns (ok: bool)
    ensures ok <==> ValidAcceptance(ex, a, m, manifestSha)
  {
    hide OnlyOf, Strip, LowerHex, NotBlank, ValidAcceptance;
    AcceptanceExactly(ex, a, m, manifestSha);
    if a.schemaVersion != 1 || a.status != "PASSED" {
      return false;
    }
    if a.manifestSha != manifestSha {
      return false;
    }
    var profile := m.compatibility;
    if profile.loginomBuild.None? || !Present(profile.loginomBuild.value) {
      return false;
    }
    if a.target != profile {
      return false;
    }
    if !Hex(a.runtime.clientRevision, 64) || !Present(a.runtime.playwright) || !Present(a.runtime.chromiumRevision) {
      return false;
    }
    if a.runtime.executorRevision != ex.revision || a.runtime.capabilityAbi != ex.abi {
      return false;
    }
    if a.agent != Agent("hermes", "openai-codex", "gpt-5.6-sol", "low") {
      return false;
    }
    if !(forall k :: k in a.checks ==> k in CHECK_NAMES) {
      return false;
    }
    for i := 0 to |CHECK_NAMES|
      invariant forall j :: 0 <= j < i ==> CHECK_NAMES[j] in a.checks && a.checks[CHECK_NAMES[j]]
    {
      if CHECK_NAMES[i] !in a.checks || !a.checks[CHECK_NAMES[i]] {
        return false;
      }
    }
    ok := Present(a.evidenceUri) && Hex(a.evidenceSha, 64) && Timestamp(a.recordedAt);
  }

  /** Not empty, and no key twice: as many different keys as actions. */
  method DistinctKeys(actions: seq<Action>) returns (ok: bool)
    ensures ok <==> actions != [] && forall i, j :: 0 <= i < j < |actions| ==> actions[i].key != actions[j].key
  {
    var seen: set<string> := {};
    for i := 0 to |actions|
      invariant seen == set k | 0 <= k < i :: actions[k].key
      invariant forall k, j :: 0 <= k < j < i ==> actions[k].key != actions[j].key
    {
      if actions[i].key in seen {
        return false;
      }
      seen := seen + {actions[i].key};
    }
    ok := actions != [];
  }

  method DistinctSymbols(selectors: seq<Selector>) returns (ok: bool)
    ensures ok <==> selectors != []
                    && forall i, j :: 0 <= i < j < |selectors| ==> selectors[i].symbol != selectors[j].symbol
  {
    var seen: set<string> := {};
    for i := 0 to |selectors|
      invariant seen == set k | 0 <= k < i :: selectors[k].symbol
      invariant forall k, j :: 0 <= k < j < i ==> selectors[k].symbol != selectors[j].symbol
    {
      if selectors[i].symbol in seen {
        return false;
      }
      seen := seen + {selectors[i].symbol};
    }
    ok := selectors != [];
  }

  lemma RevisionLength(s: string)
    requires Revision(s).Some?
    ensures |Revision(s).value| == 3
  {
    hide Numeral, Digits;
  }

  /** The greatest revision that an action asks for; `None` if one of them is no revision. */
  method GreatestRevision(actions: seq<Action>) returns (best: Option<seq<nat>>)
    requires actions != []
    ensures best.Some? <==> forall k :: 0 <= k < |actions| ==> Revision(actions[k].minRevision).Some?
    ensures best.Some? ==>
              && |best.value| == 3 && (exists k :: 0 <= k < |actions| && Revision(actions[k].minRevision) == best)
              && forall k :: 0 <= k < |actions| ==>
                   && |Revision(actions[k].minRevision).value| == 3
                   && TupleAtMost(Revision(actions[k].minRevision).value, best.value)
  {
    hide Revision;
    best := Revision(actions[0].minRevision);
    if best.None? {
      return;
    }
    RevisionLength(actions[0].minRevision);
    for i := 1 to |actions|
      invariant best.Some? && |best.value| == 3
      invariant exists k :: 0 <= k < i && Revision(actions[k].minRevision) == best
      invariant forall k :: 0 <= k < i ==>
                  && Revision(actions[k].minRevision).Some? && |Revision(actions[k].minRevision).value| == 3
                  && TupleAtMost(Revision(actions[k].minRevision).value, best.value)
    {
      var r := Revision(actions[i].minRevision);
      if r.None? {
        return None;
      }
      RevisionLength(actions[i].minRevision);
      if !TupleAtMost(r.value, best.value) {
        best := r;
      }
    }
  }

  // ---------------------------------------------------------------- the build

  /** The URIs of releases, written out. */
  lemma ReleaseUri(version: string, name: string)
    ensures FileUri(version, name)
         == "viking://resources/loginom-dock/catalogs/executor-preview/releases/" + version + "/" + name
    ensures CurrentUri() == "viking://resources/loginom-dock/catalogs/executor-preview/current.json"
  {
    assert ROOT + "/releases/" == "viking://resources/loginom-dock/catalogs/executor-preview/releases/";
  }

  /** Status, schema, executor, commit, version and digests. */
  method CheckIdentity(codec: Codec, ex: Executor, t: Texts, d: Documents) returns (ok: bool)
    ensures ok <==> ValidIdentity(codec, ex, t, d)
  {
    hide Revision, AtMost, LowerHex, OnlyOf, VersionText, Strip, NotBlank, FileUri;
    var m, c := d.manifest, d.current;
    if m.status != "candidate" || c.status != "candidate" || m.schemaVersion != 1 || c.schemaVersion != 1 {
      return false;
    }
    var least, own := Revision(m.minRevision), Revision(ex.revision);
    if m.capabilityAbi != ex.abi || least.None? || own.None? {
      return false;
    }
    RevisionLength(m.minRevision);
    RevisionLength(ex.revision);
    AtMostExactly(least.value, own.value);
    if !TupleAtMost(least.value, own.value) {
      return false;
    }
    FormsAgree(m.e2eCommit, 40);
    if !Hex(m.e2eCommit, 40) || !VersionText(m.version) {
      return false;
    }
    ReleaseUri(m.version, "manifest.json");
    var root := "viking://resources/loginom-dock/catalogs/executor-preview/releases/";
    if c.manifestUri != root + m.version + "/" + "manifest.json" || c.version != m.version
       || c.manifestSha != codec.digest(t.manifest) {
      return false;
    }
    ok := CheckFiles(codec, t, d);
  }

  /** The file set of the manifest, and digest and identity of each file. */
  method CheckFiles(codec: Codec, t: Texts, d: Documents) returns (ok: bool)
    ensures ok <==>
            && d.manifest.files == map["actions.json" := codec.digest(t.actions),
                                       "selectors.json" := codec.digest(t.selectors),
                                       "source-index.json" := codec.digest(t.index)]
            && d.actions.version == d.manifest.version && d.actions.e2eCommit == d.manifest.e2eCommit
            && d.selectors.version == d.manifest.version && d.selectors.e2eCommit == d.manifest.e2eCommit
            && d.index.version == d.manifest.version && d.index.e2eCommit == d.manifest.e2eCommit
  {
    var m := d.manifest;
    var names := ["actions.json", "selectors.json", "source-index.json"];
    var digests := [codec.digest(t.actions), codec.digest(t.selectors), codec.digest(t.index)];
    var marks := [(d.actions.version, d.actions.e2eCommit), (d.selectors.version, d.selectors.e2eCommit),
                  (d.index.version, d.index.e2eCommit)];
    if m.files.Keys != {names[0], names[1], names[2]} {
      return false;
    }
    for i := 0 to 3
      invariant forall j :: 0 <= j < i ==> m.files[names[j]] == digests[j] && marks[j] == (m.version, m.e2eCommit)
    {
      if m.files[names[i]] != digests[i] || marks[i] != (m.version, m.e2eCommit) {
        return false;
      }
    }
    ok := true;
  }

  method CheckProfile(p: Profile) returns (ok: bool)
    ensures ok <==> ValidProfile(p)
  {
    hide Strip, NotBlank, OnlyOf, LowerHex;
    FormsAgree(p.profileId, 0);
    if p.loginomBuild.Some? {
      FormsAgree(p.loginomBuild.value, 0);
    }
    if !Present(p.profileId) || p.platform !in ["macos", "linux", "windows"] || p.browser != "chromium" {
      return false;
    }
    ok := p.loginomBuild == None || Present(p.loginomBuild.value);
  }

  /** The greatest revision of the actions is the manifest's. */
  method CheckRevisions(m: Manifest, actions: seq<Action>) returns (ok: bool)
    requires actions != [] && Revision(m.minRevision).Some?
    ensures ok <==> ValidRevisions(m, actions)
  {
    hide Revision, AtMost, TupleAtMost;
    var best := GreatestRevision(actions);
    RevisionLength(m.minRevision);
    forall k | 0 <= k < |actions| && Revision(actions[k].minRevision).Some?
      ensures |Revision(actions[k].minRevision).value| == 3
      ensures AtMost(Revision(actions[k].minRevision).value, Revision(m.minRevision).value)
           == TupleAtMost(Revision(actions[k].minRevision).value, Revision(m.minRevision).value)
    {
      RevisionLength(actions[k].minRevision);
      TuplesAgree(Revision(actions[k].minRevision).value, Revision(m.minRevision).value);
    }
    ok := best.Some? && best == Revision(m.minRevision);
    if best.Some? && ValidRevisions(m, actions) {
      var k :| 0 <= k < |actions| && Revision(actions[k].minRevision) == Revision(m.minRevision);
      var l :| 0 <= l < |actions| && Revision(actions[l].minRevision) == best;
      TuplesAgree(Revision(m.minRevision).value, best.value);
      AtMostIsTotal(Revision(m.minRevision).value, best.value);
      TuplesAgree(best.value, Revision(m.minRevision).value);
    }
  }

  lemma TuplesAgree(a: seq<nat>, b: seq<nat>)
    requires |a| == |b| == 3
    ensures AtMost(a, b) == TupleAtMost(a, b)
  {
    hide AtMost;
    AtMostExactly(a, b);
  }

  /** Evidence names the commit, and the digest that the index has for its path. */
  predicate Traced(d: Documents, e: Evidence) {
    e.commit == d.manifest.e2eCommit && e.path in d.index.sourceFiles && d.index.sourceFiles[e.path] == e.sha
  }

  method CheckSelectors(d: Documents) returns (ok: bool)
    ensures ok <==> ValidSelectors(d)
  {
    var ss := d.selectors.selectors;
    ok := DistinctSymbols(ss);
    if ok {
      for i := 0 to |ss|
        invariant forall j :: 0 <= j < i ==> Traced(d, ss[j].provenance)
      {
        if !Traced(d, ss[i].provenance) {
          return false;
        }
      }
    }
  }

  method CheckIndex(d: Documents) returns (ok: bool)
    ensures ok <==> ValidIndex(d)
  {
    hide Strip, NotBlank, OnlyOf, LowerHex;
    var keys: set<string> := {};
    for i := 0 to |d.actions.actions|
      invariant keys == set k | 0 <= k < i :: d.actions.actions[k].key
    {
      keys := keys + {d.actions.actions[i].key};
    }
    forall p | p in d.index.sourceFiles
      ensures Present(p) && Hex(d.index.sourceFiles[p], 64) <==> NotBlank(p) && LowerHex(d.index.sourceFiles[p], 64)
    {
      FormsAgree(p, 64);
      FormsAgree(d.index.sourceFiles[p], 64);
    }
    ok := (forall p :: p in d.index.sourceFiles ==> Present(p) && Hex(d.index.sourceFiles[p], 64))
          && d.index.dependencies.Keys == keys;
  }

  /** Status, dependency entry, selectors and evidence of one action. */
  method CheckAction(d: Documents, activate: bool, a: Action) returns (ok: bool)
    ensures ok <==> ValidAction(d, activate, a)
  {
    var allowed := if activate then {"candidate"} else {"candidate", "stale"};
    if a.status !in allowed || a.key !in d.index.dependencies {
      return false;
    }
    var dep := d.index.dependencies[a.key];
    if (set s | s in dep.selectors) != (set s | s in a.selectorSymbols) {
      return false;
    }
    if !(forall p :: p in dep.files ==> p in d.index.sourceFiles) {
      return false;
    }
    for i := 0 to |a.selectorSymbols|
      invariant forall j :: 0 <= j < i ==> exists x :: x in d.selectors.selectors && x.symbol == a.selectorSymbols[j]
    {
      assert a.selectorSymbols[i] in a.selectorSymbols;
      if !(exists x :: x in d.selectors.selectors && x.symbol == a.selectorSymbols[i]) {
        return false;
      }
    }
    for i := 0 to |a.evidence|
      invariant forall j :: 0 <= j < i ==> Traced(d, a.evidence[j]) && a.evidence[j].path in dep.files
    {
      if !Traced(d, a.evidence[i]) || a.evidence[i].path !in dep.files {
        return false;
      }
    }
    var ss := d.selectors.selectors;
    for i := 0 to |ss|
      invariant forall j :: 0 <= j < i && ss[j].symbol in a.selectorSymbols ==>
                  Traced(d, ss[j].provenance) && ss[j].provenance.path in dep.files
    {
      if ss[i].symbol in a.selectorSymbols
         && (!Traced(d, ss[i].provenance) || ss[i].provenance.path !in dep.files) {
        return false;
      }
    }
    ok := true;
  }

  /** The actions: keys, revisions, contracts with the executor, and each by itself. */
  method CheckActions(ex: Executor, d: Documents, activate: bool) returns (ok: bool)
    requires Revision(d.manifest.minRevision).Some?
    ensures ok <==> ValidActions(ex, d, activate)
  {
    hide Revision, AtMost, ValidAction, ValidRevisions;
    var actions := d.actions.actions;
    ok := DistinctKeys(actions);
    if !ok {
      return;
    }
    ok := CheckRevisions(d.manifest, actions);
    if !ok {
      return;
    }
    if activate && (set a | a in actions :: a.key) != set c | c in ex.capabilities :: ex.capabilities[c].actionKey {
      KeysAgree(actions);
      return false;
    }
    KeysAgree(actions);
    for i := 0 to |actions|
      invariant forall j :: 0 <= j < i ==> ValidContract(ex, actions[j]) && ValidAction(d, activate, actions[j])
    {
      var a := actions[i];
      assert a in actions;
      if a.capability !in ex.capabilities {
        return false;
      }
      var contract := ex.capabilities[a.capability];
      if (a.key, a.effectKind, a.effectResource) != (contract.actionKey, contract.effectKind, contract.effectResource) {
        return false;
      }
      var good := CheckAction(d, activate, a);
      if !good {
        return false;
      }
    }
  }

  lemma KeysAgree(actions: seq<Action>)
    ensures (set a | a in actions :: a.key) == Keys(actions)
  {
  }

  /** `validate_build`: it accepts exactly the valid builds. */
  method ValidateBuild(codec: Codec, ex: Executor, t: Texts, activate: bool, acceptanceText: string) returns (ok: bool)
    ensures ok <==> ValidBuild(codec, ex, t, activate, acceptanceText)
  {
    hide ValidIdentity, ValidProfile, ValidActions, ValidSelectors, ValidIndex, ValidAcceptance;
    var docs := Load(codec, t);
    if docs.None? {
      return false;
    }
    var d := docs.value;
    ok := CheckIdentity(codec, ex, t, d);
    if !ok {
      return;
    }
    IdentityHasRevision(codec, ex, t, d);
    ok := CheckProfile(d.manifest.compatibility);
    if !ok {
      return;
    }
    ok := CheckActions(ex, d, activate);
    if !ok {
      return;
    }
    ok := CheckSelectors(d);
    if !ok {
      return;
    }
    ok := CheckIndex(d);
    if ok && activate {
      var a := codec.acceptance(acceptanceText);
      if a.None? {
        return false;
      }
      ok := ValidateAcceptance(ex, a.value, d.manifest, d.current.manifestSha);
    }
  }

  lemma IdentityHasRevision(codec: Codec, ex: Executor, t: Texts, d: Documents)
    requires ValidIdentity(codec, ex, t, d)
    ensures Revision(d.manifest.minRevision).Some?
  {
  }
}
