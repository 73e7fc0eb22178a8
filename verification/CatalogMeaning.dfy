/**
 What the checks of a build and of its acceptance mean, in words of their own: the forms of texts, the order of
 revisions, and what holds of the stored documents whenever a catalog is active.
 */
module CatalogMeaning {
  import opened Base
  import opened Strings
  import opened CatalogBuild
  import opened CatalogPublication

  // ---------------------------------------------------------------- forms of texts

  predicate OnlyOf(s: string, chars: string) { forall k :: 0 <= k < |s| ==> s[k] in chars }

  const LOWER_HEX: string := "0123456789abcdef"
  const UPPER: string := "ABCDEFGHIJKLMNOPQRSTUVWXYZ"
  const LOWER: string := "abcdefghijklmnopqrstuvwxyz"

  lemma HexChar(c: char)
    ensures '0' <= c <= '9' || 'a' <= c <= 'f' <==> c in LOWER_HEX
  {
    var t := LOWER_HEX;
  }

  lemma DigitChar(c: char)
    ensures '0' <= c <= '9' <==> c in DECIMALS
  {
    var t := DECIMALS;
  }

  lemma UpperChar(c: char)
    ensures 'A' <= c <= 'Z' <==> c in UPPER
  {
    var t := UPPER;
  }

  lemma LowerChar(c: char)
    ensures 'a' <= c <= 'z' <==> c in LOWER
  {
    var t := LOWER;
  }

  /** Digests and commits are texts of a fixed length over sixteen characters. */
  lemma HexExactly(s: string, n: nat)
    ensures LowerHex(s, n) <==> |s| == n && OnlyOf(s, LOWER_HEX)
  {
    forall k | 0 <= k < |s|
      ensures '0' <= s[k] <= '9' || 'a' <= s[k] <= 'f' <==> s[k] in LOWER_HEX
    {
      HexChar(s[k]);
    }
  }

  /** Versions are texts of letters, digits and three signs, and not empty. */
  lemma VersionExactly(s: string)
    ensures VersionText(s)
       <==> s != "" && forall k :: 0 <= k < |s| ==>
                         s[k] in DECIMALS || s[k] in UPPER || s[k] in LOWER || s[k] in ".+-"
  {
    forall k | 0 <= k < |s|
      ensures '0' <= s[k] <= '9' <==> s[k] in DECIMALS
      ensures 'A' <= s[k] <= 'Z' <==> s[k] in UPPER
      ensures 'a' <= s[k] <= 'z' <==> s[k] in LOWER
    {
      DigitChar(s[k]);
      UpperChar(s[k]);
      LowerChar(s[k]);
    }
  }

  /** A text is not blank exactly when stripping leaves something. */
  lemma NotBlankExactly(s: string)
    ensures NotBlank(s) <==> Strip(s, Blank) != ""
  {
    LStripKeeps(s);
    RStripKeeps(LStrip(s, Blank));
  }

  lemma {:induction false} LStripKeeps(s: string)
    ensures NotBlank(s) <==> NotBlank(LStrip(s, Blank))
  {
    if s != "" && IsSpace(s[0]) {
      LStripKeeps(s[1..]);
      if k :| 0 <= k < |s| && !IsSpace(s[k]) {
        assert s[1..][k - 1] == s[k];
      }
      if k :| 0 <= k < |s[1..]| && !IsSpace(s[1..][k]) {
        assert s[k + 1] == s[1..][k];
      }
    }
  }

  lemma {:induction false} RStripKeeps(s: string)
    ensures NotBlank(s) <==> RStrip(s, Blank) != ""
  {
    if s != "" {
      if IsSpace(s[|s| - 1]) {
        var front := s[..|s| - 1];
        RStripKeeps(front);
        if k :| 0 <= k < |s| && !IsSpace(s[k]) {
          assert front[k] == s[k];
        }
        if k :| 0 <= k < |front| && !IsSpace(front[k]) {
          assert s[k] == front[k];
        }
      } else {
        assert !IsSpace(s[|s| - 1]);
      }
    }
  }

  /** A time stamp is six numerals of fixed length with their punctuation. */
  function Stamp(year: string, month: string, day: string, hour: string, minute: string, second: string): string {
    year + "-" + month + "-" + day + "T" + hour + ":" + minute + ":" + second + "Z"
  }

  lemma TimestampExactly(s: string)
    ensures Timestamp(s) <==>
            && |s| == 20
            && OnlyOf(s[0..4], DECIMALS) && OnlyOf(s[5..7], DECIMALS) && OnlyOf(s[8..10], DECIMALS)
            && OnlyOf(s[11..13], DECIMALS) && OnlyOf(s[14..16], DECIMALS) && OnlyOf(s[17..19], DECIMALS)
            && s == Stamp(s[0..4], s[5..7], s[8..10], s[11..13], s[14..16], s[17..19])
  {
    if |s| == 20 {
      forall k | 0 <= k < 20
        ensures Member(s[k], Digit) <==> s[k] in DECIMALS
      {
        ClassesAre(s[k]);
      }
      var t := Stamp(s[0..4], s[5..7], s[8..10], s[11..13], s[14..16], s[17..19]);
      assert |t| == 20 && t[4] == '-' && t[7] == '-' && t[10] == 'T' && t[13] == ':' && t[16] == ':' && t[19] == 'Z';
    }
  }

  // ---------------------------------------------------------------- revisions

  /** A revision is read exactly from three numerals with dots between them, none of them too large. */
  lemma RevisionExactly(s: string, a: string, b: string, c: string)
    requires Digits(a) && Digits(b) && Digits(c)
    requires s == Join([a, b, c], '.')
    ensures Revision(s) == if Numeral(a) <= MAX_COMPONENT && Numeral(b) <= MAX_COMPONENT && Numeral(c) <= MAX_COMPONENT
                           then Some([Numeral(a), Numeral(b), Numeral(c)]) else None
  {
    hide Numeral;
    NoDots(a);
    NoDots(b);
    NoDots(c);
    var parts := [a, b, c];
    SplitJoin(parts, '.');
    assert parts[0] == a && parts[1] == b && parts[2] == c;
  }

  lemma NoDots(s: string)
    requires Digits(s)
    ensures '.' !in s
  {
  }

  /** Nothing else is a revision. */
  lemma RevisionIsTriple(s: string)
    requires Revision(s).Some?
    ensures exists a, b, c :: Digits(a) && Digits(b) && Digits(c) && s == Join([a, b, c], '.')
  {
    hide Numeral, Digits;
    var parts := Split(s, '.');
    JoinSplit(s, '.');
    assert parts == [parts[0], parts[1], parts[2]];
    assert Digits(parts[0]) && Digits(parts[1]) && Digits(parts[2]);
  }

  /** Revisions are ordered by their first component, then by the second, then by the third. */
  lemma AtMostExactly(a: seq<nat>, b: seq<nat>)
    requires |a| == |b| == 3
    ensures AtMost(a, b)
       <==> a[0] < b[0] || (a[0] == b[0] && (a[1] < b[1] || (a[1] == b[1] && a[2] <= b[2])))
  {
    var a1, b1 := a[1..], b[1..];
    var a2, b2 := a1[1..], b1[1..];
    assert AtMost(a2[1..], b2[1..]);
    assert AtMost(a2, b2) <==> a[2] <= b[2];
    assert AtMost(a1, b1) <==> a[1] < b[1] || (a[1] == b[1] && a[2] <= b[2]);
  }

  /** The order is total. */
  lemma AtMostIsTotal(a: seq<nat>, b: seq<nat>)
    requires |a| == |b| == 3
    ensures AtMost(a, b) || AtMost(b, a)
    ensures AtMost(a, b) && AtMost(b, a) ==> a == b
  {
    hide AtMost;
    AtMostExactly(a, b);
    AtMostExactly(b, a);
  }

  // ---------------------------------------------------------------- acceptances

  const CHECK_NAMES: seq<string> := [
    "node_add", "link_create_standard", "link_create_input_add", "package_save_as", "reopen", "negative",
    "ambiguous", "cleanup", "agent_partial_link_recovery", "agent_ui_recovery", "transport_receipt_recovery",
    "node_configure_text_import"
  ]

  /** What a passed replay vouches for: this executor, this manifest's profile, every check, the agent, the evidence. */
  predicate Vouches(ex: Executor, a: Acceptance, profile: Profile, manifestSha: string) {
    && a.schemaVersion == 1 && a.status == "PASSED" && a.manifestSha == manifestSha && a.target == profile
    && profile.loginomBuild.Some? && Strip(profile.loginomBuild.value, Blank) != ""
    && a.runtime.executorRevision == ex.revision && a.runtime.capabilityAbi == ex.abi
    && Strip(a.runtime.playwright, Blank) != "" && Strip(a.runtime.chromiumRevision, Blank) != ""
    && |a.runtime.clientRevision| == 64 && OnlyOf(a.runtime.clientRevision, LOWER_HEX)
    && a.agent.name == "hermes" && a.agent.provider == "openai-codex" && a.agent.model == "gpt-5.6-sol"
    && a.agent.reasoningEffort == "low"
    && (forall i :: 0 <= i < |CHECK_NAMES| ==> CHECK_NAMES[i] in a.checks && a.checks[CHECK_NAMES[i]])
    && (forall k :: k in a.checks ==> k in CHECK_NAMES)
    && Strip(a.evidenceUri, Blank) != "" && |a.evidenceSha| == 64 && OnlyOf(a.evidenceSha, LOWER_HEX)
    && Timestamp(a.recordedAt)
  }

  lemma TwelveListed(t: seq<string>)
    requires |t| == 12
    ensures {t[0], t[1], t[2], t[3], t[4], t[5], t[6], t[7], t[8], t[9], t[10], t[11]} == set k | k in t
  {
  }

  lemma CheckNames()
    ensures CHECKS == set k | k in CHECK_NAMES
  {
    TwelveListed(CHECK_NAMES);
  }

  lemma ChecksPassed(checks: map<string, bool>)
    ensures checks.Keys == CHECKS && (forall k :: k in CHECKS ==> checks[k])
       <==> && (forall i :: 0 <= i < |CHECK_NAMES| ==> CHECK_NAMES[i] in checks && checks[CHECK_NAMES[i]])
            && (forall k :: k in checks ==> k in CHECK_NAMES)
  {
    CheckNames();
    assert forall i :: 0 <= i < |CHECK_NAMES| ==> CHECK_NAMES[i] in CHECKS;
  }

  /** An acceptance is valid exactly when it vouches for the manifest's profile and digest. */
  lemma AcceptanceExactly(ex: Executor, a: Acceptance, m: Manifest, manifestSha: string)
    ensures ValidAcceptance(ex, a, m, manifestSha) <==> Vouches(ex, a, m.compatibility, manifestSha)
  {
    hide NotBlank, LowerHex, Timestamp, OnlyOf, Strip;
    ChecksPassed(a.checks);
    if m.compatibility.loginomBuild.Some? {
      NotBlankExactly(m.compatibility.loginomBuild.value);
    }
    NotBlankExactly(a.runtime.playwright);
    NotBlankExactly(a.runtime.chromiumRevision);
    NotBlankExactly(a.evidenceUri);
    HexExactly(a.runtime.clientRevision, 64);
    HexExactly(a.evidenceSha, 64);
  }

  /** An acceptance of one manifest is of no other; one with a failed or missing check is of none. */
  lemma AcceptanceIsOfOne(ex: Executor, a: Acceptance, m: Manifest, sha: string, other: string)
    ensures ValidAcceptance(ex, a, m, sha) && ValidAcceptance(ex, a, m, other) ==> sha == other
    ensures (exists i :: 0 <= i < |CHECK_NAMES| && (CHECK_NAMES[i] !in a.checks || !a.checks[CHECK_NAMES[i]])) ==>
              !ValidAcceptance(ex, a, m, sha)
  {
    hide ValidAcceptance, OnlyOf, Strip, Timestamp;
    AcceptanceExactly(ex, a, m, sha);
    AcceptanceExactly(ex, a, m, other);
  }

  /** The three files of a manifest are stored in its release with the digests that it lists. */
  predicate FilesAreStored(codec: Codec, store: Store, m: Manifest) {
    var actions, selectors, index := FileUri(m.version, "actions.json"), FileUri(m.version, "selectors.json"),
                                     FileUri(m.version, "source-index.json");
    && actions in store && "actions.json" in m.files && m.files["actions.json"] == codec.digest(store[actions])
    && selectors in store && "selectors.json" in m.files && m.files["selectors.json"] == codec.digest(store[selectors])
    && index in store && "source-index.json" in m.files && m.files["source-index.json"] == codec.digest(store[index])
    && |m.files| == 3
  }

  /**
   * In every state of every execution: a `current.json` written by an activation names an acceptance that is stored
   * under its digest and vouches for the stored manifest's digest and profile, and for this executor.
   */
  lemma CurrentIsAttested(codec: Codec, ex: Executor, trace: seq<System>, i: nat)
    requires Execution(codec, ex, trace) && i < |trace| && trace[i].active.Some?
    requires var p := ActivePointer(codec, trace[i].active.value); codec.pointer(codec.dump(p)) == Some(p)
    ensures var store := trace[i].store;
            && CurrentUri() in store && codec.pointer(store[CurrentUri()]).Some?
            && var p := codec.pointer(store[CurrentUri()]).value;
               && p.status == "production" && p.manifestUri in store && p.acceptanceUri.Some?
               && p.acceptanceUri.value in store
               && p.acceptanceSha == Some(codec.digest(store[p.acceptanceUri.value]))
               && p.manifestSha == codec.digest(store[p.manifestUri])
               && var m, a := codec.manifest(store[p.manifestUri]), codec.acceptance(store[p.acceptanceUri.value]);
                  && m.Some? && a.Some?
                  && Vouches(ex, a.value, m.value.compatibility, codec.digest(store[p.manifestUri]))
                  && p.manifestUri == FileUri(m.value.version, "manifest.json")
                  && FilesAreStored(codec, store, m.value)
  {
    hide Step, Execution, ActivePointer, CurrentUri, ValidAcceptance, Vouches, FileUri;
    CurrentIsAlwaysSound(codec, ex, trace, i);
    var store := trace[i].store;
    var p := codec.pointer(store[CurrentUri()]).value;
    var m, a := codec.manifest(store[p.manifestUri]).value, codec.acceptance(store[p.acceptanceUri.value]).value;
    AcceptanceExactly(ex, a, m, p.manifestSha);
    ThreeFiles(m.files);
  }

  lemma ThreeFiles(files: map<string, string>)
    requires files.Keys == {"actions.json", "selectors.json", "source-index.json"}
    ensures |files| == 3
  {
    assert |files.Keys| == 3;
  }
}
