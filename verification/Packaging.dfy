/**
 Packing the recorded build inputs into an archive, checking the archive against the record, and publishing
 archive and manifest under names that must be new. Other processes may change the inputs at any time and may
 create files beside the outputs.
 */
module Packaging {
  import opened Base
  import opened Sorting
  import opened MemberNames
  import opened Strings
  import opened SourceTree
  import opened Provenance

  /** A member of the archive. Reading an archive gives back the members that were added, in their order. */
  datatype Member = Member(name: string, data: Bytes, mode: nat, regular: bool)

  const EXECUTABLE: nat := 493  // 0o755
  const PLAIN: nat := 420       // 0o644

  /** What the packager meets at a recorded path when it comes to it. */
  datatype Sight = Gone | Link | Regular(content: Content)

  // ---------------------------------------------------------------- checking an archive

  /** Whether any of the three execute bits is set. */
  predicate AnyExecute(mode: nat) { mode % 2 == 1 || mode / 8 % 2 == 1 || mode / 64 % 2 == 1 }

  function MemberRow(sha: Bytes -> string, m: Member): Record {
    Record(m.name, sha(m.data), |m.data|, ModeOf(AnyExecute(m.mode)))
  }

  function MemberRows(sha: Bytes -> string, members: seq<Member>): seq<Record> {
    seq(|members|, i requires 0 <= i < |members| => MemberRow(sha, members[i]))
  }

  predicate Safe(members: seq<Member>) {
    forall i :: 0 <= i < |members| ==> members[i].regular && SafeName(members[i].name)
  }

  /** Sorting by path. */
  function SortRows(rows: seq<Record>): seq<Record> { Sort(rows, (a: Record, b: Record) => Before(a.path, b.path)) }

  /** An inventory lists each path once, in order. */
  predicate InOrder(rows: seq<Record>) {
    forall i :: 0 <= i < |rows| - 1 ==> Before(rows[i].path, rows[i + 1].path)
  }

  lemma SortKeepsRows(rows: seq<Record>)
    ensures multiset(SortRows(rows)) == multiset(rows)
  {
    SortKeeps(rows, (a: Record, b: Record) => Before(a.path, b.path));
  }

  /** Rows that are in order already stay as they are. */
  lemma OrderedRowsStay(rows: seq<Record>)
    requires InOrder(rows)
    ensures SortRows(rows) == rows
  {
    forall i | 0 <= i < |rows| - 1
      ensures !Before(rows[i + 1].path, rows[i].path)
    {
      BeforeIsAsymmetric(rows[i].path, rows[i + 1].path);
    }
    var before := (a: Record, b: Record) => Before(a.path, b.path);
    assert Ordered(rows, before);
    SortOfSorted(rows, before);
  }

  /** `verify_archive`, member by member. */
  method VerifyArchive(sha: Bytes -> string, members: seq<Member>, expected: seq<Record>) returns (ok: bool)
    ensures ok <==> Safe(members) && SortRows(MemberRows(sha, members)) == expected
    ensures ok ==> multiset(MemberRows(sha, members)) == multiset(expected)
    ensures ok ==> forall i :: 0 <= i < |members| ==> members[i].regular && StaysBelow(members[i].name)
  {
    hide SortRows, SafeName, MemberRow, StaysBelow;
    var rows: seq<Record> := [];
    var i := 0;
    while i < |members|
      invariant i <= |members| && rows == MemberRows(sha, members[..i])
      invariant forall k :: 0 <= k < i ==> members[k].regular && SafeName(members[k].name)
    {
      if !members[i].regular || !SafeName(members[i].name) {
        return false;
      }
      rows := rows + [MemberRow(sha, members[i])];
      i := i + 1;
    }
    assert members[..i] == members;
    forall k | 0 <= k < |members|
      ensures StaysBelow(members[k].name)
    {
      SafeStaysBelow(members[k].name);
    }
    SortKeepsRows(rows);
    ok := SortRows(rows) == expected;
  }

  /**
   * Against an inventory the order of the members does not matter: an archive passes exactly when all its names are
   * safe and it has the recorded rows, each once.
   */
  lemma PassesAsRows(sha: Bytes -> string, members: seq<Member>, expected: seq<Record>)
    requires InOrder(expected)
    ensures SortRows(MemberRows(sha, members)) == expected
       <==> multiset(MemberRows(sha, members)) == multiset(expected)
  {
    hide MemberRows, Before;
    var rows := MemberRows(sha, members);
    SortKeepsRows(rows);
    if multiset(rows) == multiset(expected) {
      RowsCompare(rows, expected);
      PathOrder();
      var before := (a: Record, b: Record) => Before(a.path, b.path);
      SortIsStrict(rows, before);
      forall i, j | 0 <= i < j < |expected|
        ensures before(expected[i], expected[j])
      {
        assert forall k :: 0 <= k < |expected| - 1 ==> before(expected[k], expected[k + 1]);
        ChainIsStrict(expected, before, i, j);
      }
      StrictIsUnique(SortRows(rows), expected, before);
    }
  }

  lemma PathOrder()
    ensures StrictOn((a: Record, b: Record) => Before(a.path, b.path))
  {
    hide Before;
    forall x: Record, y: Record | Before(x.path, y.path)
      ensures !Before(y.path, x.path)
    {
      BeforeIsAsymmetric(x.path, y.path);
    }
    forall x: Record, y: Record, z: Record | Before(x.path, y.path) && Before(y.path, z.path)
      ensures Before(x.path, z.path)
    {
      BeforeIsTransitive(x.path, y.path, z.path);
    }
  }

  /** Rows that are those of an inventory have different paths. */
  lemma RowsCompare(rows: seq<Record>, expected: seq<Record>)
    requires InOrder(expected) && multiset(rows) == multiset(expected)
    ensures forall i, j :: 0 <= i < j < |rows| ==>
              Before(rows[i].path, rows[j].path) || Before(rows[j].path, rows[i].path)
  {
    hide Before;
    PathOrder();
    var before := (a: Record, b: Record) => Before(a.path, b.path);
    forall i, j | 0 <= i < j < |rows|
      ensures Before(rows[i].path, rows[j].path) || Before(rows[j].path, rows[i].path)
    {
      BeforeIsTotal(rows[i].path, rows[j].path);
      if rows[i].path == rows[j].path {
        var k, l := TwoPlaces(rows, expected, i, j);
        assert forall k :: 0 <= k < |expected| - 1 ==> before(expected[k], expected[k + 1]);
        ChainIsStrict(expected, before, if k < l then k else l, if k < l then l else k);
        BeforeIsIrreflexive(rows[i].path);
      }
    }
  }

  lemma BeforeIsIrreflexive(a: string)
    ensures !Before(a, a)
  {
    hide Before;
    if Before(a, a) {
      BeforeIsAsymmetric(a, a);
    }
  }

  /** Two places of one sequence are two places of a rearrangement. */
  lemma TwoPlaces<T>(a: seq<T>, b: seq<T>, i: nat, j: nat) returns (k: nat, l: nat)
    requires multiset(a) == multiset(b) && i < j < |a|
    ensures k < |b| && l < |b| && k != l && b[k] == a[i] && b[l] == a[j]
  {
    assert a[j] in multiset(b);
    l :| 0 <= l < |b| && b[l] == a[j];
    TakeOut(a, j);
    TakeOut(b, l);
    var rest, others := a[..j] + a[j + 1..], b[..l] + b[l + 1..];
    Cancel(multiset(rest), multiset(others), a[j]);
    assert rest[i] == a[i];
    assert rest[i] in multiset(others);
    var m :| 0 <= m < |others| && others[m] == a[i];
    k := if m < l then m else m + 1;
  }

  /** The mode of a member, by its three octal digits. */
  lemma ExecuteBits(owner: nat, group: nat, other: nat)
    requires owner < 8 && group < 8 && other < 8
    ensures AnyExecute(64 * owner + 8 * group + other) <==> owner % 2 == 1 || group % 2 == 1 || other % 2 == 1
  {
    var mode := 64 * owner + 8 * group + other;
    assert mode / 64 == owner && mode / 8 == 8 * owner + group;
  }

  // ---------------------------------------------------------------- building an archive

  function Packed(name: string, c: Content): Member {
    Member(name, c.data, if c.executable then EXECUTABLE else PLAIN, true)
  }

  /** A sight is what the record says. */
  predicate Faithful(sha: Bytes -> string, r: Record, s: Sight) {
    s.Regular? && RecordOf(sha, Row(r.path, s.content)) == r
  }

  /** Add the recorded files one by one; `None` when one of them is gone or has become a link. */
  method BuildArchive(records: seq<Record>, sights: nat -> Sight) returns (archive: Option<seq<Member>>)
    ensures archive.None? <==> exists i :: 0 <= i < |records| && !sights(i).Regular?
    ensures archive.Some? ==>
              && |archive.value| == |records|
              && forall i :: 0 <= i < |records| ==>
                   sights(i).Regular? && archive.value[i] == Packed(records[i].path, sights(i).content)
  {
    var members: seq<Member> := [];
    var i := 0;
    while i < |records|
      invariant i <= |records| && |members| == i
      invariant forall k :: 0 <= k < i ==>
                  sights(k).Regular? && members[k] == Packed(records[k].path, sights(k).content)
    {
      if !sights(i).Regular? {
        return None;
      }
      members := members + [Packed(records[i].path, sights(i).content)];
      i := i + 1;
    }
    archive := Some(members);
  }

  lemma ModesAgree(sha: Bytes -> string, name: string, c: Content)
    ensures MemberRow(sha, Packed(name, c)) == RecordOf(sha, Row(name, c))
  {
    assert AnyExecute(EXECUTABLE) && !AnyExecute(PLAIN);
  }

  /**
   * An archive built while files may change passes the check exactly when every file, as it was read, was what
   * its record says, and the recorded names are safe.
   */
  lemma PassesExactly(sha: Bytes -> string, records: seq<Record>, sights: nat -> Sight, members: seq<Member>)
    requires InOrder(records) && |members| == |records|
    requires forall i :: 0 <= i < |records| ==>
               sights(i).Regular? && members[i] == Packed(records[i].path, sights(i).content)
    ensures Safe(members) && SortRows(MemberRows(sha, members)) == records
            <==> forall i :: 0 <= i < |records| ==> SafeName(records[i].path) && Faithful(sha, records[i], sights(i))
  {
    hide SafeName, SortRows, Before;
    var rows := MemberRows(sha, members);
    forall i | 0 <= i < |records|
      ensures rows[i] == RecordOf(sha, Row(records[i].path, sights(i).content))
    {
      ModesAgree(sha, records[i].path, sights(i).content);
    }
    assert InOrder(rows);
    OrderedRowsStay(rows);
    assert Safe(members) <==> forall i :: 0 <= i < |records| ==> SafeName(records[i].path);
    assert rows == records <==> forall i :: 0 <= i < |records| ==> rows[i] == records[i];
  }

  // ---------------------------------------------------------------- publishing

  /** A file beside the outputs: an archive, a manifest, or anything else. */
  datatype Blob =
    | Archive(members: seq<Member>)
    | Manifest(archiveSha: string, records: seq<Record>)
    | Other(data: Bytes)

  type Folder = map<string, Blob>

  /** What others do at one time: put a file under a name, whatever stands there, or remove what stands there. */
  type Acts = map<string, Option<Blob>>

  function Acted(folder: Folder, acts: Acts): Folder {
    map n | n in folder.Keys + acts.Keys && (n in acts ==> acts[n].Some?) ::
      if n in acts then acts[n].value else folder[n]
  }

  /**
   * What goes on outside: which steps fail, what is met at each path, what others do to the folder at each time,
   * and whether the second inventory returns and equals the first.
   */
  datatype World = World(fails: nat -> bool, sights: nat -> Sight, acts: nat -> Acts, same: bool)

  datatype Outcome = Published | Stopped | CleanupFailed

  function Sidecar(output: string): string { output + ".manifest.json" }

  // The times of publishing from time `t` on: others act at t, t + 2 and t + 4; the archive is linked at t + 1, the
  // manifest at t + 3, and the archive is removed at t + 5 if the manifest could not be linked.

  /** The files of others when the archive is linked, when the manifest is, and when the archive is removed. */
  function AtFirst(w: World, t: nat, folder: Folder): Folder { Acted(folder, w.acts(t)) }

  function AtSecond(w: World, t: nat, folder: Folder): Folder { Acted(AtFirst(w, t, folder), w.acts(t + 2)) }

  function AtRemoval(w: World, t: nat, folder: Folder): Folder { Acted(AtSecond(w, t, folder), w.acts(t + 4)) }

  /** The archive can be linked: its name is free at that time and the step does not fail. */
  predicate FirstLinks(w: World, t: nat, folder: Folder, output: string) {
    output !in AtFirst(w, t, folder) && !w.fails(t + 1)
  }

  predicate SecondLinks(w: World, t: nat, folder: Folder, output: string) {
    Sidecar(output) !in AtSecond(w, t, folder) && !w.fails(t + 3)
  }

  /** Others have touched the published archive before the manifest was linked, or at all. */
  predicate TouchedEarly(w: World, t: nat, output: string) { output in w.acts(t + 2) }

  predicate Touched(w: World, t: nat, output: string) { TouchedEarly(w, t, output) || output in w.acts(t + 4) }

  /** What others' own acts make of their files while the packager publishes. */
  function OthersAlone(w: World, t: nat, folder: Folder, output: string): Folder {
    if !FirstLinks(w, t, folder, output) then AtFirst(w, t, folder)
    else if SecondLinks(w, t, folder, output) then AtSecond(w, t, folder)
    else AtRemoval(w, t, folder)
  }

  /** The packager removes a file of others: the manifest cannot be linked, and they have put a file at the output. */
  predicate Loses(w: World, t: nat, folder: Folder, output: string) {
    && FirstLinks(w, t, folder, output) && !SecondLinks(w, t, folder, output) && !w.fails(t + 5)
    && if output in w.acts(t + 4) then w.acts(t + 4)[output].Some?
       else output in w.acts(t + 2) && w.acts(t + 2)[output].Some?
  }

  /** The inputs can be packed: free names, no failing step, safe paths, files met as recorded, the same inventory. */
  predicate Packable(sha: Bytes -> string, w: World, t: nat, folder: Folder, records: seq<Record>, output: string) {
    && output !in folder && Sidecar(output) !in folder && w.same
    && !w.fails(t) && !w.fails(t + 1) && !w.fails(t + 2)
    && forall i :: 0 <= i < |records| ==> SafeName(records[i].path) && Faithful(sha, records[i], w.sights(i))
  }

  // ---------------------------------------------------------------- whose files

  lemma ActedOnBoth(others: Folder, own: Folder, acts: Acts)
    requires own.Keys !! others.Keys
    ensures Acted(others + own, acts) == Acted(others, acts) + (own - acts.Keys)
    ensures (own - acts.Keys).Keys !! Acted(others, acts).Keys
  {
  }

  lemma LinkedBeside(others: Folder, own: Folder, name: string, b: Blob)
    requires name !in others
    ensures (others + own)[name := b] == others + own[name := b]
  {
  }

  lemma RemovedFromBoth(others: Folder, own: Folder, name: string)
    requires own.Keys !! others.Keys
    ensures (others + own) - {name} == (others - {name}) + (own - {name})
  {
  }

  /** What stands at a name after others have acted twice on a folder without it. */
  lemma PutTwice(folder: Folder, a: Acts, b: Acts, name: string)
    requires name !in folder
    ensures name in Acted(Acted(folder, a), b) <==>
            if name in b then b[name].Some? else name in a && a[name].Some?
  {
  }

  lemma PutAtRemoval(w: World, t: nat, folder: Folder, output: string)
    requires FirstLinks(w, t, folder, output)
    ensures output in AtRemoval(w, t, folder) <==>
            if output in w.acts(t + 4) then w.acts(t + 4)[output].Some?
            else output in w.acts(t + 2) && w.acts(t + 2)[output].Some?
  {
    hide Acted;
    PutTwice(AtFirst(w, t, folder), w.acts(t + 2), w.acts(t + 4), output);
  }

  lemma Without(folder: Folder, name: string)
    ensures name !in folder ==> folder - {name} == folder
  {
  }

  class Packager {
    const world: World
    var tick: nat
    var folder: Folder
    ghost var others: Folder  // the files of others
    ghost var own: Folder     // the outputs that were published and that others have not touched

    ghost predicate Valid()
      reads this
    {
      folder == others + own && own.Keys !! others.Keys
    }

    constructor (world: World, folder: Folder)
      ensures Valid() && this.folder == folder && others == folder && own == map[] && this.world == world && tick == 0
    {
      this.world := world;
      tick, this.folder := 0, folder;
      others, own := folder, map[];
    }

    /** A step that may fail and does nothing to the folder. */
    method Attempt() returns (ok: bool)
      modifies this`tick
      ensures ok == !world.fails(old(tick)) && tick == old(tick) + 1
    {
      ok := !world.fails(tick);
      tick := tick + 1;
    }

    /** Others put and remove files as they like; what they touch is theirs. */
    method Interfere()
      requires Valid()
      modifies this
      ensures Valid() && tick == old(tick) + 1
      ensures folder == Acted(old(folder), world.acts(old(tick)))
      ensures others == Acted(old(others), world.acts(old(tick))) && own == old(own) - world.acts(old(tick)).Keys
    {
      var acts := world.acts(tick);
      ActedOnBoth(others, own, acts);
      others, own := Acted(others, acts), own - acts.Keys;
      folder := Acted(folder, acts);
      tick := tick + 1;
    }

    /** Give a file a new name; this fails if the name is taken. */
    method LinkNew(name: string, b: Blob) returns (ok: bool)
      requires Valid()
      modifies this`tick, this`folder, this`own
      ensures Valid() && tick == old(tick) + 1
      ensures ok <==> name !in old(folder) && !world.fails(old(tick))
      ensures own == (if ok then old(own)[name := b] else old(own))
      ensures folder == (if ok then old(folder)[name := b] else old(folder))
    {
      ok := name !in folder && !world.fails(tick);
      tick := tick + 1;
      if ok {
        LinkedBeside(others, own, name, b);
        folder := folder[name := b];
        own := own[name := b];
      }
    }

    /** Remove what stands at a name, whosever it is; nothing there is an error, but changes nothing. */
    method Unlink(name: string) returns (ok: bool)
      requires Valid()
      modifies this
      ensures Valid() && tick == old(tick) + 1 && ok == !world.fails(old(tick))
      ensures others == (if ok then old(others) - {name} else old(others))
      ensures own == (if ok then old(own) - {name} else old(own))
    {
      ok := !world.fails(tick);
      tick := tick + 1;
      if ok {
        RemovedFromBoth(others, own, name);
        folder := folder - {name};
        others, own := others - {name}, own - {name};
      }
    }

    /** The link of the archive, after whatever others have done. */
    method LinkArchive(output: string, archive: Blob) returns (ok: bool)
      requires Valid() && own == map[]
      modifies this
      ensures Valid() && tick == old(tick) + 2
      ensures ok == FirstLinks(world, old(tick), old(folder), output)
              && others == AtFirst(world, old(tick), old(folder))
      ensures own == if ok then map[output := archive] else map[]
    {
      hide Acted;
      assert folder == others;
      Interfere();
      assert folder == others;
      ok := LinkNew(output, archive);
    }

    /** The link of the manifest, likewise. */
    method LinkManifest(output: string, manifest: Blob, ghost t: nat, ghost f: Folder) returns (ok: bool)
      requires Valid() && tick == t + 2 && others == AtFirst(world, t, f) && own.Keys <= {output}
      modifies this
      ensures Valid() && tick == t + 4
      ensures ok == SecondLinks(world, t, f, output) && others == AtSecond(world, t, f)
      ensures var kept := old(own) - world.acts(t + 2).Keys;
              own == if ok then kept[Sidecar(output) := manifest] else kept
    {
      hide Acted, AtFirst;
      SidecarDiffers(output);
      Interfere();
      assert Sidecar(output) in folder <==> Sidecar(output) in others;
      ok := LinkNew(Sidecar(output), manifest);
    }

    /** The removal of what stands at the output. */
    method RemoveOutput(output: string, ghost t: nat, ghost f: Folder) returns (ok: bool)
      requires Valid() && tick == t + 4 && others == AtSecond(world, t, f) && own.Keys <= {output}
      modifies this
      ensures Valid() && ok == !world.fails(t + 5)
      ensures var late := AtRemoval(world, t, f); others == if ok then late - {output} else late
      ensures own == if ok then map[] else old(own) - world.acts(t + 4).Keys
    {
      hide Acted, AtSecond;
      Interfere();
      ok := Unlink(output);
    }

    /**
     * Publish archive and manifest, while others do as they like. Exactly stated on what is outside: when both links
     * go through, which of the two outputs are then still the packager's own, when the archive is left alone, and
     * that a file of others is removed only when they have put one at the output and the manifest cannot be linked.
     */
    method LinkOutputs(output: string, archive: Blob, manifest: Blob) returns (r: Outcome)
      requires Valid() && own == map[]
      modifies this
      ensures Valid()
      ensures var first, second := FirstLinks(world, old(tick), old(folder), output), SecondLinks(world, old(tick),
              old(folder), output);
              && (r == Published <==> first && second)
              && (r == CleanupFailed <==> first && !second && world.fails(old(tick) + 5))
      ensures r == Published ==>
                own == if TouchedEarly(world, old(tick), output) then map[Sidecar(output) := manifest]
                       else map[output := archive, Sidecar(output) := manifest]
      ensures r == CleanupFailed ==> own == if Touched(world, old(tick), output) then map[] else map[output := archive]
      ensures r == Stopped ==> own == map[]
      ensures var alone := OthersAlone(world, old(tick), old(folder), output);
              if Loses(world, old(tick), old(folder), output) then output in alone && others == alone - {output}
              else others == alone
    {
      hide AtFirst, AtSecond, AtRemoval;
      ghost var t, f := tick, folder;
      SidecarDiffers(output);
      var first := LinkArchive(output, archive);
      if !first {
        return Stopped;
      }
      var second := LinkManifest(output, manifest, t, f);
      if second {
        return Published;
      }
      PutAtRemoval(world, t, f, output);
      Without(AtRemoval(world, t, f), output);
      var removed := RemoveOutput(output, t, f);
      r := if removed then Stopped else CleanupFailed;
    }

    /**
     * Package the recorded inputs, whatever happens to them meanwhile. What is published as an archive holds exactly
     * the recorded rows, and the manifest repeats them and names its digest. For an inventory, which is in order, it
     * is said exactly when both links go through, when the archive is left alone, and when a file of others is lost.
     */
    method Package(sha: Bytes -> string, digest: seq<Member> -> string, records: seq<Record>, output: string)
      returns (r: Outcome)
      requires Valid() && own == map[]
      modifies this
      ensures Valid() && own.Keys <= {output, Sidecar(output)}
      ensures output in own ==>
                && own[output].Archive? && Safe(own[output].members)
                && multiset(MemberRows(sha, own[output].members)) == multiset(records)
      ensures Sidecar(output) in own ==> own[Sidecar(output)].Manifest? && own[Sidecar(output)].records == records
      ensures output in own && Sidecar(output) in own ==> own[Sidecar(output)].archiveSha == digest(own[output].members)
      ensures InOrder(records) ==> Packaged(sha, world, old(tick), old(folder), records, output, r, own, others)
    {
      hide MemberRows, Safe, SortRows, InOrder, FirstLinks, SecondLinks, SafeName, Loses, OthersAlone;
      SidecarDiffers(output);
      if output in folder || Sidecar(output) in folder {
        return Stopped;
      }
      var made := Attempt();
      if !made {
        return Stopped;
      }
      var built := BuildArchive(records, world.sights);
      var written := Attempt();
      if built.None? || !written {
        return Stopped;
      }
      var members := built.value;
      var verified := VerifyArchive(sha, members, records);
      if InOrder(records) {
        PassesExactly(sha, records, world.sights, members);
      }
      if !verified || !world.same {
        return Stopped;
      }
      var noted := Attempt();
      if !noted {
        return Stopped;
      }
      r := LinkOutputs(output, Archive(members), Manifest(digest(members), records));
    }
  }

  /** How packaging ends, whose the outputs are then, and what is left of the files of others. */
  predicate Packaged(sha: Bytes -> string, w: World, tick: nat, folder: Folder, records: seq<Record>, output: string,
                     r: Outcome, own: Folder, others: Folder)
  {
    var packable, t := Packable(sha, w, tick, folder, records, output), tick + 3;
    var first, second := FirstLinks(w, t, folder, output), SecondLinks(w, t, folder, output);
    && (r == Published <==> packable && first && second)
    && (r == CleanupFailed <==> packable && first && !second && w.fails(t + 5))
    && own.Keys == (if r == Published then {Sidecar(output)} + (if TouchedEarly(w, t, output) then {} else {output})
                    else if r == CleanupFailed && !Touched(w, t, output) then {output}
                    else {})
    && (if !packable then others == folder
        else if Loses(w, t, folder, output)
        then output in OthersAlone(w, t, folder, output) && others == OthersAlone(w, t, folder, output) - {output}
        else others == OthersAlone(w, t, folder, output))
  }

  lemma SidecarDiffers(output: string)
    ensures Sidecar(output) != output
  {
    assert |Sidecar(output)| == |output| + 14;
  }

  // ---------------------------------------------------------------- three surroundings

  /** A world with one faithful file, in which one step fails and others act once, between the two links. */
  function Rival(failing: nat, acts: Acts): World {
    World((t: nat) => t == failing, (i: nat) => Regular(Content([], false)), (t: nat) => if t == 5 then acts
        else map[], true)
  }

  function OneRecord(sha: Bytes -> string): seq<Record> { [Record("a", sha([]), 0, "100644")] }

  const OUTPUT: string := "out"
  const BESIDE: string := "out.manifest.json"

  lemma RivalIsPackable(sha: Bytes -> string, failing: nat, acts: Acts)
    requires failing > 3
    ensures InOrder(OneRecord(sha)) && Packable(sha, Rival(failing, acts), 0, map[], OneRecord(sha), OUTPUT)
  {
    SplitJoin(["a"], '/');
    assert Split("a", '/') == ["a"] && "a" != "..";
    assert SafeName("a");
  }

  lemma RivalTimes(failing: nat, acts: Acts)
    requires failing > 6
    ensures var w := Rival(failing, acts);
            && Sidecar(OUTPUT) == BESIDE
            && FirstLinks(w, 3, map[], OUTPUT)
            && (SecondLinks(w, 3, map[], OUTPUT) <==> (BESIDE in acts ==> acts[BESIDE].None?))
            && (TouchedEarly(w, 3, OUTPUT) <==> OUTPUT in acts) && (Touched(w, 3, OUTPUT) <==> OUTPUT in acts)
            && AtRemoval(w, 3, map[]) == AtSecond(w, 3, map[]) == Acted(map[], acts)
  {
    assert Acted(map[], map[]) == map[];
    assert Acted(Acted(map[], acts), map[]) == Acted(map[], acts);
  }

  /**
   * Another process takes the manifest's name between the two links, and the archive cannot be removed: the
   * archive stays behind beside a manifest that is not its own.
   */
  method ArchiveLeftAlone(sha: Bytes -> string, digest: seq<Member> -> string) returns (p: Packager, r: Outcome)
    ensures r == CleanupFailed && p.own.Keys == {OUTPUT} && p.others == map[BESIDE := Other([])]
  {
    hide InOrder, Packable, FirstLinks, SecondLinks, Touched, TouchedEarly, Safe, MemberRows, AtRemoval, AtSecond,
        Rival;
    var acts: Acts := map[BESIDE := Some(Other([]))];
    p := new Packager(Rival(8, acts), map[]);
    RivalIsPackable(sha, 8, acts);
    RivalTimes(8, acts);
    RivalFails(8, acts);
    r := p.Package(sha, digest, OneRecord(sha), OUTPUT);
  }

  /** It also replaces the archive, and the removal works: the packager removes the other process's file. */
  method FileOfOthersLost(sha: Bytes -> string, digest: seq<Member> -> string) returns (p: Packager, r: Outcome)
    ensures r == Stopped && p.own == map[]
    ensures Acted(map[], p.world.acts(5)) == map[OUTPUT := Other([]), BESIDE := Other([])]
    ensures p.others == map[BESIDE := Other([])]
  {
    hide InOrder, Packable, FirstLinks, SecondLinks, Touched, TouchedEarly, Safe, MemberRows, AtRemoval, AtSecond;
    var acts: Acts := map[OUTPUT := Some(Other([])), BESIDE := Some(Other([]))];
    p := new Packager(Rival(9, acts), map[]);
    RivalIsPackable(sha, 9, acts);
    RivalTimes(9, acts);
    r := p.Package(sha, digest, OneRecord(sha), OUTPUT);
  }

  /** It replaces the archive only: both links go through, and the manifest stands beside an archive of others. */
  method ForeignArchive(sha: Bytes -> string, digest: seq<Member> -> string) returns (p: Packager, r: Outcome)
    ensures r == Published && p.own.Keys == {BESIDE} && p.others == map[OUTPUT := Other([])]
  {
    hide InOrder, Packable, FirstLinks, SecondLinks, Touched, TouchedEarly, Safe, MemberRows, AtRemoval, AtSecond;
    var acts: Acts := map[OUTPUT := Some(Other([]))];
    p := new Packager(Rival(9, acts), map[]);
    RivalIsPackable(sha, 9, acts);
    RivalTimes(9, acts);
    r := p.Package(sha, digest, OneRecord(sha), OUTPUT);
  }

  lemma RivalFails(failing: nat, acts: Acts)
    ensures Rival(failing, acts).fails(failing)
  {
  }
}
