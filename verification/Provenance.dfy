/**
 Two independent checks that the build inputs of a working tree are those of a commit:
 `inventory`, which goes by Git's list of files, and `verify_clean_source`, which reads
 the tree itself. They are proved to agree, up to entries only the second one sees.
 */
module Provenance {
  import opened Base
  import opened Strings
  import opened SourceTree

  /** An entry of a commit's tree, with the contents of the object it names. */
  datatype Entry = Entry(mode: string, kind: string, data: Bytes)

  type Commit = map<string, Entry>

  /** A row of an inventory. */
  datatype Record = Record(path: string, sha: string, bytes: nat, mode: string)

  function ModeOf(executable: bool): string { if executable then "100755" else "100644" }

  function RecordOf(sha: Bytes -> string, r: Row): Record {
    Record(r.path, sha(r.content.data), |r.content.data|, ModeOf(r.content.executable))
  }

  function Records(sha: Bytes -> string, rows: set<Row>): set<Record> {
    set r | r in rows :: RecordOf(sha, r)
  }

  function Paths(rows: set<Row>): set<string> { set r | r in rows :: r.path }

  // ---------------------------------------------------------------- the raw-tree check

  function CommittedNames(sel: Selection, commit: Commit): set<string> {
    set n | n in commit && IsClientSource(sel, n)
  }

  predicate Regular(e: Entry) { e.kind == "blob" && (e.mode == "100644" || e.mode == "100755") }

  predicate RegularCommit(sel: Selection, commit: Commit) {
    forall n :: n in commit && IsClientSource(sel, n) ==> Regular(commit[n])
  }

  function CommittedRecord(sha: Bytes -> string, commit: Commit, n: string): Record
    requires n in commit
  {
    Record(n, sha(commit[n].data), |commit[n].data|, commit[n].mode)
  }

  /** `committed_inventory`; `None` stands for the errors it raises. */
  function CommittedInventory(sel: Selection, sha: Bytes -> string, commit: Commit): Option<set<Record>> {
    if !RegularCommit(sel, commit) || !(sel.individual <= CommittedNames(sel, commit)) then None
    else Some(set n | n in commit && IsClientSource(sel, n) :: CommittedRecord(sha, commit, n))
  }

  /** `verify_clean_source` for a revision that is the full name of the commit. */
  predicate VerifyClean(sel: Selection, sha: Bytes -> string, tree: Forest, commit: Commit) {
    var expected, rows := CommittedInventory(sel, sha, commit), Walk(sel, [], tree);
    expected.Some? && rows.Some? && Records(sha, rows.value) == expected.value
  }

  // ---------------------------------------------------------------- the Git-listing check

  const REQUIRED: string := "client/lib/hooks.mjs"

  /**
   * What Git lists, and which of the listed names are files only beyond a linked directory: they exist if the link
   * is followed, but are no part of the tree.
   */
  datatype Listing = Listing(names: set<string>, beyond: set<string>)

  /** `client_source_files`: the listed names that are selected and exist as a file, following links, or as a link. */
  function SourceNames(sel: Selection, tree: Forest, listed: Listing): set<string> {
    set n | n in listed.names && IsClientSource(sel, n)
            && (n in Paths(Files([], tree)) || n in Links([], tree) || n in listed.beyond)
  }

  datatype Reason = Missing | Untracked | TypeOrMode | Differs

  datatype Difference = Difference(path: string, reason: Reason)

  /** What is wrong with a file whose name is committed, if anything is. */
  function Wrong(e: Entry, c: Content): Option<Reason> {
    if e.kind != "blob" || e.mode != ModeOf(c.executable) then Some(TypeOrMode)
    else if e.data != c.data then Some(Differs)
    else None
  }

  /** How one name, selected or committed, differs from the commit. */
  function Compare(sel: Selection, tree: Forest, listed: Listing, commit: Commit, n: string): set<Difference> {
    if n !in SourceNames(sel, tree, listed) then {Difference(n, Missing)}
    else if !(n in commit && IsClientSource(sel, n)) then {Difference(n, Untracked)}
    else set r | r in Files([], tree) && r.path == n && Wrong(commit[n], r.content).Some?
           :: Difference(n, Wrong(commit[n], r.content).value)
  }

  /** When `inventory` returns: no required input is missing, and no selected name is a link or beyond one. */
  predicate Returns(sel: Selection, tree: Forest, listed: Listing) {
    var names := SourceNames(sel, tree, listed);
    REQUIRED in names && sel.individual <= names && names !! Links([], tree) && names !! listed.beyond
  }

  /** The differences of the given names. */
  function Gather(sel: Selection, tree: Forest, listed: Listing, commit: Commit, names: set<string>): set<Difference> {
    set n, d | n in names && d in Compare(sel, tree, listed, commit, n) :: d
  }

  function Differences(sel: Selection, tree: Forest, listed: Listing, commit: Commit): set<Difference> {
    Gather(sel, tree, listed, commit, SourceNames(sel, tree, listed) + CommittedNames(sel, commit))
  }

  lemma GatherOne(sel: Selection, tree: Forest, listed: Listing, commit: Commit, names: set<string>, n: string)
    ensures Gather(sel, tree, listed, commit, names + {n})
         == Gather(sel, tree, listed, commit, names) + Compare(sel, tree, listed, commit, n)
    ensures Gather(sel, tree, listed, commit, {}) == {}
  {
    hide Compare;
  }

  /** `client_source_files`: listed name by listed name; `None` if a required input is missing. */
  method ClientSourceFiles(sel: Selection, tree: Forest, listed: Listing) returns (files: Option<set<string>>)
    ensures files == if REQUIRED in SourceNames(sel, tree, listed) && sel.individual <= SourceNames(sel, tree, listed)
                     then Some(SourceNames(sel, tree, listed)) else None
  {
    hide Files, Links, IsClientSource;
    var here, links := Paths(Files([], tree)), Links([], tree);
    var names: set<string> := {};
    var todo := listed.names;
    while todo != {}
      invariant todo <= listed.names
      invariant names == set n | n in listed.names - todo && IsClientSource(sel, n)
                                 && (n in here || n in listed.beyond || n in links)
      decreases |todo|
    {
      var n :| n in todo;
      todo := todo - {n};
      if IsClientSource(sel, n) {
        var isFile, isLink := n in here || n in listed.beyond, n in links;
        if isFile || isLink {
          names := names + {n};
        }
      }
    }
    assert listed.names - todo == listed.names;
    assert names == SourceNames(sel, tree, listed);
    if REQUIRED !in names {
      return None;
    }
    var missing := sel.individual - names;
    assert missing == {} <==> sel.individual <= names;
    if missing != {} {
      return None;
    }
    files := Some(names);
  }

  /** `committed_inventory`: entry by entry. */
  method ReadCommit(sel: Selection, sha: Bytes -> string, commit: Commit) returns (files: Option<set<Record>>)
    ensures files == CommittedInventory(sel, sha, commit)
  {
    hide IsClientSource;
    var rows: set<Record> := {};
    var todo := commit.Keys;
    while todo != {}
      invariant todo <= commit.Keys
      invariant forall n :: n in commit.Keys - todo && IsClientSource(sel, n) ==>
                  commit[n].kind == "blob" && commit[n].mode in {"100644", "100755"}
      invariant rows == set n | n in commit.Keys - todo && IsClientSource(sel, n) ::
                          Record(n, sha(commit[n].data), |commit[n].data|, commit[n].mode)
      decreases |todo|
    {
      var n :| n in todo;
      if IsClientSource(sel, n) {
        if commit[n].kind != "blob" || commit[n].mode !in {"100644", "100755"} {
          return None;
        }
        rows := rows + {Record(n, sha(commit[n].data), |commit[n].data|, commit[n].mode)};
      }
      todo := todo - {n};
    }
    assert commit.Keys - todo == commit.Keys;
    PathsOfRows(sel, sha, commit, rows);
    var missing := sel.individual - set r | r in rows :: r.path;
    assert missing == {} <==> sel.individual <= CommittedNames(sel, commit);
    assert RegularCommit(sel, commit);
    assert rows == set n | n in commit && IsClientSource(sel, n) :: CommittedRecord(sha, commit, n);
    if missing != {} {
      return None;
    }
    files := Some(rows);
  }

  lemma PathsOfRows(sel: Selection, sha: Bytes -> string, commit: Commit, rows: set<Record>)
    requires rows == set n | n in commit.Keys && IsClientSource(sel, n) ::
                       Record(n, sha(commit[n].data), |commit[n].data|, commit[n].mode)
    ensures (set r | r in rows :: r.path) == CommittedNames(sel, commit)
  {
    hide IsClientSource;
    forall n | n in CommittedNames(sel, commit)
      ensures n in set r | r in rows :: r.path
    {
      var r := Record(n, sha(commit[n].data), |commit[n].data|, commit[n].mode);
      assert r in rows && r.path == n;
    }
  }

  /** `inventory`: name by name; the result is whether the build inputs match, if it returns. */
  method Inventory(sel: Selection, tree: Forest, listed: Listing, commit: Commit)
    returns (matches: Option<bool>)
    ensures matches.Some? <==> Returns(sel, tree, listed)
    ensures matches.Some? ==> matches.value == (Differences(sel, tree, listed, commit) == {})
  {
    hide Compare, Gather, Files, Links, SourceNames, CommittedNames;
    var files := ClientSourceFiles(sel, tree, listed);
    if files.None? {
      return None;
    }
    var selected := files.value;
    var names := selected + CommittedNames(sel, commit);
    var todo, changed: set<Difference> := names, {};
    GatherOne(sel, tree, listed, commit, {}, "");
    assert names - names == {};
    while todo != {}
      invariant todo <= names
      invariant forall n :: n in names - todo ==> n !in selected || (n !in Links([], tree) && n !in listed.beyond)
      invariant changed == Gather(sel, tree, listed, commit, names - todo)
      decreases |todo|
    {
      var n :| n in todo;
      if n in selected && (n in Links([], tree) || n in listed.beyond) {
        return None;
      }
      var found := Compare(sel, tree, listed, commit, n);
      assert names - (todo - {n}) == (names - todo) + {n};
      GatherOne(sel, tree, listed, commit, names - todo, n);
      changed, todo := changed + found, todo - {n};
    }
    assert names - todo == names;
    return Some(changed == {});
  }

  // ---------------------------------------------------------------- agreement

  /** No build input is hidden from Git's list: neither a file nor a link. */
  predicate NothingIgnored(sel: Selection, tree: Forest, listed: Listing) {
    forall n :: n in Paths(Files([], tree)) + Links([], tree) && IsClientSource(sel, n) ==> n in listed.names
  }

  /** A file system has one entry per path. */
  predicate OneEntryPerPath(tree: Forest) {
    && (forall r, r' :: r in Files([], tree) && r' in Files([], tree) && r.path == r'.path ==> r == r')
    && Paths(Files([], tree)) !! Links([], tree)
  }

  ghost predicate CollisionFree(sha: Bytes -> string) {
    forall a, b :: sha(a) == sha(b) ==> a == b
  }

  lemma NoDifference(sel: Selection, tree: Forest, listed: Listing, commit: Commit, n: string)
    requires Differences(sel, tree, listed, commit) == {}
    requires n in SourceNames(sel, tree, listed) + CommittedNames(sel, commit)
    ensures Compare(sel, tree, listed, commit, n) == {}
  {
    hide Compare;
    assert forall d :: d in Compare(sel, tree, listed, commit, n) ==> d in Differences(sel, tree, listed, commit);
  }

  lemma WrongIsDifference(sel: Selection, tree: Forest, listed: Listing, commit: Commit, r: Row)
    requires r in Files([], tree) && r.path in SourceNames(sel, tree, listed) && r.path in commit
             && IsClientSource(sel, r.path)
    ensures var wrong := Wrong(commit[r.path], r.content);
            wrong.Some? ==> Difference(r.path, wrong.value) in Compare(sel, tree, listed, commit, r.path)
  {
    hide Files, Links, IsClientSource, Wrong;
  }

  /** A row of the tree and the commit's entry of the same name that do not differ give the same record. */
  lemma SameRecord(sel: Selection, sha: Bytes -> string, tree: Forest, listed: Listing, commit: Commit, r: Row)
    requires r in Files([], tree) && Compare(sel, tree, listed, commit, r.path) == {}
    ensures r.path in commit && RecordOf(sha, r) == CommittedRecord(sha, commit, r.path)
  {
    hide Files, Links, IsClientSource;
    var n := r.path;
    assert n in SourceNames(sel, tree, listed) && n in commit && IsClientSource(sel, n);
    WrongIsDifference(sel, tree, listed, commit, r);
  }

  /** When nothing differs and every entry is supported, the raw-tree check succeeds. */
  lemma MatchIsClean(sel: Selection, sha: Bytes -> string, tree: Forest, listed: Listing, commit: Commit)
    requires Valid(tree) && NothingIgnored(sel, tree, listed) && RegularCommit(sel, commit)
    requires Returns(sel, tree, listed) && Differences(sel, tree, listed, commit) == {}
    requires !AnyUnsupported(sel, [], tree)
    ensures VerifyClean(sel, sha, tree, commit)
  {
    hide Files, Links, IsClientSource, Walk, AnyUnsupported, Compare, Differences, RecordOf, CommittedRecord;
    TreeInventoryExact(sel, tree);
    var rows := Selected(sel, Files([], tree));
    var names, committed := SourceNames(sel, tree, listed), CommittedNames(sel, commit);
    forall n | n in names
      ensures n in committed
    {
      NoDifference(sel, tree, listed, commit, n);
      Tracked(sel, tree, listed, commit, n);
    }
    var expected := CommittedInventory(sel, sha, commit).value;
    forall x | x in Records(sha, rows)
      ensures x in expected
    {
      var r :| r in rows && RecordOf(sha, r) == x;
      assert r.path in Paths(Files([], tree));
      NoDifference(sel, tree, listed, commit, r.path);
      SameRecord(sel, sha, tree, listed, commit, r);
    }
    forall x | x in expected
      ensures x in Records(sha, rows)
    {
      var n :| n in committed && CommittedRecord(sha, commit, n) == x;
      NoDifference(sel, tree, listed, commit, n);
      Tracked(sel, tree, listed, commit, n);
      var r :| r in Files([], tree) && r.path == n;
      SameRecord(sel, sha, tree, listed, commit, r);
      assert r in rows;
    }
  }

  lemma Tracked(sel: Selection, tree: Forest, listed: Listing, commit: Commit, n: string)
    requires Compare(sel, tree, listed, commit, n) == {}
    requires Returns(sel, tree, listed)
    ensures n in commit && IsClientSource(sel, n) && n in SourceNames(sel, tree, listed) && n in Paths(Files([], tree))
  {
    hide Files, Links, IsClientSource;
  }

  /** When the raw-tree check succeeds, nothing differs. */
  lemma CleanIsMatch(sel: Selection, sha: Bytes -> string, tree: Forest, listed: Listing, commit: Commit)
    requires Valid(tree) && NothingIgnored(sel, tree, listed) && OneEntryPerPath(tree) && CollisionFree(sha)
    requires Returns(sel, tree, listed) && VerifyClean(sel, sha, tree, commit)
    ensures Differences(sel, tree, listed, commit) == {} && !AnyUnsupported(sel, [], tree)
  {
    hide Files, Links, IsClientSource, Walk, AnyUnsupported, Compare;
    TreeInventoryExact(sel, tree);
    forall n | n in SourceNames(sel, tree, listed) + CommittedNames(sel, commit)
      ensures Compare(sel, tree, listed, commit, n) == {}
    {
      if n in SourceNames(sel, tree, listed) {
        var r :| r in Files([], tree) && r.path == n;
        CleanRow(sel, sha, tree, listed, commit, r);
      } else {
        var r := CommittedRow(sel, sha, tree, commit, n);
        CleanRow(sel, sha, tree, listed, commit, r);
      }
    }
  }

  /** The row of the tree that a committed name has after a successful raw-tree check. */
  lemma CommittedRow(sel: Selection, sha: Bytes -> string, tree: Forest, commit: Commit, n: string) returns (r: Row)
    requires Valid(tree) && VerifyClean(sel, sha, tree, commit) && n in CommittedNames(sel, commit)
    ensures r in Files([], tree) && r.path == n && IsClientSource(sel, n)
  {
    hide Files, Links, IsClientSource, Walk, AnyUnsupported;
    TreeInventoryExact(sel, tree);
    var x := CommittedRecord(sha, commit, n);
    assert x in CommittedInventory(sel, sha, commit).value;
    assert x in Records(sha, Selected(sel, Files([], tree)));
    r :| r in Selected(sel, Files([], tree)) && RecordOf(sha, r) == x;
  }

  lemma CleanRow(sel: Selection, sha: Bytes -> string, tree: Forest, listed: Listing, commit: Commit, r: Row)
    requires Valid(tree) && NothingIgnored(sel, tree, listed) && OneEntryPerPath(tree) && CollisionFree(sha)
    requires VerifyClean(sel, sha, tree, commit)
    requires r in Files([], tree) && IsClientSource(sel, r.path)
    ensures Compare(sel, tree, listed, commit, r.path) == {}
  {
    hide Files, Links, IsClientSource, Walk, AnyUnsupported;
    TreeInventoryExact(sel, tree);
    assert r in Selected(sel, Files([], tree));
    var x := RecordOf(sha, r);
    assert x in Records(sha, Selected(sel, Files([], tree)));
    var n :| n in commit && IsClientSource(sel, n) && CommittedRecord(sha, commit, n) == x;
    assert n == r.path && sha(commit[n].data) == sha(r.content.data);
    assert commit[n].data == r.content.data;
    assert n in Paths(Files([], tree));
    assert Regular(commit[n]);
  }

  /**
   * On a tree with no ignored build inputs and a commit of regular blobs, whenever the
   * Git-listing check returns: the raw-tree check succeeds exactly when it reports a match and
   * the tree holds no unsupported entry. The two answers differ exactly on a match with such an entry.
   */
  lemma ChecksAgree(sel: Selection, sha: Bytes -> string, tree: Forest, listed: Listing, commit: Commit)
    requires Valid(tree) && OneEntryPerPath(tree) && NothingIgnored(sel, tree, listed)
    requires RegularCommit(sel, commit) && CollisionFree(sha)
    requires Returns(sel, tree, listed)
    ensures VerifyClean(sel, sha, tree, commit)
       <==> Differences(sel, tree, listed, commit) == {} && !AnyUnsupported(sel, [], tree)
    ensures VerifyClean(sel, sha, tree, commit) != (Differences(sel, tree, listed, commit) == {})
       <==> Differences(sel, tree, listed, commit) == {} && AnyUnsupported(sel, [], tree)
  {
    if VerifyClean(sel, sha, tree, commit) {
      CleanIsMatch(sel, sha, tree, listed, commit);
    } else if Differences(sel, tree, listed, commit) == {} && !AnyUnsupported(sel, [], tree) {
      MatchIsClean(sel, sha, tree, listed, commit);
    }
  }

  // ---------------------------------------------------------------- where they part

  /** A tree with one more entry at its top: a directory that is a symbolic link. Git lists it as one name. */
  function WithLink(tree: Forest, name: string): Forest { Cons(name, DirLink, tree) }

  function MoreListed(listed: Listing, name: string): Listing { listed.(names := listed.names + {name}) }

  /**
   * Take any tree, listing and commit that match, and link a directory under which build inputs may lie: the
   * Git-listing check still reports a match, while the raw-tree check refuses the tree.
   */
  lemma DirectoryLinkParts(sel: Selection, sha: Bytes -> string, tree: Forest, listed: Listing, commit: Commit,
                           name: string)
    requires Returns(sel, tree, listed) && Differences(sel, tree, listed, commit) == {}
    requires !Forbidden(name) && Relevant(sel, name + "/") && !IsClientSource(sel, name)
    ensures var linked, more := WithLink(tree, name), MoreListed(listed, name);
            && Returns(sel, linked, more) && Differences(sel, linked, more, commit) == {}
            && !VerifyClean(sel, sha, linked, commit)
  {
    hide IsClientSource, Relevant, Forbidden, Compare;
    var linked, more := WithLink(tree, name), MoreListed(listed, name);
    assert [] + [name] == [name] && PathOf([name]) == name;
    assert Files([], linked) == Files([], tree) && Links([], linked) == Links([], tree) + {name};
    assert WalkEntry(sel, [], name, DirLink).None?;
    assert Walk(sel, [], linked).None?;
    hide Files, Links, PathOf;
    assert SourceNames(sel, linked, more) == SourceNames(sel, tree, listed);
    SameDifferences(sel, tree, listed, linked, more, commit);
  }

  lemma SameDifferences(sel: Selection, tree: Forest, listed: Listing, tree': Forest, listed': Listing, commit: Commit)
    requires SourceNames(sel, tree, listed) == SourceNames(sel, tree', listed') && Files([], tree) == Files([], tree')
    ensures Differences(sel, tree, listed, commit) == Differences(sel, tree', listed', commit)
  {
    hide SourceNames, Files;
    var names := SourceNames(sel, tree, listed) + CommittedNames(sel, commit);
    assert forall n :: Compare(sel, tree, listed, commit, n) == Compare(sel, tree', listed', commit, n);
    hide Compare;
  }

  // ---------------------------------------------------------------- a tree on which they part

  const SMALL: Selection := Selection(["client/lib/", "plugins/loginom-dock/"], {REQUIRED})

  function SmallTree(c: Content): Forest {
    Cons("client", Dir(Cons("lib", Dir(Cons("hooks.mjs", File(c), Nil)), Nil)), Nil)
  }

  lemma SmallPaths()
    ensures PathOf(["client", "lib", "hooks.mjs"]) == REQUIRED
  {
    assert ["client", "lib", "hooks.mjs"][1..] == ["lib", "hooks.mjs"] && ["lib", "hooks.mjs"][1..] == ["hooks.mjs"];
  }

  lemma SmallListing(c: Content)
    ensures Files([], SmallTree(c)) == {Row(REQUIRED, c)} && Links([], SmallTree(c)) == {} && Valid(SmallTree(c))
  {
    hide PathOf;
    SmallPaths();
    var lib := Cons("hooks.mjs", File(c), Nil);
    var client := Cons("lib", Dir(lib), Nil);
    assert [] + ["client"] == ["client"] && ["client"] + ["lib"] == ["client", "lib"];
    assert ["client", "lib"] + ["hooks.mjs"] == ["client", "lib", "hooks.mjs"];
    assert Valid(lib) && Valid(client);
    assert Files(["client", "lib"], lib) == {Row(REQUIRED, c)} && Links(["client", "lib"], lib) == {};
    assert Links(["client"], client) == Links(["client", "lib"], lib) + Links(["client"], Nil);
    assert Files(["client"], client) == Files(["client", "lib"], lib) + Files(["client"], Nil);
  }

  lemma SmallSelection()
    ensures IsClientSource(SMALL, REQUIRED) && !IsClientSource(SMALL, "plugins")
    ensures !Forbidden("plugins") && Relevant(SMALL, "plugins" + "/")
  {
    hide Split, PathOf, Forbidden;
    SmallPaths();
    PartsOfPath(["client", "lib", "hooks.mjs"]);
    Allowed("client");
    Allowed("lib");
    Allowed("hooks.mjs");
    Allowed("plugins");
    assert "plugins" + "/" <= SMALL.directories[1];
    assert |SMALL.directories[0]| > 7 && |SMALL.directories[1]| > 7 && "plugins" != REQUIRED;
  }

  lemma Allowed(part: string)
    requires part != "" && part[0] != '.' && part[0] != '_' && part[0] != 'n'
    ensures !Forbidden(part)
  {
  }

  /**
   * One committed file, and "plugins" as a linked directory: everything that the agreement of the checks asks for
   * holds, the Git-listing check reports a match, and the raw-tree check refuses.
   */
  lemma SmallTreeParts(sha: Bytes -> string, c: Content, commit: Commit)
    requires commit == map[REQUIRED := Entry(ModeOf(c.executable), "blob", c.data)]
    ensures var tree, listed := WithLink(SmallTree(c), "plugins"), Listing({REQUIRED, "plugins"}, {});
            && OneEntryPerPath(tree) && NothingIgnored(SMALL, tree, listed) && RegularCommit(SMALL, commit)
            && Returns(SMALL, tree, listed) && Differences(SMALL, tree, listed, commit) == {}
            && !VerifyClean(SMALL, sha, tree, commit)
  {
    var small, listed := SmallTree(c), Listing({REQUIRED}, {});
    SmallListing(c);
    SmallSelection();
    SmallMatches(c, commit);
    hide IsClientSource, Relevant, Forbidden, Compare, Differences, Returns, VerifyClean;
    DirectoryLinkParts(SMALL, sha, small, listed, commit, "plugins");
    assert MoreListed(listed, "plugins") == Listing({REQUIRED, "plugins"}, {});
    LinkedListing(small, "plugins");
    hide Files, Links;
    assert "plugins" != REQUIRED by { assert |"plugins"| != |REQUIRED|; }
  }

  lemma LinkedListing(tree: Forest, name: string)
    ensures Files([], WithLink(tree, name)) == Files([], tree)
            && Links([], WithLink(tree, name)) == Links([], tree) + {name}
  {
    assert [] + [name] == [name] && PathOf([name]) == name;
  }

  lemma SmallMatches(c: Content, commit: Commit)
    requires commit == map[REQUIRED := Entry(ModeOf(c.executable), "blob", c.data)]
    ensures var tree, listed := SmallTree(c), Listing({REQUIRED}, {});
            Returns(SMALL, tree, listed) && Differences(SMALL, tree, listed, commit) == {}
  {
    SmallListing(c);
    SmallSelection();
    hide IsClientSource, Files, Links;
    var tree, listed := SmallTree(c), Listing({REQUIRED}, {});
    assert Row(REQUIRED, c) in Files([], tree);
    assert SourceNames(SMALL, tree, listed) == {REQUIRED};
    assert Compare(SMALL, tree, listed, commit, REQUIRED) == {};
  }

  // ---------------------------------------------------------------- the reported reasons

  /** A reason is reported of a path exactly when it applies. */
  lemma ReasonsAre(sel: Selection, tree: Forest, listed: Listing, commit: Commit, n: string)
    ensures var d, here, there := Differences(sel, tree, listed, commit), n in SourceNames(sel, tree, listed),
                                  n in CommittedNames(sel, commit);
            && (Difference(n, Missing) in d <==> there && !here)
            && (Difference(n, Untracked) in d <==> here && !there)
            && (Difference(n, TypeOrMode) in d <==>
                  && here && there
                  && exists r :: r in Files([], tree) && r.path == n
                                 && (commit[n].kind != "blob" || commit[n].mode != ModeOf(r.content.executable)))
            && (Difference(n, Differs) in d <==>
                  && here && there
                  && exists r :: r in Files([], tree) && r.path == n && commit[n].kind == "blob"
                                 && commit[n].mode == ModeOf(r.content.executable) && commit[n].data != r.content.data)
  {
    hide Files, SourceNames, IsClientSource;
    ReasonsOf(sel, tree, listed, commit, n);
  }

  /** A difference of a path comes from the comparison of that path. */
  lemma ReasonsOf(sel: Selection, tree: Forest, listed: Listing, commit: Commit, n: string)
    ensures forall reason :: Difference(n, reason) in Differences(sel, tree, listed, commit) <==>
              && n in SourceNames(sel, tree, listed) + CommittedNames(sel, commit)
              && Difference(n, reason) in Compare(sel, tree, listed, commit, n)
  {
    hide Files, SourceNames, IsClientSource, CommittedNames;
    forall reason | Difference(n, reason) in Differences(sel, tree, listed, commit)
      ensures n in SourceNames(sel, tree, listed) + CommittedNames(sel, commit)
      ensures Difference(n, reason) in Compare(sel, tree, listed, commit, n)
    {
      var names := SourceNames(sel, tree, listed) + CommittedNames(sel, commit);
      var m :| m in names && Difference(n, reason) in Compare(sel, tree, listed, commit, m);
    }
  }

  /** The mode of a file, by its execute bits. */
  lemma ModesAre()
    ensures ModeOf(true) == "100755" && ModeOf(false) == "100644"
  {
  }
}
