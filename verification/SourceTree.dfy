/**
 The client source selection and the directory walk that collects it. The walk prunes
 whole directories; it is proved to find exactly the files that filtering a complete
 listing by the selection rule would find, and to fail exactly on unsupported entries.
 */
module SourceTree {
  import opened Base
  import opened Strings

  type Bytes = seq<bv8>

  /** The bytes of a file and whether any execute bit is set. */
  datatype Content = Content(data: Bytes, executable: bool)

  /** A file of a listing. The inventories sort their rows by path; as sets they need no order. */
  datatype Row = Row(path: string, content: Content)

  /** What a directory entry is; the target of a link is not looked at. */
  datatype Node =
    | File(content: Content)
    | Dir(entries: Forest)
    | FileLink | DirLink
    | Special

  /** The entries of a directory in the order they are listed. */
  datatype Forest = Nil | Cons(name: string, node: Node, rest: Forest)

  predicate ValidName(name: string) { name != "" && '/' !in name }

  predicate Valid(f: Forest) {
    match f
    case Nil => true
    case Cons(name, node, rest) => ValidName(name) && ValidNode(node) && Valid(rest)
  }

  predicate ValidNode(n: Node) { n.Dir? ==> Valid(n.entries) }

  // ---------------------------------------------------------------- the selection rule

  datatype Selection = Selection(directories: seq<string>, individual: set<string>)

  predicate Forbidden(part: string) {
    part == "node_modules" || part == "__pycache__" || part == ".git" || ".env" <= part
  }

  predicate HasForbidden(parts: seq<string>) {
    exists k :: 0 <= k < |parts| && Forbidden(parts[k])
  }

  predicate InDirectories(sel: Selection, name: string) {
    exists k :: 0 <= k < |sel.directories| && sel.directories[k] <= name
  }

  /** `is_client_source`. Empty and "." components of the path are never forbidden. */
  predicate IsClientSource(sel: Selection, name: string) {
    name != "" && (name in sel.individual || InDirectories(sel, name)) && !HasForbidden(Split(name, '/'))
  }

  // ---------------------------------------------------------------- the complete listing

  /** The path of an entry called `name` in the directory reached by `dir`. */
  function PathOf(parts: seq<string>): string { Join(parts, '/') }

  /** Every regular file below a directory, by its path. */
  function Files(dir: seq<string>, f: Forest): set<Row>
    decreases f
  {
    match f
    case Nil => {}
    case Cons(name, node, rest) => FilesAt(dir + [name], node) + Files(dir, rest)
  }

  function FilesAt(parts: seq<string>, n: Node): set<Row>
    decreases n
  {
    match n
    case File(c) => {Row(PathOf(parts), c)}
    case Dir(es) => Files(parts, es)
    case _ => {}
  }

  /** The paths of all symbolic links below a directory. */
  function Links(dir: seq<string>, f: Forest): set<string>
    decreases f
  {
    match f
    case Nil => {}
    case Cons(name, node, rest) => LinksAt(dir + [name], node) + Links(dir, rest)
  }

  function LinksAt(parts: seq<string>, n: Node): set<string>
    decreases n
  {
    match n
    case FileLink => {PathOf(parts)}
    case DirLink => {PathOf(parts)}
    case Dir(es) => Links(parts, es)
    case _ => {}
  }

  function Selected(sel: Selection, files: set<Row>): set<Row> {
    set r | r in files && IsClientSource(sel, r.path)
  }

  /** A directory prefix under which a selected file may lie. */
  predicate Relevant(sel: Selection, prefix: string) {
    || (exists k :: 0 <= k < |sel.directories| && (sel.directories[k] <= prefix || prefix <= sel.directories[k]))
    || (exists p :: p in sel.individual && prefix <= p)
  }

  /** An entry that stands where a build input may be, but is neither a file nor a directory. */
  predicate Unsupported(sel: Selection, parts: seq<string>, n: Node) {
    match n
    case FileLink => IsClientSource(sel, PathOf(parts))
    case Special => IsClientSource(sel, PathOf(parts))
    case DirLink => !HasForbidden(parts) && Relevant(sel, PathOf(parts) + "/")
    case _ => false
  }

  /** Some entry of the complete tree is unsupported. */
  predicate AnyUnsupported(sel: Selection, dir: seq<string>, f: Forest)
    decreases f
  {
    match f
    case Nil => false
    case Cons(name, node, rest) => UnsupportedAt(sel, dir + [name], node) || AnyUnsupported(sel, dir, rest)
  }

  predicate UnsupportedAt(sel: Selection, parts: seq<string>, n: Node)
    decreases n
  {
    if n.Dir? then AnyUnsupported(sel, parts, n.entries) else Unsupported(sel, parts, n)
  }

  // ---------------------------------------------------------------- the pruned walk

  function Both(a: Option<set<Row>>, b: Option<set<Row>>): Option<set<Row>> {
    if a.Some? && b.Some? then Some(a.value + b.value) else None
  }

  /** `tree_inventory` below one directory; `None` stands for the errors it raises. */
  function Walk(sel: Selection, dir: seq<string>, f: Forest): Option<set<Row>>
    decreases f
  {
    match f
    case Nil => Some({})
    case Cons(name, node, rest) => Both(WalkEntry(sel, dir, name, node), Walk(sel, dir, rest))
  }

  function WalkEntry(sel: Selection, dir: seq<string>, name: string, n: Node): Option<set<Row>>
    decreases n
  {
    var path := PathOf(dir + [name]);
    if n.Dir? || n.DirLink? then
      if Forbidden(name) || !Relevant(sel, path + "/") then Some({})
      else if n.DirLink? then None
      else Walk(sel, dir + [name], n.entries)
    else if !IsClientSource(sel, path) then Some({})
    else if n.File? then Some({Row(path, n.content)})
    else None
  }

  // ---------------------------------------------------------------- paths

  predicate ValidParts(parts: seq<string>) {
    forall k :: 0 <= k < |parts| ==> ValidName(parts[k])
  }

  lemma PartsOfPath(parts: seq<string>)
    requires parts != [] && ValidParts(parts)
    ensures PathOf(parts) != "" && Split(PathOf(parts), '/') == parts
  {
    SplitJoin(parts, '/');
  }

  lemma {:induction false} PathExtends(dir: seq<string>, more: seq<string>)
    requires dir != [] && more != []
    ensures PathOf(dir) + "/" <= PathOf(dir + more)
    decreases |dir|
  {
    if |dir| == 1 {
      assert (dir + more)[1..] == more;
    } else {
      PathExtends(dir[1..], more);
      assert (dir + more)[1..] == dir[1..] + more;
      var x, y := PathOf(dir[1..]) + "/", PathOf(dir[1..] + more);
      assert PathOf(dir) + "/" == dir[0] + "/" + x;
      assert PathOf(dir + more) == dir[0] + "/" + y;
    }
  }

  lemma PrefixOfPrefix(a: string, b: string, s: string)
    requires a <= s && b <= s
    ensures a <= b || b <= a
  {
    assert forall k :: 0 <= k < |a| ==> a[k] == s[k];
    assert forall k :: 0 <= k < |b| ==> b[k] == s[k];
  }

  lemma PrefixTransitive(a: string, b: string, c: string)
    requires a <= b && b <= c
    ensures a <= c
  {
  }

  /** A selected path makes every directory on the way to it relevant. */
  lemma SelectedIsRelevant(sel: Selection, prefix: string, path: string)
    requires prefix <= path && IsClientSource(sel, path)
    ensures Relevant(sel, prefix)
  {
    if InDirectories(sel, path) {
      var k :| 0 <= k < |sel.directories| && sel.directories[k] <= path;
      PrefixOfPrefix(prefix, sel.directories[k], path);
    }
  }

  lemma RelevantUpwards(sel: Selection, prefix: string, longer: string)
    requires prefix <= longer && Relevant(sel, longer)
    ensures Relevant(sel, prefix)
  {
    if k :| 0 <= k < |sel.directories| && sel.directories[k] <= longer {
      PrefixOfPrefix(prefix, sel.directories[k], longer);
    } else if k :| 0 <= k < |sel.directories| && longer <= sel.directories[k] {
      PrefixTransitive(prefix, longer, sel.directories[k]);
    } else {
      var p :| p in sel.individual && longer <= p;
      PrefixTransitive(prefix, longer, p);
    }
  }

  // ---------------------------------------------------------------- pruning loses nothing

  /** A directory the walk does not enter: one of its names is forbidden, or nothing below it is selected. */
  predicate Pruned(sel: Selection, dir: seq<string>) {
    HasForbidden(dir) || !Relevant(sel, PathOf(dir) + "/")
  }

  lemma PrunedPath(sel: Selection, dir: seq<string>, more: seq<string>)
    requires dir != [] && more != [] && ValidParts(dir + more) && Pruned(sel, dir)
    ensures !IsClientSource(sel, PathOf(dir + more))
    ensures HasForbidden(dir + more) || !Relevant(sel, PathOf(dir + more) + "/")
    ensures Pruned(sel, dir + more)
  {
    hide PathOf, Relevant, InDirectories;
    PartsOfPath(dir + more);
    PathExtends(dir, more);
    var prefix, path := PathOf(dir) + "/", PathOf(dir + more);
    if HasForbidden(dir) {
      var k :| 0 <= k < |dir| && Forbidden(dir[k]);
      assert Forbidden((dir + more)[k]);
    } else {
      if IsClientSource(sel, path) {
        SelectedIsRelevant(sel, prefix, path);
      }
      if Relevant(sel, path + "/") {
        PrefixTransitive(prefix, path, path + "/");
        RelevantUpwards(sel, prefix, path + "/");
      }
    }
  }

  lemma {:induction false} PrunedHasNothing(sel: Selection, dir: seq<string>, f: Forest)
    requires dir != [] && ValidParts(dir) && Valid(f) && Pruned(sel, dir)
    ensures Selected(sel, Files(dir, f)) == {} && !AnyUnsupported(sel, dir, f)
    decreases f
  {
    hide Pruned, IsClientSource, Relevant, HasForbidden, PathOf;
    if f.Cons? {
      PrunedHasNothing(sel, dir, f.rest);
      PrunedNode(sel, dir, f.name, f.node);
    }
  }

  lemma {:induction false} PrunedNode(sel: Selection, dir: seq<string>, name: string, n: Node)
    requires dir != [] && ValidParts(dir) && ValidName(name) && ValidNode(n) && Pruned(sel, dir)
    ensures Selected(sel, FilesAt(dir + [name], n)) == {} && !UnsupportedAt(sel, dir + [name], n)
    decreases n
  {
    hide Pruned, IsClientSource, Relevant, HasForbidden, PathOf;
    PrunedPath(sel, dir, [name]);
    if n.Dir? {
      PrunedHasNothing(sel, dir + [name], n.entries);
    }
  }

  lemma SelectedUnion(sel: Selection, a: set<Row>, b: set<Row>)
    ensures Selected(sel, a + b) == Selected(sel, a) + Selected(sel, b)
  {
  }

  /** The outcome the complete listing prescribes. */
  function Prescribed(sel: Selection, unsupported: bool, files: set<Row>): Option<set<Row>> {
    if unsupported then None else Some(Selected(sel, files))
  }

  lemma {:induction false} WalkIsFilter(sel: Selection, dir: seq<string>, f: Forest)
    requires ValidParts(dir) && Valid(f) && !HasForbidden(dir)
    ensures Walk(sel, dir, f) == Prescribed(sel, AnyUnsupported(sel, dir, f), Files(dir, f))
    decreases f
  {
    hide IsClientSource, Relevant, HasForbidden, PathOf, Selected;
    if f.Cons? {
      WalkIsFilter(sel, dir, f.rest);
      WalkEntryIsFilter(sel, dir, f.name, f.node);
      SelectedUnion(sel, FilesAt(dir + [f.name], f.node), Files(dir, f.rest));
    } else {
      SelectedNothing(sel);
    }
  }

  lemma SelectedNothing(sel: Selection)
    ensures Selected(sel, {}) == {}
  {
  }

  lemma SelectedOne(sel: Selection, r: Row)
    ensures Selected(sel, {r}) == if IsClientSource(sel, r.path) then {r} else {}
  {
  }

  lemma {:induction false} WalkEntryIsFilter(sel: Selection, dir: seq<string>, name: string, n: Node)
    requires ValidParts(dir) && ValidName(name) && ValidNode(n) && !HasForbidden(dir)
    ensures WalkEntry(sel, dir, name, n)
         == Prescribed(sel, UnsupportedAt(sel, dir + [name], n), FilesAt(dir + [name], n))
    decreases n
  {
    hide IsClientSource, Relevant, HasForbidden, PathOf;
    var parts := dir + [name];
    ForbiddenLast(dir, name);
    SelectedNothing(sel);
    if n.File? {
      SelectedOne(sel, Row(PathOf(parts), n.content));
    }
    if n.Dir? {
      if HasForbidden(parts) || !Relevant(sel, PathOf(parts) + "/") {
        PrunedHasNothing(sel, parts, n.entries);
      } else {
        WalkIsFilter(sel, parts, n.entries);
      }
    }
  }

  lemma ForbiddenLast(dir: seq<string>, name: string)
    requires !HasForbidden(dir)
    ensures HasForbidden(dir + [name]) <==> Forbidden(name)
  {
    var parts := dir + [name];
    assert parts[|dir|] == name;
    assert forall k :: 0 <= k < |dir| ==> parts[k] == dir[k];
  }

  /**
   * The pruned walk of a whole tree returns exactly the selected files of the complete
   * listing, unless the tree holds an unsupported entry, and then it fails.
   */
  lemma TreeInventoryExact(sel: Selection, tree: Forest)
    requires Valid(tree)
    ensures Walk(sel, [], tree).None? <==> AnyUnsupported(sel, [], tree)
    ensures Walk(sel, [], tree).Some? ==> Walk(sel, [], tree).value == Selected(sel, Files([], tree))
  {
    WalkIsFilter(sel, [], tree);
  }

  // ---------------------------------------------------------------- the walk as a loop

  /** A directory still to be visited. */
  datatype Visit = Visit(dir: seq<string>, entries: Forest)

  function Pending(sel: Selection, work: seq<Visit>): Option<set<Row>> {
    if work == [] then Some({}) else Both(Walk(sel, work[0].dir, work[0].entries), Pending(sel, work[1..]))
  }

  function Size(f: Forest): nat
    decreases f
  {
    match f
    case Nil => 0
    case Cons(_, node, rest) => 1 + (if node.Dir? then Size(node.entries) else 0) + Size(rest)
  }

  /** Entries not yet visited, each directory counting once more. */
  function Remaining(work: seq<Visit>): nat {
    if work == [] then 0 else 1 + 2 * Size(work[0].entries) + Remaining(work[1..])
  }

  lemma BothLaws(a: Option<set<Row>>, b: Option<set<Row>>, c: Option<set<Row>>)
    ensures Both(Both(a, b), c) == Both(a, Both(b, c))
    ensures Both(a, b) == Both(b, a)
    ensures Both(Some({}), a) == a
  {
    if a.Some? {
      assert {} + a.value == a.value;
    }
    if a.Some? && b.Some? {
      assert a.value + b.value == b.value + a.value;
      if c.Some? {
        assert (a.value + b.value) + c.value == a.value + (b.value + c.value);
      }
    }
  }

  lemma {:induction false} PendingAppend(sel: Selection, work: seq<Visit>, v: Visit)
    ensures Pending(sel, work + [v]) == Both(Pending(sel, work), Walk(sel, v.dir, v.entries))
    ensures Remaining(work + [v]) == Remaining(work) + 1 + 2 * Size(v.entries)
  {
    hide Both, Walk;
    if work == [] {
      assert [v][1..] == [];
      BothLaws(Some({}), Walk(sel, v.dir, v.entries), Some({}));
    } else {
      assert (work + [v])[1..] == work[1..] + [v];
      PendingAppend(sel, work[1..], v);
      BothLaws(Walk(sel, work[0].dir, work[0].entries), Pending(sel, work[1..]), Walk(sel, v.dir, v.entries));
    }
  }

  /** Everything found so far, in the rest of the directory, and in the directories still to be visited. */
  function Total(sel: Selection, found: set<Row>, dir: seq<string>, f: Forest, work: seq<Visit>): Option<set<Row>> {
    Both(Some(found), Both(Walk(sel, dir, f), Pending(sel, work)))
  }

  /** Taking the first entry into account at once. */
  lemma TotalAbsorb(sel: Selection, found: set<Row>, dir: seq<string>, f: Forest, work: seq<Visit>)
    requires f.Cons?
    ensures var e := WalkEntry(sel, dir, f.name, f.node);
            Total(sel, found, dir, f, work)
            == if e.None? then None else Total(sel, found + e.value, dir, f.rest, work)
  {
    hide Both, Pending;
    var e, rest, p := WalkEntry(sel, dir, f.name, f.node), Walk(sel, dir, f.rest), Pending(sel, work);
    assert Walk(sel, dir, f) == Both(e, rest);
    BothLaws(e, rest, p);
    BothLaws(Some(found), e, Both(rest, p));
    BothValues(Some(found), e);
    BothValues(None, Both(rest, p));
  }

  lemma BothValues(a: Option<set<Row>>, b: Option<set<Row>>)
    ensures a.Some? && b.Some? ==> Both(a, b) == Some(a.value + b.value)
    ensures a.None? || b.None? ==> Both(a, b) == None
  {
  }

  /** Leaving the first entry, a directory, for later. */
  lemma TotalDefer(sel: Selection, found: set<Row>, dir: seq<string>, f: Forest, work: seq<Visit>, v: Visit)
    requires f.Cons? && WalkEntry(sel, dir, f.name, f.node) == Walk(sel, v.dir, v.entries)
    ensures Total(sel, found, dir, f, work) == Total(sel, found, dir, f.rest, work + [v])
  {
    hide Both, Pending, WalkEntry;
    var e, rest, p := Walk(sel, v.dir, v.entries), Walk(sel, dir, f.rest), Pending(sel, work);
    assert Walk(sel, dir, f) == Both(e, rest);
    PendingAppend(sel, work, v);
    BothLaws(e, Both(rest, p), None);
    BothLaws(e, rest, p);
    BothLaws(rest, p, e);
  }

  /** One directory of `os.walk`: collect its files, and the directories to descend into. */
  method VisitDirectory(sel: Selection, found: set<Row>, dir: seq<string>, entries: Forest, work: seq<Visit>)
    returns (files: Option<set<Row>>, more: seq<Visit>)
    ensures files.None? ==> Total(sel, found, dir, entries, work).None?
    ensures files.Some? ==> Total(sel, files.value, dir, Nil, more) == Total(sel, found, dir, entries, work)
    ensures files.Some? ==> Remaining(more) <= Remaining(work) + 2 * Size(entries)
  {
    hide Walk, Pending, Remaining, Both, Total, Relevant, IsClientSource;
    var f, rows := entries, found;
    more := work;
    while f.Cons?
      invariant Total(sel, rows, dir, f, more) == Total(sel, found, dir, entries, work)
      invariant Remaining(more) + 2 * Size(f) <= Remaining(work) + 2 * Size(entries)
      decreases f
    {
      var name, node, path := f.name, f.node, PathOf(dir + [f.name]);
      TotalAbsorb(sel, rows, dir, f, more);
      assert rows + {} == rows;
      if node.Dir? || node.DirLink? {
        if !Forbidden(name) && Relevant(sel, path + "/") {
          if node.DirLink? {
            return None, [];
          }
          var v := Visit(dir + [name], node.entries);
          TotalDefer(sel, rows, dir, f, more, v);
          PendingAppend(sel, more, v);
          more := more + [v];
        }
      } else if IsClientSource(sel, path) {
        if !node.File? {
          return None, [];
        }
        rows := rows + {Row(path, node.content)};
      }
      f := f.rest;
    }
    return Some(rows), more;
  }

  /** `tree_inventory`: visit directory after directory until none is left. */
  method TreeInventory(sel: Selection, tree: Forest) returns (rows: Option<set<Row>>)
    ensures rows == Walk(sel, [], tree)
  {
    hide Walk, Both, Total;
    var work: seq<Visit>, files: set<Row> := [Visit([], tree)], {};
    TotalOne(sel, tree);
    while work != []
      invariant Total(sel, files, [], Nil, work) == Walk(sel, [], tree)
      decreases Remaining(work)
    {
      var v := work[0];
      TotalNext(sel, files, work);
      var result, more := VisitDirectory(sel, files, v.dir, v.entries, work[1..]);
      if result.None? {
        return None;
      }
      TotalAnyDir(sel, result.value, v.dir, [], more);
      files, work := result.value, more;
    }
    TotalDone(sel, files);
    return Some(files);
  }

  lemma TotalAnyDir(sel: Selection, found: set<Row>, dir: seq<string>, other: seq<string>, work: seq<Visit>)
    ensures Total(sel, found, dir, Nil, work) == Total(sel, found, other, Nil, work)
  {
  }

  lemma TotalNext(sel: Selection, found: set<Row>, work: seq<Visit>)
    requires work != []
    ensures Total(sel, found, [], Nil, work) == Total(sel, found, work[0].dir, work[0].entries, work[1..])
  {
    hide Both;
    BothLaws(Pending(sel, work), None, None);
    assert Walk(sel, [], Nil) == Some({});
  }

  lemma TotalOne(sel: Selection, tree: Forest)
    ensures Total(sel, {}, [], Nil, [Visit([], tree)]) == Walk(sel, [], tree)
  {
    hide Both;
    var w := Walk(sel, [], tree);
    assert Pending(sel, [Visit([], tree)]) == Both(w, Some({}));
    assert Walk(sel, [], Nil) == Some({});
    BothLaws(w, Some({}), None);
    BothLaws(Both(w, Some({})), None, None);
    BothLaws(Both(Some({}), Both(w, Some({}))), None, None);
  }

  lemma TotalDone(sel: Selection, found: set<Row>)
    ensures Total(sel, found, [], Nil, []) == Some(found)
  {
    assert found + ({} + {}) == found;
  }

  // ---------------------------------------------------------------- what is never selected

  /** The components that keep a file out: dependencies, caches, repositories and secrets. */
  ghost predicate Excluding(part: string) {
    part in {"node_modules", "__pycache__", ".git"} || exists rest :: part == ".env" + rest
  }

  lemma ForbiddenExactly(part: string)
    ensures Forbidden(part) <==> Excluding(part)
  {
    if ".env" <= part {
      assert part == ".env" + part[4..];
    }
    if rest :| part == ".env" + rest {
      assert ".env" <= ".env" + rest;
    }
  }

  /** A name is never selected if such a component stands alone, first, last or between slashes. */
  lemma NeverSelected(sel: Selection, part: string, a: string, b: string)
    requires Excluding(part) && '/' !in part
    ensures !IsClientSource(sel, part) && !IsClientSource(sel, part + "/" + b)
    ensures !IsClientSource(sel, a + "/" + part) && !IsClientSource(sel, a + "/" + part + "/" + b)
  {
    hide Split, Excluding, Forbidden, InDirectories, IsClientSource;
    ForbiddenExactly(part);
    Alone(part);
    Refused(sel, part, part);
    SplitAppend(part, b, '/');
    assert part + ['/'] + b == part + "/" + b;
    Refused(sel, part + "/" + b, part);
    SplitAppend(a, part, '/');
    assert a + ['/'] + part == a + "/" + part;
    Refused(sel, a + "/" + part, part);
    SplitAppend(a + "/" + part, b, '/');
    assert a + "/" + part + ['/'] + b == a + "/" + part + "/" + b;
    Refused(sel, a + "/" + part + "/" + b, part);
  }

  lemma Alone(part: string)
    requires '/' !in part
    ensures Split(part, '/') == [part]
  {
    FindIs(part, '/', 0, |part|);
  }

  lemma Refused(sel: Selection, name: string, part: string)
    requires part in Split(name, '/') && Forbidden(part)
    ensures !IsClientSource(sel, name)
  {
    hide Split, Forbidden;
  }

  /** A listed file, or one below a listed directory, is selected if it has no such component. */
  lemma Selects(sel: Selection, parts: seq<string>, k: nat, rest: string)
    requires parts != [] && ValidParts(parts) && forall i :: 0 <= i < |parts| ==> !Excluding(parts[i])
    requires PathOf(parts) in sel.individual || (k < |sel.directories| && PathOf(parts) == sel.directories[k] + rest)
    ensures IsClientSource(sel, PathOf(parts))
  {
    hide Split, Excluding, Forbidden, PathOf;
    PartsOfPath(parts);
    forall i | 0 <= i < |parts|
      ensures !Forbidden(parts[i])
    {
      ForbiddenExactly(parts[i]);
    }
    if PathOf(parts) !in sel.individual {
      assert sel.directories[k] <= sel.directories[k] + rest;
    }
  }
}
