/**
 The tree that the staging of client sources builds, entry by entry, and its verification by the walk.
 */
module StagedTree {
  import opened Base
  import opened Strings
  import opened SourceTree
  import opened Provenance
  import opened StagedCopy

  // ---------------------------------------------------------------- parts of a tree

  /** The entry of a directory with a given name. */
  function Entry(f: Forest, name: string): Option<Node> {
    match f
    case Nil => None
    case Cons(n, node, rest) => if n == name then Some(node) else Entry(rest, name)
  }

  /** What stands at a path. */
  function NodeAt(f: Forest, parts: seq<string>): Option<Node>
    requires parts != []
    decreases |parts|
  {
    var e := Entry(f, parts[0]);
    if e.None? || |parts| == 1 then e
    else if e.value.Dir? then NodeAt(e.value.entries, parts[1..])
    else None
  }

  /** Every entry of `f` is one of `g`; of a directory only part of the entries may be there. */
  predicate Part(f: Forest, g: Forest)
    decreases f
  {
    match f
    case Nil => true
    case Cons(name, node, rest) => Entry(g, name).Some? && PartNode(node, Entry(g, name).value) && Part(rest, g)
  }

  predicate PartNode(n: Node, m: Node)
    decreases n
  {
    if n.Dir? then m.Dir? && Part(n.entries, m.entries) else n == m
  }

  /** A tree and the rest of its top directory look alike where the first name does not matter. */
  lemma {:induction false} PartOfLonger(f: Forest, name: string, node: Node, g: Forest)
    requires Part(f, g) && name !in Listed(f)
    ensures Part(f, Cons(name, node, g))
  {
    if f.Cons? {
      PartOfLonger(f.rest, name, node, g);
    }
  }

  /** A copy is part of what is copied. */
  lemma {:induction false} CopyIsPart(f: Forest)
    requires Distinct(f)
    ensures Part(CopyTree(f), f) && Listed(CopyTree(f)) <= Listed(f)
    decreases f
  {
    if f.Cons? {
      CopyIsPart(f.rest);
      if f.node.Dir? {
        CopyIsPart(f.node.entries);
      }
      PartOfLonger(CopyTree(f.rest), f.name, f.node, f.rest);
    }
  }

  lemma {:induction false} EntryUnsupported(sel: Selection, dir: seq<string>, f: Forest, name: string)
    requires Entry(f, name).Some? && UnsupportedAt(sel, dir + [name], Entry(f, name).value)
    ensures AnyUnsupported(sel, dir, f)
  {
    if f.name != name {
      EntryUnsupported(sel, dir, f.rest, name);
    }
  }

  /** A part has no unsupported entry that the whole has not. */
  lemma {:induction false} PartUnsupported(sel: Selection, dir: seq<string>, f: Forest, g: Forest)
    requires Part(f, g) && AnyUnsupported(sel, dir, f)
    ensures AnyUnsupported(sel, dir, g)
    decreases f
  {
    if AnyUnsupported(sel, dir, f.rest) {
      PartUnsupported(sel, dir, f.rest, g);
    } else {
      var m := Entry(g, f.name).value;
      if f.node.Dir? {
        PartUnsupported(sel, dir + [f.name], f.node.entries, m.entries);
      }
      EntryUnsupported(sel, dir, g, f.name);
    }
  }

  // ---------------------------------------------------------------- placing

  /** A node below new directories. */
  function Nest(parts: seq<string>, node: Node): Node {
    if parts == [] then node else Dir(Cons(parts[0], Nest(parts[1..], node), Nil))
  }

  /** A node can be placed at a path: nothing is in the way, or the same file is there already. */
  predicate Placeable(f: Forest, parts: seq<string>, node: Node)
    requires parts != []
    decreases |parts|
  {
    var e := Entry(f, parts[0]);
    if e.None? then true
    else if |parts| == 1 then e.value == node && node.File?
    else e.value.Dir? && Placeable(e.value.entries, parts[1..], node)
  }

  /** Place a node, making the directories on the way. */
  function Place(f: Forest, parts: seq<string>, node: Node): Forest
    requires parts != [] && Placeable(f, parts, node)
    decreases |parts|, f
  {
    match f
    case Nil => Cons(parts[0], Nest(parts[1..], node), Nil)
    case Cons(name, n, rest) =>
      if name != parts[0] then Cons(name, n, Place(rest, parts, node))
      else if |parts| == 1 then f
      else Cons(name, Dir(Place(n.entries, parts[1..], node)), rest)
  }

  lemma {:induction false} NestFiles(dir: seq<string>, parts: seq<string>, node: Node)
    ensures FilesAt(dir, Nest(parts, node)) == FilesAt(dir + parts, node)
    decreases |parts|
  {
    hide PathOf;
    if parts == [] {
      assert dir + parts == dir;
    } else {
      NestFiles(dir + [parts[0]], parts[1..], node);
      assert (dir + [parts[0]]) + parts[1..] == dir + parts;
      var inner := Cons(parts[0], Nest(parts[1..], node), Nil);
      assert Files(dir, inner) == FilesAt(dir + [parts[0]], inner.node) + Files(dir, Nil);
    }
  }

  /** Placing adds the files of the node, at its path. */
  lemma {:induction false} PlaceFiles(dir: seq<string>, f: Forest, parts: seq<string>, node: Node)
    requires parts != [] && Placeable(f, parts, node)
    ensures Files(dir, Place(f, parts, node)) == Files(dir, f) + FilesAt(dir + parts, node)
    decreases |parts|, f
  {
    hide PathOf;
    var first := dir + [parts[0]];
    assert first + parts[1..] == dir + parts;
    if f.Nil? {
      NestFiles(first, parts[1..], node);
    } else if f.name != parts[0] {
      PlaceFiles(dir, f.rest, parts, node);
    } else if |parts| > 1 {
      PlaceFiles(first, f.node.entries, parts[1..], node);
    } else {
      assert dir + parts == first;
    }
  }

  lemma {:induction false} NestIsPart(parts: seq<string>, node: Node, m: Node, g: Forest, name: string)
    requires NodeAt(g, [name] + parts) == Some(m) && PartNode(node, m)
    ensures Entry(g, name).Some? && PartNode(Nest(parts, node), Entry(g, name).value)
    decreases |parts|
  {
    var path := [name] + parts;
    assert path[1..] == parts;
    if parts != [] {
      var e := Entry(g, name).value;
      assert parts == [parts[0]] + parts[1..];
      NestIsPart(parts[1..], node, m, e.entries, parts[0]);
    }
  }

  /** Placing part of what a tree has at a path keeps a part of the tree. */
  lemma {:induction false} PlaceIsPart(f: Forest, parts: seq<string>, node: Node, g: Forest)
    requires parts != [] && Placeable(f, parts, node) && Part(f, g)
    requires NodeAt(g, parts).Some? && PartNode(node, NodeAt(g, parts).value)
    ensures Part(Place(f, parts, node), g)
    decreases |parts|, f
  {
    if f.Nil? {
      assert parts == [parts[0]] + parts[1..];
      NestIsPart(parts[1..], node, NodeAt(g, parts).value, g, parts[0]);
    } else if f.name != parts[0] {
      PlaceIsPart(f.rest, parts, node, g);
    } else if |parts| > 1 {
      PlaceIsPart(f.node.entries, parts[1..], node, Entry(g, f.name).value.entries);
    }
  }

  lemma {:induction false} NestIsValid(parts: seq<string>, node: Node)
    requires ValidParts(parts) && ValidNode(node)
    ensures ValidNode(Nest(parts, node))
  {
    if parts != [] {
      NestIsValid(parts[1..], node);
    }
  }

  lemma {:induction false} PlaceIsValid(f: Forest, parts: seq<string>, node: Node)
    requires parts != [] && Placeable(f, parts, node) && Valid(f) && ValidParts(parts) && ValidNode(node)
    ensures Valid(Place(f, parts, node))
    decreases |parts|, f
  {
    if f.Nil? {
      NestIsValid(parts[1..], node);
    } else if f.name != parts[0] {
      PlaceIsValid(f.rest, parts, node);
    } else if |parts| > 1 {
      PlaceIsValid(f.node.entries, parts[1..], node);
    }
  }

  /** In part of a tree a directory of the tree can be placed, unless it is there. */
  lemma {:induction false} DirectoryFits(f: Forest, parts: seq<string>, node: Node, g: Forest)
    requires parts != [] && Part(f, g) && NodeAt(g, parts).Some? && NodeAt(g, parts).value.Dir?
    requires NodeAt(f, parts).None?
    ensures Placeable(f, parts, node)
    decreases |parts|
  {
    var e := Entry(f, parts[0]);
    if e.Some? {
      EntryIsPart(f, g, parts[0]);
      if |parts| > 1 {
        DirectoryFits(e.value.entries, parts[1..], node, Entry(g, parts[0]).value.entries);
      }
    }
  }

  /** So can a file. */
  lemma {:induction false} FileFits(f: Forest, parts: seq<string>, node: Node, g: Forest)
    requires parts != [] && Part(f, g) && NodeAt(g, parts) == Some(node) && node.File?
    ensures Placeable(f, parts, node)
    decreases |parts|
  {
    var e := Entry(f, parts[0]);
    if e.Some? {
      EntryIsPart(f, g, parts[0]);
      if |parts| > 1 {
        FileFits(e.value.entries, parts[1..], node, Entry(g, parts[0]).value.entries);
      }
    }
  }

  lemma {:induction false} EntryIsPart(f: Forest, g: Forest, name: string)
    requires Part(f, g) && Entry(f, name).Some?
    ensures Entry(g, name).Some? && PartNode(Entry(f, name).value, Entry(g, name).value)
  {
    if f.name != name {
      EntryIsPart(f.rest, g, name);
    }
  }

  // ---------------------------------------------------------------- looking up

  lemma {:induction false} LookupIsNode(f: Forest, parts: seq<string>)
    requires parts != []
    ensures Lookup(f, parts).Some? <==> NodeAt(f, parts).Some? && NodeAt(f, parts).value.Dir?
    ensures Lookup(f, parts).Some? ==> NodeAt(f, parts).value == Dir(Lookup(f, parts).value)
    decreases |parts|, f
  {
    if f.Cons? {
      if f.name != parts[0] {
        LookupIsNode(f.rest, parts);
      } else if f.node.Dir? && |parts| > 1 {
        LookupIsNode(f.node.entries, parts[1..]);
      }
    }
  }

  /** A file of a tree stands at its path. */
  lemma {:induction false} LeafStands(dir: seq<string>, f: Forest, l: Leaf)
    requires Valid(f) && Distinct(f) && ValidParts(dir) && l in Leaves(dir, f)
    ensures dir < l.parts && NodeAt(f, l.parts[|dir|..]) == Some(File(l.content))
    decreases f
  {
    LeafParts(dir, f, l);
    var parts := dir + [f.name];
    var rest := l.parts[|dir|..];
    if l in Leaves(dir, f.rest) {
      LeafStands(dir, f.rest, l);
      LeafParts(dir, f.rest, l);
      NodeBehind(f, rest);
    } else if f.node.Dir? {
      LeafStands(parts, f.node.entries, l);
      assert l.parts[..|parts|] == parts;
      assert rest[0] == l.parts[|dir|] == parts[|dir|] == f.name;
      assert rest[1..] == l.parts[|parts|..];
    } else {
      assert rest == [f.name];
    }
  }

  lemma NodeBehind(f: Forest, parts: seq<string>)
    requires f.Cons? && parts != [] && parts[0] != f.name
    ensures NodeAt(f, parts) == NodeAt(f.rest, parts)
  {
  }

  lemma {:induction false} NodeIsLeaf(dir: seq<string>, f: Forest, parts: seq<string>)
    requires parts != [] && NodeAt(f, parts).Some? && NodeAt(f, parts).value.File?
    ensures Leaf(dir + parts, NodeAt(f, parts).value.content) in Leaves(dir, f)
    decreases |parts|, f
  {
    if f.name != parts[0] {
      NodeBehind(f, parts);
      NodeIsLeaf(dir, f.rest, parts);
    } else if |parts| == 1 {
      assert dir + [f.name] == dir + parts;
    } else {
      assert (dir + [f.name]) + parts[1..] == dir + parts;
      NodeIsLeaf(dir + [f.name], f.node.entries, parts[1..]);
    }
  }

  /** The row of a path, if a file stands there, and no other. */
  lemma RowAt(tree: Forest, path: string)
    requires Valid(tree) && Distinct(tree)
    ensures var n := NodeAt(tree, Split(path, '/'));
            (set r | r in Files([], tree) && r.path == path)
            == if n.Some? && n.value.File? then {Row(path, n.value.content)} else {}
  {
    hide Leaves, NodeAt, Split;
    var n := NodeAt(tree, Split(path, '/'));
    FilesAreLeaves([], tree);
    forall r | r in Files([], tree) && r.path == path
      ensures n == Some(File(r.content))
    {
      var l :| l in Leaves([], tree) && RowOf(l) == r;
      LeafStands([], tree, l);
      LeafParts([], tree, l);
      PartsOfPath(l.parts);
      assert l.parts[0..] == l.parts;
    }
    if n.Some? && n.value.File? {
      NodeIsLeaf([], tree, Split(path, '/'));
      JoinSplit(path, '/');
      var l := Leaf([] + Split(path, '/'), n.value.content);
      assert l.parts == Split(path, '/');
      assert RowOf(l) == Row(path, n.value.content);
    }
  }

  // ---------------------------------------------------------------- the copy

  /** How the copy ends: with a tree, for want of an input, or because a directory is there already. */
  datatype Copy = Copied(target: Forest) | NoInput | Exists

  /** `target` is part of the tree, and its files are the staged ones. */
  predicate IsStagedTree(plan: Plan, tree: Forest, target: Forest) {
    Valid(target) && Part(target, tree) && Staged(plan, tree) == Some(Files([], target))
  }

  /** One of two directories lies in the other. */
  predicate Comparable(a: seq<string>, b: seq<string>) { a <= b || b <= a }

  predicate Nested(dirs: seq<seq<string>>) {
    exists i, j :: 0 <= i < j < |dirs| && Comparable(dirs[i], dirs[j])
  }

  lemma {:induction false} NestAt(parts: seq<string>, node: Node, q: seq<string>)
    requires q != [] && parts != [] && NodeAt(Cons(parts[0], Nest(parts[1..], node), Nil), q).Some?
    ensures Comparable(q, parts)
    decreases |parts|
  {
    var f := Cons(parts[0], Nest(parts[1..], node), Nil);
    assert Entry(f, q[0]) == if q[0] == parts[0] then Some(f.node) else Entry(Nil, q[0]);
    if |q| > 1 && |parts| > 1 {
      NestAt(parts[1..], node, q[1..]);
      Longer(q, parts);
    } else {
      assert q == [q[0]] + q[1..] && parts == [parts[0]] + parts[1..];
    }
  }

  lemma Longer(q: seq<string>, parts: seq<string>)
    requires q != [] && parts != [] && q[0] == parts[0] && Comparable(q[1..], parts[1..])
    ensures Comparable(q, parts)
  {
    assert q == [q[0]] + q[1..] && parts == [parts[0]] + parts[1..];
    if q[1..] <= parts[1..] {
      assert forall k :: 1 <= k < |q| ==> q[k] == q[1..][k - 1] == parts[1..][k - 1] == parts[k];
    } else {
      assert forall k :: 1 <= k < |parts| ==> parts[k] == parts[1..][k - 1] == q[1..][k - 1] == q[k];
    }
  }

  /** What stands at a path after placing stood there before, or is on the way to the placed node, or in it. */
  lemma {:induction false} PlaceAt(f: Forest, parts: seq<string>, node: Node, q: seq<string>)
    requires parts != [] && Placeable(f, parts, node) && q != [] && NodeAt(Place(f, parts, node), q).Some?
    ensures NodeAt(f, q).Some? || Comparable(q, parts)
    decreases |parts|, f
  {
    if f.Nil? {
      NestAt(parts, node, q);
    } else if f.name != parts[0] {
      if q[0] != f.name {
        NodeBehind(f, q);
        NodeBehind(Place(f, parts, node), q);
        PlaceAt(f.rest, parts, node, q);
      }
    } else if |parts| > 1 {
      if q[0] == f.name && |q| > 1 {
        PlaceAt(f.node.entries, parts[1..], node, q[1..]);
        if NodeAt(f, q).None? {
          Longer(q, parts);
        }
      }
    }
  }

  /** Nothing stands in the target but what the first directories brought. */
  ghost predicate Brought(target: Forest, dirs: seq<seq<string>>) {
    forall q :: q != [] && NodeAt(target, q).Some? ==> exists j :: 0 <= j < |dirs| && Comparable(q, dirs[j])
  }

  lemma BroughtMore(target: Forest, dirs: seq<seq<string>>, i: nat, node: Node)
    requires i < |dirs| && dirs[i] != [] && Brought(target, dirs[..i]) && Placeable(target, dirs[i], node)
    ensures Brought(Place(target, dirs[i], node), dirs[..i + 1])
  {
    hide Placeable, Place, NodeAt, Comparable;
    var more, before, after := Place(target, dirs[i], node), dirs[..i], dirs[..i + 1];
    forall q | q != [] && NodeAt(more, q).Some?
      ensures exists j :: 0 <= j < |after| && Comparable(q, after[j])
    {
      PlaceAt(target, dirs[i], node, q);
      if NodeAt(target, q).Some? {
        var j :| 0 <= j < |before| && Comparable(q, before[j]);
        assert after[j] == before[j];
      } else {
        assert after[i] == dirs[i];
      }
    }
  }

  lemma BroughtExists(target: Forest, dirs: seq<seq<string>>, i: nat)
    requires i < |dirs| && dirs[i] != [] && Brought(target, dirs[..i]) && NodeAt(target, dirs[i]).Some?
    ensures Nested(dirs)
  {
    hide NodeAt;
    var j :| 0 <= j < |dirs[..i]| && Comparable(dirs[i], dirs[..i][j]);
    assert Comparable(dirs[j], dirs[i]);
  }

  /** Copy the directories. */
  method CopyDirectories(dirs: seq<seq<string>>, tree: Forest) returns (c: Copy)
    requires Valid(tree) && Distinct(tree)
    requires forall k :: 0 <= k < |dirs| ==> dirs[k] != [] && ValidParts(dirs[k])
    ensures c.Copied? ==>
              && Valid(c.target) && Part(c.target, tree)
              && CopiedDirectories(dirs, tree) == Some(Files([], c.target))
    ensures c == NoInput ==> CopiedDirectories(dirs, tree).None?
    ensures c == Exists ==> Nested(dirs)
  {
    hide Files, CopyTree, Lookup, NodeAt, Valid, Part, Distinct, Brought, Placeable, Place, ValidParts, PartNode,
        Nested;
    var target := Nil;
    assert dirs[0..] == dirs;
    BothLaws(CopiedDirectories(dirs, tree), None, None);
    NothingCopied(tree, dirs);
    for i := 0 to |dirs|
      invariant Valid(target) && Part(target, tree) && Brought(target, dirs[..i])
      invariant Both(Some(Files([], target)), CopiedDirectories(dirs[i..], tree)) == CopiedDirectories(dirs, tree)
    {
      var dir := dirs[i];
      assert dirs[i..][1..] == dirs[i + 1..];
      var sub := Lookup(tree, dir);
      if sub.None? {
        return NoInput;
      }
      if NodeAt(target, dir).Some? {
        BroughtExists(target, dirs, i);
        return Exists;
      }
      var node := Dir(CopyTree(sub.value));
      CopiedNode(tree, dir, target);
      BroughtMore(target, dirs, i, node);
      BothLaws(Some(Files([], target)), Some(Files(dir, CopyTree(sub.value))), CopiedDirectories(dirs[i + 1..], tree));
      target := Place(target, dir, node);
    }
    BothLaws(Some(Files([], target)), None, None);
    assert dirs[|dirs|..] == [];
    c := Copied(target);
  }

  lemma NothingCopied(tree: Forest, dirs: seq<seq<string>>)
    ensures Valid(Nil) && Part(Nil, tree) && Brought(Nil, dirs[..0]) && Files([], Nil) == {}
  {
  }

  /** The copy of a directory can be placed, stays part of the tree, and adds its files. */
  lemma CopiedNode(tree: Forest, dir: seq<string>, target: Forest)
    requires Valid(tree) && Distinct(tree) && dir != [] && ValidParts(dir) && Lookup(tree, dir).Some?
    requires Valid(target) && Part(target, tree) && NodeAt(target, dir).None?
    ensures var node := Dir(CopyTree(Lookup(tree, dir).value));
            && Placeable(target, dir, node) && Part(Place(target, dir, node), tree) && Valid(Place(target, dir, node))
            && Files([], Place(target, dir, node)) == Files([], target) + Files(dir, node.entries)
  {
    hide Files, NodeAt, Part, Placeable, Place, ValidParts;
    var sub := Lookup(tree, dir).value;
    var node := Dir(CopyTree(sub));
    LookupIsNode(tree, dir);
    LookupIsGood(tree, dir);
    CopyIsPart(sub);
    CopyIsValid(sub);
    DirectoryFits(target, dir, node, tree);
    PlaceIsPart(target, dir, node, tree);
    PlaceIsValid(target, dir, node);
    PlaceFiles([], target, dir, node);
    assert [] + dir == dir;
  }

  lemma {:induction false} LookupIsGood(f: Forest, parts: seq<string>)
    requires Valid(f) && Distinct(f) && Lookup(f, parts).Some?
    ensures Valid(Lookup(f, parts).value) && Distinct(Lookup(f, parts).value)
    decreases |parts|, f
  {
    if parts != [] && f.Cons? {
      if f.name != parts[0] {
        LookupIsGood(f.rest, parts);
      } else {
        LookupIsGood(f.node.entries, parts[1..]);
      }
    }
  }

  lemma {:induction false} CopyIsValid(f: Forest)
    requires Valid(f)
    ensures Valid(CopyTree(f))
    decreases f
  {
    if f.Cons? {
      CopyIsValid(f.rest);
      if f.node.Dir? {
        CopyIsValid(f.node.entries);
      }
    }
  }

  /** Copy single files, in any order. */
  method CopyFiles(files: set<string>, tree: Forest, begun: Forest) returns (c: Copy)
    requires Valid(tree) && Distinct(tree) && Valid(begun) && Part(begun, tree)
    ensures c.Copied? ==> && Valid(c.target) && Part(c.target, tree) && files <= Provenance.Paths(Files([], tree))
                          && Files([], c.target) == Files([], begun) + CopiedFiles(files, tree)
    ensures c == NoInput ==> !(files <= Provenance.Paths(Files([], tree)))
    ensures c != Exists
  {
    hide Files, NodeAt, Valid, Part, Distinct, Place, Placeable, Split, CopiedFiles, Provenance.Paths;
    var target, todo := begun, files;
    NoFiles(tree);
    assert files - todo == {};
    while todo != {}
      invariant todo <= files && Valid(target) && Part(target, tree)
      invariant files - todo <= Provenance.Paths(Files([], tree))
      invariant Files([], target) == Files([], begun) + CopiedFiles(files - todo, tree)
      decreases |todo|
    {
      var path :| path in todo;
      var n := NodeAt(tree, Split(path, '/'));
      FileAt(tree, path);
      if n.None? || !n.value.File? {
        return NoInput;
      }
      FilePlaced(tree, path, target);
      OneMoreFile(files - todo, path, tree);
      assert files - (todo - {path}) == (files - todo) + {path};
      target, todo := Place(target, Split(path, '/'), n.value), todo - {path};
    }
    assert files - todo == files;
    c := Copied(target);
  }

  lemma NoFiles(tree: Forest)
    ensures CopiedFiles({}, tree) == {}
  {
  }

  lemma FileAt(tree: Forest, path: string)
    requires Valid(tree) && Distinct(tree)
    ensures var n := NodeAt(tree, Split(path, '/'));
            path in Provenance.Paths(Files([], tree)) <==> n.Some? && n.value.File?
  {
    hide Files, NodeAt, Split, Valid, Distinct;
    RowAt(tree, path);
    var rows := set r | r in Files([], tree) && r.path == path;
    if path in Provenance.Paths(Files([], tree)) {
      var r :| r in Files([], tree) && r.path == path;
      assert r in rows;
    } else {
      assert rows == {} by {
        assert forall r :: r in rows ==> r.path in Provenance.Paths(Files([], tree));
      }
    }
  }

  lemma OneMoreFile(done: set<string>, path: string, tree: Forest)
    requires Valid(tree) && Distinct(tree)
    requires var n := NodeAt(tree, Split(path, '/')); n.Some? && n.value.File?
    ensures CopiedFiles(done + {path}, tree)
            == CopiedFiles(done, tree) + {Row(path, NodeAt(tree, Split(path, '/')).value.content)}
  {
    hide Files, NodeAt, Split, Valid, Distinct;
    RowAt(tree, path);
    assert CopiedFiles(done + {path}, tree) == CopiedFiles(done, tree) + set r | r in Files([], tree) && r.path == path;
  }

  lemma FilePlaced(tree: Forest, path: string, target: Forest)
    requires Valid(tree) && Distinct(tree) && Valid(target) && Part(target, tree)
    requires var n := NodeAt(tree, Split(path, '/')); n.Some? && n.value.File?
    ensures var parts := Split(path, '/');
            var node := NodeAt(tree, parts).value;
            && Placeable(target, parts, node) && Part(Place(target, parts, node), tree)
                && Valid(Place(target, parts, node))
            && Files([], Place(target, parts, node)) == Files([], target) + {Row(path, node.content)}
  {
    hide Files, NodeAt, Part, Placeable, Place, Split;
    var parts := Split(path, '/');
    var node := NodeAt(tree, parts).value;
    FileFits(target, parts, node, tree);
    PlaceIsPart(target, parts, node, tree);
    NodeIsLeaf([], tree, parts);
    assert [] + parts == parts;
    LeafParts([], tree, Leaf(parts, node.content));
    PlaceIsValid(target, parts, node);
    PlaceFiles([], target, parts, node);
    JoinSplit(path, '/');
    FileRow(parts, node);
  }

  lemma FileRow(parts: seq<string>, node: Node)
    requires node.File?
    ensures FilesAt(parts, node) == {Row(PathOf(parts), node.content)}
  {
  }

  /**
   * `copy_client_sources`: directories, then single files. If the copy goes through, its tree is part of the source
   * and holds the staged files; it does not for want of an input, or if one directory of the plan lies in another.
   */
  method CopyClientSources(plan: Plan, tree: Forest) returns (c: Copy)
    requires Valid(tree) && Distinct(tree)
    requires forall k :: 0 <= k < |plan.directories| ==> plan.directories[k] != [] && ValidParts(plan.directories[k])
    ensures c.Copied? ==> IsStagedTree(plan, tree, c.target)
    ensures c == NoInput ==> Staged(plan, tree).None?
    ensures c == Exists ==> Nested(plan.directories)
  {
    hide Files, Valid, Part, Distinct, CopiedFiles, CopiedDirectories, Nested;
    c := CopyDirectories(plan.directories, tree);
    if c.Copied? {
      c := CopyFiles(plan.files, tree, c.target);
    }
  }

  // ---------------------------------------------------------------- verification

  /** `verify_staged_source`: walk the staged tree, and compare with the verified inputs less the build-only files. */
  predicate VerifyStaged(sel: Selection, sha: Bytes -> string, buildOnly: set<string>, target: Forest,
                         verified: set<Record>) {
    var rows := Walk(sel, [], target);
    rows.Some? && Records(sha, rows.value) == set x | x in verified && x.path !in buildOnly
  }

  /** The tree staged from a clean source has no unsupported entry, so that its walk finds the selected files. */
  lemma StagedWalk(sel: Selection, plan: Plan, tree: Forest, target: Forest)
    requires !AnyUnsupported(sel, [], tree) && IsStagedTree(plan, tree, target)
    ensures Walk(sel, [], target) == Some(Selected(sel, Staged(plan, tree).value))
  {
    hide Files, Staged, Walk, AnyUnsupported, Part;
    if AnyUnsupported(sel, [], target) {
      PartUnsupported(sel, [], target, tree);
    }
    TreeInventoryExact(sel, target);
  }

  /**
   * After the source has been verified clean, and the copy has gone through, the walk of the staged
   * tree passes `verify_staged_source` exactly when no selected file outside the individually listed
   * ones has a `.DS_Store` or `*.pyc` component.
   */
  lemma StagedPassesExactly(sel: Selection, sha: Bytes -> string, plan: Plan, tree: Forest, target: Forest,
                            commit: Commit)
    requires Valid(tree) && Distinct(tree) && OneEntryPerPath(tree) && Fits(plan, sel)
    requires VerifyClean(sel, sha, tree, commit) && IsStagedTree(plan, tree, target)
    ensures VerifyStaged(sel, sha, plan.buildOnly, target, CommittedInventory(sel, sha, commit).value)
       <==> NoJunkSelected(sel, tree)
  {
    hide Files, Staged, FromDirectory, HasJunk, Split, IsClientSource, Walk, NoJunkSelected, CommittedInventory, Fits;
    hide AnyUnsupported, Part, RecordOf;
    TreeInventoryExact(sel, tree);
    StagedWalk(sel, plan, tree, target);
    var staged, rows := Staged(plan, tree).value, Selected(sel, Files([], tree));
    var wanted := set r | r in rows && r.path !in plan.buildOnly;
    StagedAllExactly(sel, plan, tree);
    forall r | r in Selected(sel, staged)
      ensures r in Files([], tree)
    {
      StagedFromTree(sel, plan, tree, r);
    }
    RecordsDecide(sha, Files([], tree), Selected(sel, staged), wanted);
    RecordsFilter(sha, rows, plan.buildOnly);
  }

  // ---------------------------------------------------------------- the program's own lists

  /** No directory of the program's list lies in another. */
  lemma NotNested()
    ensures !Nested(COPIED_DIRECTORIES)
  {
    forall i, j | 0 <= i < j < |COPIED_DIRECTORIES|
      ensures !Comparable(COPIED_DIRECTORIES[i], COPIED_DIRECTORIES[j])
    {
      var a, b := COPIED_DIRECTORIES[i], COPIED_DIRECTORIES[j];
      assert a[0] != b[0] || a[1] != b[1];
    }
  }

  /**
   * The build of a bundle from a clean source, with the program's own lists: the copy goes through exactly when no
   * input is missing, and then passes verification exactly when no selected file of a directory is junk.
   */
  method StageClient(sha: Bytes -> string, tree: Forest, commit: Commit) returns (c: Copy)
    requires Valid(tree) && Distinct(tree) && OneEntryPerPath(tree) && VerifyClean(CLIENT, sha, tree, commit)
    ensures c.Copied? <==> Staged(CLIENT_PLAN, tree).Some?
    ensures c.Copied? ==>
              (VerifyStaged(CLIENT, sha, BUILD_ONLY, c.target, CommittedInventory(CLIENT, sha, commit).value)
               <==> NoJunkSelected(CLIENT, tree))
  {
    hide VerifyClean, VerifyStaged, NoJunkSelected, CommittedInventory, Staged, Nested, OneEntryPerPath, Valid,
        Distinct;
    PlanFits();
    ClientDirectories();
    NotNested();
    c := CopyClientSources(CLIENT_PLAN, tree);
    if c.Copied? {
      hide Fits;
      StagedPassesExactly(CLIENT, sha, CLIENT_PLAN, tree, c.target, commit);
    }
  }

  lemma ClientDirectories()
    requires Fits(CLIENT_PLAN, CLIENT)
    ensures forall k :: 0 <= k < |COPIED_DIRECTORIES| ==>
              COPIED_DIRECTORIES[k] != [] && ValidParts(COPIED_DIRECTORIES[k])
  {
    hide ValidParts;
    forall k | 0 <= k < |COPIED_DIRECTORIES|
      ensures COPIED_DIRECTORIES[k] != [] && ValidParts(COPIED_DIRECTORIES[k])
    {
      assert FitsDirectory(CLIENT_PLAN.directories[k], CLIENT.directories[k]);
    }
  }
}
