/**
 Staging the client sources: after the source tree has been verified clean, directories are
 copied without certain names and single files are copied one by one. The staged copy passes its
 own verification exactly when no selected file of the copied directories is dropped as junk.
 */
module StagedCopy {
  import opened Base
  import opened Strings
  import opened SourceTree
  import opened Provenance

  // ---------------------------------------------------------------- the lists of the program

  const DIRECTORIES: seq<string> := [
    "client/bin/",
    "client/lib/",
    "client/test/",
    "examples/memory-plugin-shared/lib/",
    "plugins/loginom-dock/",
    "plugins/loginom-dock-hermes/",
    "examples/codex-memory-plugin/"
  ]

  const INDIVIDUAL: set<string> := {
    "client/package.json",
    "client/package-lock.json",
    "client/.node-version",
    "client/README.md",
    "client/INSTALL.md",
    ".agents/plugins/marketplace.json",
    "LICENSE",
    "README_UPSTREAM.md",
    "deploy/loginom-dock/build-client-bundle.py",
    "deploy/loginom-dock/package-client-source.py",
    "deploy/loginom-dock/client-source-inventory.py",
    "deploy/loginom-dock/build-action-catalog.mjs",
    "deploy/loginom-dock/publish-action-catalog.py",
    "executor/capability-abi.json",
    "executor/catalog/actions.json",
    "executor/catalog/selectors.json",
    "executor/catalog/source-index.json",
    "executor/catalog/compatibility.json",
    "executor/schemas/action-catalog.schema.json",
    "executor/schemas/selector-catalog.schema.json",
    "executor/schemas/catalog-manifest.schema.json",
    "executor/schemas/session-manifest.schema.json",
    "executor/schemas/replay-acceptance.schema.json",
    "landing/instructions.mjs",
    "landing/release.json",
    "landing/hero.mjs",
    "landing/hero-cycle.mjs",
    "landing/hero-selection.mjs",
    "landing/flow-interaction.mjs",
    "landing/variants/engine.mjs",
    "landing/variants/clouds.mjs",
    "landing/variants/glyphs.mjs",
    "landing/variants/ribbons.mjs",
    "landing/variants/voids.mjs",
    "landing/variants/voids-geometry.mjs",
    "tools/loginom-acceptance/rename_effect.py",
    "tools/loginom-acceptance/collapse/review-fix/loaded-runtime-sources.json",
    "tools/loginom-acceptance/collapse/variant-contract/observed.json"
  }

  const BUILD_ONLY: set<string> := {
    "deploy/loginom-dock/build-client-bundle.py",
    "deploy/loginom-dock/package-client-source.py",
    "deploy/loginom-dock/client-source-inventory.py"
  }

  const COPIED_DIRECTORIES: seq<seq<string>> := [
    ["client", "bin"],
    ["client", "lib"],
    ["client", "test"],
    ["examples", "memory-plugin-shared", "lib"],
    ["plugins", "loginom-dock"],
    ["plugins", "loginom-dock-hermes"],
    ["examples", "codex-memory-plugin"]
  ]

  const COPIED_FILES: set<string> := {
    "client/package.json",
    "client/package-lock.json",
    "client/.node-version",
    "client/README.md",
    "client/INSTALL.md",
    ".agents/plugins/marketplace.json",
    "LICENSE",
    "README_UPSTREAM.md",
    "deploy/loginom-dock/build-action-catalog.mjs",
    "deploy/loginom-dock/publish-action-catalog.py",
    "executor/capability-abi.json",
    "executor/catalog/actions.json",
    "executor/catalog/selectors.json",
    "executor/catalog/source-index.json",
    "executor/catalog/compatibility.json",
    "executor/schemas/action-catalog.schema.json",
    "executor/schemas/selector-catalog.schema.json",
    "executor/schemas/catalog-manifest.schema.json",
    "executor/schemas/session-manifest.schema.json",
    "executor/schemas/replay-acceptance.schema.json",
    "landing/instructions.mjs",
    "landing/release.json",
    "landing/hero.mjs",
    "landing/hero-cycle.mjs",
    "landing/hero-selection.mjs",
    "landing/flow-interaction.mjs",
    "landing/variants/engine.mjs",
    "landing/variants/clouds.mjs",
    "landing/variants/glyphs.mjs",
    "landing/variants/ribbons.mjs",
    "landing/variants/voids.mjs",
    "landing/variants/voids-geometry.mjs",
    "tools/loginom-acceptance/rename_effect.py",
    "tools/loginom-acceptance/collapse/review-fix/loaded-runtime-sources.json",
    "tools/loginom-acceptance/collapse/variant-contract/observed.json"
  }

  const CLIENT: Selection := Selection(DIRECTORIES, INDIVIDUAL)

  const CLIENT_PLAN: Plan := Plan(COPIED_DIRECTORIES, COPIED_FILES, BUILD_ONLY)

  /** What is copied: whole directories, given by their parts, and single files. */
  datatype Plan = Plan(directories: seq<seq<string>>, files: set<string>, buildOnly: set<string>)

  // ---------------------------------------------------------------- copying

  /** The patterns of `shutil.ignore_patterns`. */
  predicate Ignored(name: string) {
    || name == "__pycache__" || EndsWith(name, ".pyc") || name == ".DS_Store"
    || ".env" <= name || name == ".git" || name == "node_modules"
  }

  predicate EndsWith(s: string, suffix: string) {
    |suffix| <= |s| && s[|s| - |suffix|..] == suffix
  }

  /** The ignored names that the selection rule does not forbid. */
  predicate Junk(name: string) { name == ".DS_Store" || EndsWith(name, ".pyc") }

  predicate HasJunk(parts: seq<string>) {
    exists k :: 0 <= k < |parts| && Junk(parts[k])
  }

  /** `shutil.copytree` with the ignore patterns. */
  function CopyTree(f: Forest): Forest
    decreases f
  {
    match f
    case Nil => Nil
    case Cons(name, node, rest) =>
      if Ignored(name) then CopyTree(rest)
      else Cons(name, if node.Dir? then Dir(CopyTree(node.entries)) else node, CopyTree(rest))
  }

  /** The entries of the directory reached by `parts`. */
  function Lookup(f: Forest, parts: seq<string>): Option<Forest>
    decreases |parts|, f
  {
    if parts == [] then Some(f)
    else match f
      case Nil => None
      case Cons(name, node, rest) =>
        if name != parts[0] then Lookup(rest, parts)
        else if node.Dir? then Lookup(node.entries, parts[1..])
        else None
  }

  /** No directory lists a name twice. */
  predicate Distinct(f: Forest)
    decreases f
  {
    match f
    case Nil => true
    case Cons(name, node, rest) =>
      name !in Listed(rest) && (node.Dir? ==> Distinct(node.entries)) && Distinct(rest)
  }

  function Listed(f: Forest): set<string> {
    match f
    case Nil => {}
    case Cons(name, _, rest) => {name} + Listed(rest)
  }

  /** The rows of the copied directories, or `None` if one of them is missing. */
  function CopiedDirectories(dirs: seq<seq<string>>, tree: Forest): Option<set<Row>> {
    if dirs == [] then Some({})
    else
      var sub, rest := Lookup(tree, dirs[0]), CopiedDirectories(dirs[1..], tree);
      if sub.None? then None else Both(Some(Files(dirs[0], CopyTree(sub.value))), rest)
  }

  /** The rows of the files copied one by one. */
  function CopiedFiles(files: set<string>, tree: Forest): set<Row> {
    set r | r in Files([], tree) && r.path in files
  }

  /** The files that `copy_client_sources` stages, or `None` if an input is missing. */
  function Staged(plan: Plan, tree: Forest): Option<set<Row>> {
    var dirs := CopiedDirectories(plan.directories, tree);
    if dirs.None? || !(plan.files <= Provenance.Paths(Files([], tree))) then None
    else Some(dirs.value + CopiedFiles(plan.files, tree))
  }

  // ---------------------------------------------------------------- leaves

  /** A regular file by the names on the way to it. */
  datatype Leaf = Leaf(parts: seq<string>, content: Content)

  function Leaves(dir: seq<string>, f: Forest): set<Leaf>
    decreases f
  {
    match f
    case Nil => {}
    case Cons(name, node, rest) => LeavesAt(dir + [name], node) + Leaves(dir, rest)
  }

  function LeavesAt(parts: seq<string>, n: Node): set<Leaf>
    decreases n
  {
    match n
    case File(c) => {Leaf(parts, c)}
    case Dir(es) => Leaves(parts, es)
    case _ => {}
  }

  function RowOf(l: Leaf): Row { Row(PathOf(l.parts), l.content) }

  function RowsOf(leaves: set<Leaf>): set<Row> { set l | l in leaves :: RowOf(l) }

  lemma RowsUnion(a: set<Leaf>, b: set<Leaf>)
    ensures RowsOf(a + b) == RowsOf(a) + RowsOf(b)
  {
    hide RowOf;
  }

  lemma {:induction false} FilesAreLeaves(dir: seq<string>, f: Forest)
    ensures Files(dir, f) == RowsOf(Leaves(dir, f))
    decreases f
  {
    hide PathOf;
    if f.Cons? {
      FilesAreLeaves(dir, f.rest);
      var parts := dir + [f.name];
      if f.node.Dir? {
        FilesAreLeaves(parts, f.node.entries);
      }
      assert FilesAt(parts, f.node) == RowsOf(LeavesAt(parts, f.node));
      RowsUnion(LeavesAt(parts, f.node), Leaves(dir, f.rest));
    }
  }

  lemma {:induction false} LeafParts(dir: seq<string>, f: Forest, l: Leaf)
    requires l in Leaves(dir, f) && Valid(f) && ValidParts(dir)
    ensures dir < l.parts && l.parts[|dir|] in Listed(f) && ValidParts(l.parts)
    decreases f
  {
    var parts := dir + [f.name];
    if l in Leaves(dir, f.rest) {
      LeafParts(dir, f.rest, l);
    } else if f.node.Dir? {
      LeafParts(parts, f.node.entries, l);
      assert l.parts[..|parts|] == parts;
      assert l.parts[|dir|] == parts[|dir|];
    }
  }

  /** One of the names from index `i` on is ignored. */
  predicate HasIgnored(parts: seq<string>, i: nat) {
    exists k :: i <= k < |parts| && Ignored(parts[k])
  }

  /** A copied directory holds the leaves none of whose names below it is ignored. */
  lemma {:induction false} CopyLeaves(dir: seq<string>, f: Forest, l: Leaf)
    requires Valid(f) && ValidParts(dir)
    ensures l in Leaves(dir, CopyTree(f)) <==> l in Leaves(dir, f) && !HasIgnored(l.parts, |dir|)
    decreases f
  {
    hide Ignored;
    if f.Cons? {
      CopyLeaves(dir, f.rest, l);
      var parts := dir + [f.name];
      if l in LeavesAt(parts, f.node) {
        LeafBelow(dir, f.name, f.node, l);
      }
      if f.node.Dir? {
        CopyLeaves(parts, f.node.entries, l);
      }
    }
  }

  lemma LeafBelow(dir: seq<string>, name: string, n: Node, l: Leaf)
    requires ValidParts(dir) && ValidName(name) && ValidNode(n) && l in LeavesAt(dir + [name], n)
    ensures dir + [name] <= l.parts && l.parts[|dir|] == name
    ensures n.File? ==> |l.parts| == |dir| + 1
  {
    var parts := dir + [name];
    if n.Dir? {
      LeafParts(parts, n.entries, l);
    }
    assert parts <= l.parts && (n.File? ==> l.parts == parts);
    hide Leaves, LeavesAt, ValidParts, Listed;
    assert parts[|dir|] == name;
  }

  /** The leaves of a directory of the tree are the leaves of the tree on the way to which it lies. */
  lemma {:induction false} SubLeaves(dir: seq<string>, f: Forest, rel: seq<string>, l: Leaf)
    requires Valid(f) && Distinct(f) && ValidParts(dir) && rel != []
    requires Lookup(f, rel).Some?
    ensures l in Leaves(dir + rel, Lookup(f, rel).value) <==> l in Leaves(dir, f) && dir + rel < l.parts
    decreases |rel|, f
  {
    var Cons(name, node, rest) := f;
    var parts := dir + [name];
    assert (dir + rel)[|dir|] == rel[0];
    if l in LeavesAt(parts, node) {
      LeafBelow(dir, name, node, l);
    }
    if name != rel[0] {
      SubLeaves(dir, rest, rel, l);
      if dir + rel < l.parts {
        assert l.parts[|dir|] == rel[0];
      }
    } else {
      if l in Leaves(dir, rest) {
        LeafParts(dir, rest, l);
      }
      assert parts + rel[1..] == dir + rel;
      assert dir + rel < l.parts ==> l.parts[|dir|] == rel[0];
      if |rel| > 1 {
        SubLeaves(parts, node.entries, rel[1..], l);
      } else if l in Leaves(parts, node.entries) {
        assert dir + rel == parts;
        LeafParts(parts, node.entries, l);
      }
      assert |rel| == 1 ==> dir + rel == parts && rel[1..] == [];
    }
  }

  // ---------------------------------------------------------------- the plan fits the selection

  /**
   * The copied directories are the selected ones, and the copied files the individual ones, less the build-only
   * files.
   */
  predicate Fits(plan: Plan, sel: Selection) {
    && |plan.directories| == |sel.directories|
    && (forall k :: 0 <= k < |plan.directories| ==> FitsDirectory(plan.directories[k], sel.directories[k]))
    && sel.individual == plan.files + plan.buildOnly
    && plan.files !! plan.buildOnly
    && (forall b :: b in plan.buildOnly ==> !InDirectories(sel, b))
  }

  predicate FitsDirectory(parts: seq<string>, directory: string) {
    parts != [] && ValidParts(parts) && PathOf(parts) + "/" == directory && !HasJunk(parts)
  }

  /** The program's lists fit together. */
  lemma PlanFits()
    ensures Fits(CLIENT_PLAN, CLIENT)
  {
    hide FitsDirectory;
    DirectoriesFit();
    BuildOnlyElsewhere();
    FilesFit();
  }

  lemma FilesFit()
    ensures COPIED_FILES !! BUILD_ONLY && INDIVIDUAL == COPIED_FILES + BUILD_ONLY
  {
  }

  lemma BuildOnlyElsewhere()
    ensures forall b :: b in BUILD_ONLY ==> !InDirectories(CLIENT, b)
  {
    hide InDirectories;
    ElsewhereByInitial("deploy/loginom-dock/build-client-bundle.py");
    ElsewhereByInitial("deploy/loginom-dock/package-client-source.py");
    ElsewhereByInitial("deploy/loginom-dock/client-source-inventory.py");
  }

  lemma ElsewhereByInitial(path: string)
    requires path != "" && path[0] == 'd'
    ensures !InDirectories(CLIENT, path)
  {
    assert forall k :: 0 <= k < |DIRECTORIES| ==> |DIRECTORIES[k]| > 0 && DIRECTORIES[k][0] != 'd';
  }

  lemma DirectoriesFit()
    ensures |COPIED_DIRECTORIES| == |DIRECTORIES|
    ensures forall k :: 0 <= k < |DIRECTORIES| ==> FitsDirectory(COPIED_DIRECTORIES[k], DIRECTORIES[k])
  {
    hide FitsDirectory;
    ClientFits();
    SharedFits();
    CodexFits();
    DockFits();
    HermesFits();
  }

  lemma ClientFits()
    ensures FitsDirectory(["client", "bin"], "client/bin/")
    ensures FitsDirectory(["client", "lib"], "client/lib/")
    ensures FitsDirectory(["client", "test"], "client/test/")
  {
    hide FitsDirectory;
    TwoParts("client", "bin", "client/bin/");
    TwoParts("client", "lib", "client/lib/");
    TwoParts("client", "test", "client/test/");
  }

  lemma SharedFits()
    ensures FitsDirectory(["examples", "memory-plugin-shared", "lib"], "examples/memory-plugin-shared/lib/")
  {
    hide FitsDirectory;
    assert "memory-plugin-shared/lib/" == "memory-plugin-shared/" + "lib/";
    assert "examples/memory-plugin-shared/lib/" == "examples/" + "memory-plugin-shared/lib/";
    ThreeParts("examples", "memory-plugin-shared", "lib", "memory-plugin-shared/lib/",
        "examples/memory-plugin-shared/lib/");
  }

  lemma CodexFits()
    ensures FitsDirectory(["examples", "codex-memory-plugin"], "examples/codex-memory-plugin/")
  {
    hide FitsDirectory;
    TwoParts("examples", "codex-memory-plugin", "examples/codex-memory-plugin/");
  }

  lemma DockFits()
    ensures FitsDirectory(["plugins", "loginom-dock"], "plugins/loginom-dock/")
  {
    hide FitsDirectory;
    TwoParts("plugins", "loginom-dock", "plugins/loginom-dock/");
  }

  lemma HermesFits()
    ensures FitsDirectory(["plugins", "loginom-dock-hermes"], "plugins/loginom-dock-hermes/")
  {
    hide FitsDirectory;
    TwoParts("plugins", "loginom-dock-hermes", "plugins/loginom-dock-hermes/");
  }

  predicate Plain(name: string) { ValidName(name) && name[0] != '.' && name[|name| - 1] != 'c' }

  lemma PlainIsNoJunk(name: string)
    requires Plain(name)
    ensures !Junk(name)
  {
  }

  lemma TwoParts(a: string, b: string, directory: string)
    requires Plain(a) && Plain(b) && directory == (a + "/") + (b + "/")
    ensures FitsDirectory([a, b], directory)
  {
    hide Junk;
    PlainIsNoJunk(a);
    PlainIsNoJunk(b);
    assert [a, b][1..] == [b];
    assert Join([b], '/') == b;
    assert PathOf([a, b]) == a + "/" + b;
  }

  lemma ThreeParts(a: string, b: string, c: string, rest: string, directory: string)
    requires Plain(a) && Plain(b) && Plain(c) && rest == (b + "/") + (c + "/") && directory == (a + "/") + rest
    ensures FitsDirectory([a, b, c], directory)
  {
    hide Junk;
    PlainIsNoJunk(a);
    PlainIsNoJunk(b);
    PlainIsNoJunk(c);
    assert [a, b, c][1..] == [b, c] && [b, c][1..] == [c];
    assert Join([c], '/') == c;
    assert Join([b, c], '/') == b + "/" + c;
    assert PathOf([a, b, c]) == a + "/" + (b + "/" + c);
  }

  // ---------------------------------------------------------------- what is staged

  /** A path lies under a directory, as strings, just when the directory's parts come first. */
  lemma PathUnder(dir: seq<string>, parts: seq<string>)
    requires dir != [] && ValidParts(dir) && parts != [] && ValidParts(parts)
    ensures PathOf(dir) + "/" <= PathOf(parts) <==> dir < parts
  {
    hide PathOf;
    PartsOfPath(dir);
    PartsOfPath(parts);
    var x, s := PathOf(dir), PathOf(parts);
    if x + "/" <= s {
      var t := s[|x| + 1..];
      assert s == x + "/" + t;
      SplitAppend(x, t, '/');
    }
    if dir < parts {
      assert parts == dir + parts[|dir|..];
      PathExtends(dir, parts[|dir|..]);
    }
  }

  /** A row comes from a copied directory: no name below that directory is ignored. */
  ghost predicate FromDirectory(dirs: seq<seq<string>>, tree: Forest, r: Row) {
    exists k, l :: 0 <= k < |dirs| && l in Leaves([], tree) && RowOf(l) == r && Kept(dirs[k], l)
  }

  predicate Kept(dir: seq<string>, l: Leaf) { dir < l.parts && !HasIgnored(l.parts, |dir|) }

  lemma {:induction false} CopiedRow(dirs: seq<seq<string>>, tree: Forest, r: Row)
    requires Valid(tree) && Distinct(tree) && CopiedDirectories(dirs, tree).Some?
    requires forall k :: 0 <= k < |dirs| ==> dirs[k] != [] && ValidParts(dirs[k])
    ensures r in CopiedDirectories(dirs, tree).value <==> FromDirectory(dirs, tree, r)
    decreases |dirs|
  {
    hide Files, Leaves, Lookup, CopyTree, RowOf, Kept;
    if dirs != [] {
      var dir, sub := dirs[0], Lookup(tree, dirs[0]).value;
      CopiedRow(dirs[1..], tree, r);
      OneCopied(dir, tree, r);
      if FromDirectory(dirs[1..], tree, r) {
        var k, l :| 0 <= k < |dirs[1..]| && l in Leaves([], tree) && RowOf(l) == r && Kept(dirs[1..][k], l);
        assert dirs[k + 1] == dirs[1..][k];
      }
      if FromDirectory(dirs, tree, r) {
        var k, l :| 0 <= k < |dirs| && l in Leaves([], tree) && RowOf(l) == r && Kept(dirs[k], l);
        assert k > 0 ==> dirs[1..][k - 1] == dirs[k];
      }
    }
  }

  lemma OneCopied(dir: seq<string>, tree: Forest, r: Row)
    requires Valid(tree) && Distinct(tree) && dir != [] && ValidParts(dir) && Lookup(tree, dir).Some?
    ensures r in Files(dir, CopyTree(Lookup(tree, dir).value))
       <==> exists l :: l in Leaves([], tree) && RowOf(l) == r && Kept(dir, l)
  {
    hide Files, Leaves, Lookup, CopyTree, RowOf, HasIgnored;
    var sub := Lookup(tree, dir).value;
    FilesAreLeaves(dir, CopyTree(sub));
    ValidSub(tree, dir);
    forall l | RowOf(l) == r
      ensures l in Leaves(dir, CopyTree(sub)) <==> l in Leaves([], tree) && Kept(dir, l)
    {
      CopyLeaves(dir, sub, l);
      SubLeaves([], tree, dir, l);
      assert [] + dir == dir;
    }
  }

  lemma {:induction false} ValidSub(f: Forest, parts: seq<string>)
    requires Valid(f) && Lookup(f, parts).Some?
    ensures Valid(Lookup(f, parts).value)
    decreases |parts|, f
  {
    if parts != [] && f.Cons? {
      if f.name != parts[0] {
        ValidSub(f.rest, parts);
      } else {
        ValidSub(f.node.entries, parts[1..]);
      }
    }
  }

  /** The leaf of a row of the tree. */
  lemma LeafOf(tree: Forest, r: Row) returns (l: Leaf)
    requires Valid(tree) && r in Files([], tree)
    ensures l in Leaves([], tree) && RowOf(l) == r
    ensures l.parts != [] && ValidParts(l.parts) && Split(r.path, '/') == l.parts
  {
    hide PathOf, Files, Leaves;
    FilesAreLeaves([], tree);
    l :| l in Leaves([], tree) && RowOf(l) == r;
    LeafParts([], tree, l);
    PartsOfPath(l.parts);
  }

  lemma JunkOrForbidden(name: string)
    ensures Ignored(name) <==> Junk(name) || Forbidden(name)
  {
  }

  /** A selected file of a copied directory is staged exactly when no name on the way to it is junk. */
  lemma KeptExactly(sel: Selection, plan: Plan, tree: Forest, r: Row)
    requires Valid(tree) && Distinct(tree) && Fits(plan, sel)
    requires r in Selected(sel, Files([], tree)) && r.path !in sel.individual
    ensures FromDirectory(plan.directories, tree, r) <==> !HasJunk(Split(r.path, '/'))
  {
    hide PathOf, Files, Leaves, Ignored, Junk, Forbidden, Split;
    var l := LeafOf(tree, r);
    if !HasJunk(l.parts) {
      var k :| 0 <= k < |sel.directories| && sel.directories[k] <= r.path;
      assert FitsDirectory(plan.directories[k], sel.directories[k]);
      PathUnder(plan.directories[k], l.parts);
      NoneIgnored(l.parts, |plan.directories[k]|);
      assert Kept(plan.directories[k], l);
    }
    if FromDirectory(plan.directories, tree, r) {
      var k, m :| 0 <= k < |plan.directories| && m in Leaves([], tree) && RowOf(m) == r && Kept(plan.directories[k], m);
      assert FitsDirectory(plan.directories[k], sel.directories[k]);
      LeafParts([], tree, m);
      PartsOfPath(m.parts);
      NoJunk(plan.directories[k], m.parts);
    }
  }

  lemma NoneIgnored(parts: seq<string>, i: nat)
    requires !HasJunk(parts) && !HasForbidden(parts)
    ensures !HasIgnored(parts, i)
  {
    hide Ignored, Junk, Forbidden;
    forall k | i <= k < |parts|
      ensures !Ignored(parts[k])
    {
      JunkOrForbidden(parts[k]);
    }
  }

  lemma NoJunk(dir: seq<string>, parts: seq<string>)
    requires dir < parts && !HasJunk(dir) && !HasIgnored(parts, |dir|)
    ensures !HasJunk(parts)
  {
    hide Ignored, Junk, Forbidden;
    forall k | 0 <= k < |parts|
      ensures !Junk(parts[k])
    {
      JunkOrForbidden(parts[k]);
      if k < |dir| {
        assert parts[k] == dir[k];
      }
    }
  }

  // ---------------------------------------------------------------- the main result

  /** The staged inputs, as rows, are the verified ones less the build-only files. */
  predicate StagedAll(sel: Selection, plan: Plan, tree: Forest, staged: set<Row>) {
    Selected(sel, staged) == set r | r in Selected(sel, Files([], tree)) && r.path !in plan.buildOnly
  }

  predicate NoJunkSelected(sel: Selection, tree: Forest) {
    forall r :: r in Selected(sel, Files([], tree)) && r.path !in sel.individual ==> !HasJunk(Split(r.path, '/'))
  }

  lemma StagedFromTree(sel: Selection, plan: Plan, tree: Forest, r: Row)
    requires Valid(tree) && Distinct(tree) && Fits(plan, sel) && Staged(plan, tree).Some?
    ensures r in Staged(plan, tree).value <==>
      FromDirectory(plan.directories, tree, r) || (r in Files([], tree) && r.path in plan.files)
    ensures FromDirectory(plan.directories, tree, r) ==> r in Files([], tree) && InDirectories(sel, r.path)
  {
    hide PathOf, Files, Leaves, HasJunk, HasIgnored;
    assert forall k :: 0 <= k < |plan.directories| ==> FitsDirectory(plan.directories[k], sel.directories[k]);
    CopiedRow(plan.directories, tree, r);
    if FromDirectory(plan.directories, tree, r) {
      var k, l :| 0 <= k < |plan.directories| && l in Leaves([], tree) && RowOf(l) == r && Kept(plan.directories[k], l);
      FilesAreLeaves([], tree);
      LeafParts([], tree, l);
      assert FitsDirectory(plan.directories[k], sel.directories[k]);
      PathUnder(plan.directories[k], l.parts);
    }
  }

  lemma StagedAllExactly(sel: Selection, plan: Plan, tree: Forest)
    requires Valid(tree) && Distinct(tree) && Fits(plan, sel) && Staged(plan, tree).Some?
    ensures StagedAll(sel, plan, tree, Staged(plan, tree).value) <==> NoJunkSelected(sel, tree)
  {
    hide Files, Staged, FromDirectory, HasJunk, Split, IsClientSource;
    var staged := Staged(plan, tree).value;
    forall r | r in Selected(sel, Files([], tree))
      ensures r in staged <==> if r.path in sel.individual
              then r.path in plan.files || FromDirectory(plan.directories, tree, r)
                               else !HasJunk(Split(r.path, '/'))
    {
      StagedFromTree(sel, plan, tree, r);
      if r.path !in sel.individual {
        KeptExactly(sel, plan, tree, r);
      }
    }
    forall r | r in staged
      ensures r in Files([], tree) && r.path !in plan.buildOnly
    {
      StagedFromTree(sel, plan, tree, r);
    }
    if !NoJunkSelected(sel, tree) {
      var r :| r in Selected(sel, Files([], tree)) && r.path !in sel.individual && HasJunk(Split(r.path, '/'));
      assert r !in staged && r.path !in plan.buildOnly;
      assert r !in Selected(sel, staged);
    } else {
      forall r | r in Selected(sel, Files([], tree)) && r.path !in plan.buildOnly
        ensures r in staged
      {
      }
    }
  }

  /** Comparing records instead of rows makes no difference, as one path has one file. */
  lemma RecordsDecide(sha: Bytes -> string, all: set<Row>, some: set<Row>, others: set<Row>)
    requires some <= all && others <= all
    requires forall r, r' :: r in all && r' in all && r.path == r'.path ==> r == r'
    ensures Records(sha, some) == Records(sha, others) <==> some == others
  {
    if Records(sha, some) == Records(sha, others) {
      RecordsInclude(sha, all, some, others);
      RecordsInclude(sha, all, others, some);
    }
  }

  lemma RecordsInclude(sha: Bytes -> string, all: set<Row>, some: set<Row>, others: set<Row>)
    requires some <= all && others <= all && Records(sha, some) <= Records(sha, others)
    requires forall r, r' :: r in all && r' in all && r.path == r'.path ==> r == r'
    ensures some <= others
  {
    forall r | r in some
      ensures r in others
    {
      assert RecordOf(sha, r) in Records(sha, some);
      assert RecordOf(sha, r) in Records(sha, others);
      var r' :| r' in others && RecordOf(sha, r') == RecordOf(sha, r);
    }
  }

  /**
   * The two cleanliness checks part for the program's own lists: link "plugins", which is no build input by name, in
   * any tree that matches and has nothing of that name.
   */
  lemma LinkedPluginsPart(sha: Bytes -> string, tree: Forest, listed: Listing, commit: Commit)
    requires Returns(CLIENT, tree, listed) && Differences(CLIENT, tree, listed, commit) == {}
    requires "plugins" !in Listed(tree) && forall n :: n in listed.names ==> !("plugins/" <= n)
    ensures var linked, more := WithLink(tree, "plugins"), MoreListed(listed, "plugins");
            && Returns(CLIENT, linked, more) && Differences(CLIENT, linked, more, commit) == {}
            && !VerifyClean(CLIENT, sha, linked, commit)
  {
    hide Returns, Differences, VerifyClean, IsClientSource, Relevant, Forbidden;
    PluginsAreRelevant();
    DirectoryLinkParts(CLIENT, sha, tree, listed, commit, "plugins");
  }

  lemma PluginsAreRelevant()
    ensures !Forbidden("plugins") && Relevant(CLIENT, "plugins" + "/") && !IsClientSource(CLIENT, "plugins")
  {
    hide Split, HasForbidden;
    assert "plugins" + "/" <= CLIENT.directories[4];
    assert forall k :: 0 <= k < |DIRECTORIES| ==> |DIRECTORIES[k]| > 7;
    assert "plugins" !in INDIVIDUAL;
    assert "plugins"[0] == 'p' && ".env"[0] == '.';
  }

  lemma RecordsFilter(sha: Bytes -> string, rows: set<Row>, without: set<string>)
    ensures Records(sha, set r | r in rows && r.path !in without) == set x | x in Records(sha, rows)
            && x.path !in without
  {
  }

  /** A suffix is what stands at the end. */
  lemma EndsWithExactly(s: string, suffix: string)
    ensures EndsWith(s, suffix) <==> exists front :: s == front + suffix
  {
    if EndsWith(s, suffix) {
      assert s == s[..|s| - |suffix|] + suffix;
    }
    if front :| s == front + suffix {
      assert s[|front|..] == suffix;
    }
  }

  /** Compiled files and folder settings are junk; dependencies, caches, repositories and secrets are not copied. */
  lemma NotCopied(front: string)
    ensures Junk(front + ".pyc") && Junk(".DS_Store") && !Junk("hooks.mjs")
    ensures Ignored("node_modules") && Ignored("__pycache__") && Ignored(".git") && Ignored(".env" + front)
    ensures Ignored(front + ".pyc") && Ignored(".DS_Store")
  {
    EndsWithExactly(front + ".pyc", ".pyc");
    assert ".env" <= ".env" + front;
  }
}
