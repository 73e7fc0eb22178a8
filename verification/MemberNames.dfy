/** Names of archive members: which are safe to extract, and the order in which they are listed. */
module MemberNames {
  import opened Strings

  predicate SafeName(name: string) { !("/" <= name) && ".." !in Split(name, '/') }

  // ---------------------------------------------------------------- where a name leads

  /** One step from a directory, given by its path from the root. */
  function Go(at: seq<string>, part: string): seq<string> {
    if part == "" || part == "." then at
    else if part == ".." then (if at == [] then [] else at[..|at| - 1])
    else at + [part]
  }

  /** The way that components lead from a directory. */
  function Follow(base: seq<string>, parts: seq<string>): seq<string> {
    if parts == [] then base else Go(Follow(base, parts[..|parts| - 1]), parts[|parts| - 1])
  }

  /** Where a name leads after its first `k` components; an absolute name starts from the root. */
  function Reached(base: seq<string>, name: string, k: nat): seq<string>
    requires k <= |Split(name, '/')|
  {
    Follow(if "/" <= name then [] else base, Split(name, '/')[..k])
  }

  /** On no step does the name lead out of the directory it is extracted in, whatever that is. */
  ghost predicate StaysBelow(name: string) {
    forall base: seq<string>, k: nat :: k <= |Split(name, '/')| ==> base <= Reached(base, name, k)
  }

  lemma {:induction false} FollowStays(base: seq<string>, parts: seq<string>)
    requires ".." !in parts
    ensures base <= Follow(base, parts)
  {
    if parts != [] {
      var front := parts[..|parts| - 1];
      FollowStays(base, front);
    }
  }

  /** A safe name never leads out. */
  lemma SafeStaysBelow(name: string)
    requires SafeName(name)
    ensures StaysBelow(name)
  {
    hide Split, Follow;
    forall base: seq<string>, k: nat | k <= |Split(name, '/')|
      ensures base <= Reached(base, name, k)
    {
      FollowStays(base, Split(name, '/')[..k]);
    }
  }

  /** Absolute names, and names with an upward component at any place, are not safe. */
  lemma UnsafeNames(a: string, b: string)
    ensures !SafeName("/" + a)
    ensures !SafeName("..") && !SafeName("../" + b) && !SafeName(a + "/..") && !SafeName(a + "/../" + b)
  {
    hide Split;
    assert "/" <= "/" + a;
    UpwardAlone();
    UpwardAfter(a, "..");
    UpwardBefore("..", b);
    assert a + "/" + ".." == a + "/..";
    UpwardBefore(a + "/..", b);
    assert ".." + "/" + b == "../" + b && a + "/" + ".." == a + "/.." && a + "/.." + "/" + b == a + "/../" + b;
  }

  lemma UpwardAlone()
    ensures Split("..", '/') == [".."] && ".." in Split("..", '/')
  {
    assert Split("..", '/') == [".."];
  }

  lemma UpwardAfter(a: string, b: string)
    requires ".." in Split(b, '/')
    ensures ".." in Split(a + "/" + b, '/')
  {
    hide Split;
    SplitAppend(a, b, '/');
    assert a + ['/'] + b == a + "/" + b;
  }

  lemma UpwardBefore(a: string, b: string)
    requires ".." in Split(a, '/')
    ensures ".." in Split(a + "/" + b, '/')
  {
    hide Split;
    SplitAppend(a, b, '/');
    assert a + ['/'] + b == a + "/" + b;
  }

  /** Some of them do lead out: an upward component first, and an absolute name. */
  lemma UnsafeLeadsOut(a: string, b: string)
    ensures !StaysBelow("..") && !StaysBelow("../" + b) && !StaysBelow("/" + a)
  {
    hide Split, StaysBelow;
    UpwardAlone();
    assert ".."[0] == '.' && ("../" + b)[0] == '.';
    UpFirst("..");
    SplitAppend("..", b, '/');
    assert ".." + ['/'] + b == "../" + b;
    UpFirst("../" + b);
    RootFirst(a);
  }

  lemma UpFirst(name: string)
    requires !("/" <= name) && Split(name, '/')[0] == ".."
    ensures !StaysBelow(name)
  {
    hide Split;
    var base, first := ["d"], Split(name, '/')[..1];
    assert first == [".."] && first[..0] == [];
    assert Follow(base, first[..0]) == base;
    assert Reached(base, name, 1) == [];
  }

  /** A component "." stays, and others go down. */
  lemma LeadsDown(base: seq<string>, x: string)
    requires x != "" && x != "." && x != ".."
    ensures Follow(base, [".", x, "", "."]) == base + [x]
  {
    var p := [".", x, "", "."];
    assert p[..3] == [".", x, ""] && p[..3][..2] == [".", x] && [".", x][..1] == ["."] && ["."][..0] == [];
    assert Follow(base, ["."]) == base;
    assert Follow(base, [".", x]) == base + [x];
    assert Follow(base, [".", x, ""]) == base + [x];
  }

  lemma RootFirst(a: string)
    ensures !StaysBelow("/" + a)
  {
    var name := "/" + a;
    assert "/" <= name;
    hide Split;
    assert Split(name, '/')[..0] == [];
    assert Reached(["d"], name, 0) == [];
  }

  /** A relative name without an upward component is safe. */
  lemma SafeNames(parts: seq<string>)
    requires parts != [] && Free(parts, '/') && parts[0] != "" && ".." !in parts
    ensures SafeName(Join(parts, '/'))
  {
    SplitJoin(parts, '/');
    var name := Join(parts, '/');
    assert name[0] == parts[0][0];
  }

  // ---------------------------------------------------------------- the order of names

  /** The order of strings by code points. */
  predicate Before(a: string, b: string) {
    b != "" && (a == "" || a[0] < b[0] || (a[0] == b[0] && Before(a[1..], b[1..])))
  }

  lemma {:induction false} BeforeIsAsymmetric(a: string, b: string)
    requires Before(a, b)
    ensures !Before(b, a)
  {
    if a != "" && a[0] == b[0] {
      BeforeIsAsymmetric(a[1..], b[1..]);
    }
  }

  lemma {:induction false} BeforeIsTotal(a: string, b: string)
    ensures Before(a, b) || Before(b, a) || a == b
  {
    if a != "" && b != "" && a[0] == b[0] {
      BeforeIsTotal(a[1..], b[1..]);
      assert a == [a[0]] + a[1..] && b == [b[0]] + b[1..];
    }
  }

  lemma {:induction false} BeforeIsTransitive(a: string, b: string, c: string)
    requires Before(a, b) && Before(b, c)
    ensures Before(a, c)
  {
    if a != "" && a[0] == b[0] && b[0] == c[0] {
      BeforeIsTransitive(a[1..], b[1..], c[1..]);
    }
  }

  /** At the first difference the smaller character decides, and the end comes before any character. */
  lemma {:induction false} BeforeDecides(p: string, a: string, b: string)
    ensures a != "" && b != "" && a[0] < b[0] ==> Before(p + a, p + b)
    ensures b != "" ==> Before(p, p + b)
    decreases |p|
  {
    if p != "" {
      BeforeDecides(p[1..], a, b);
      assert (p + a)[1..] == p[1..] + a && (p + b)[1..] == p[1..] + b;
    } else {
      assert p + a == a && p + b == b;
    }
  }
}
