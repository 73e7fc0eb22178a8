/**
 Directory paths as strings: normalization, segment prefixes and prefix matching.
 On paths made of proper segments the string operations are proved to be the
 operations on segment sequences they stand for.
 */
module Paths {
  import opened Strings

  const SCHEME: string := "viking://"

  function NormalizePath(path: string): string {
    var s := Strip(path, Blank);
    if s == "" then "/"
    else
      var t := if SCHEME <= s then "/" + Strip(s[|SCHEME|..], Slash) else if s[0] == '/' then s else "/" + s;
      if |t| > 1 then RStrip(t, Slash) else t
  }

  function NonEmpty(pieces: seq<string>): seq<string> {
    if pieces == [] then []
    else if pieces[0] == "" then NonEmpty(pieces[1..])
    else [pieces[0]] + NonEmpty(pieces[1..])
  }

  /** The non-empty pieces between the slashes of a path. */
  function Pieces(path: string): seq<string> { NonEmpty(Split(Strip(path, Slash), '/')) }

  function PathParts(path: string): seq<string> { Pieces(NormalizePath(path)) }

  function PathPrefix(path: string, segments: int): string {
    var parts := Pieces(path);
    if parts == [] then "/"
    else
      var n := if segments < |parts| then segments else |parts|;
      "/" + Join(parts[..if n < 1 then 1 else n], '/')
  }

  /** One candidate path of `path_matches` against the normalized prefix. */
  predicate Under(path: string, prefix: string) {
    path == prefix || RStrip(prefix, Slash) + "/" <= path
  }

  /** The value may hold several paths, separated by ';'; one under the prefix is enough. */
  predicate PathMatches(value: string, prefix: string) {
    var items := Split(value, ';');
    exists k :: 0 <= k < |items| && Under(NormalizePath(items[k]), NormalizePath(prefix))
  }

  // ---------------------------------------------------------------- segments

  /** A directory name: not empty, without '/', and not ending in white space. */
  predicate Name(s: string) {
    s != "" && '/' !in s && !IsSpace(s[|s| - 1])
  }

  predicate Names(segs: seq<string>) {
    forall k :: 0 <= k < |segs| ==> Name(segs[k])
  }

  /** Names without ';', which `path_matches` takes for a separator of paths. */
  predicate Segments(segs: seq<string>) {
    forall k :: 0 <= k < |segs| ==> Name(segs[k]) && ';' !in segs[k]
  }

  /** Every segment behind a slash. */
  function Slashed(segs: seq<string>): string {
    if segs == [] then "" else "/" + segs[0] + Slashed(segs[1..])
  }

  /** The path of a segment sequence; the root is a single slash. */
  function PathText(segs: seq<string>): string { if segs == [] then "/" else Slashed(segs) }

  lemma {:induction false} SlashedIsJoin(segs: seq<string>)
    requires segs != []
    ensures Slashed(segs) == "/" + Join(segs, '/')
  {
    if |segs| > 1 {
      SlashedIsJoin(segs[1..]);
    } else {
      assert Slashed(segs[1..]) == "";
    }
  }

  /** The ends of a path text are neither white space nor, at the right, a slash. */
  lemma {:induction false} SlashedEnds(segs: seq<string>)
    requires segs != [] && Names(segs)
    ensures var t := Slashed(segs);
            |t| > 1 && t[0] == '/' && t[|t| - 1] != '/' && !IsSpace(t[|t| - 1])
  {
    var t, s := Slashed(segs), segs[0];
    if |segs| > 1 {
      SlashedEnds(segs[1..]);
      var rest := Slashed(segs[1..]);
      assert t[|t| - 1] == rest[|rest| - 1];
    } else {
      assert Slashed(segs[1..]) == "";
      assert t[|t| - 1] == s[|s| - 1];
    }
  }

  lemma {:induction false} SlashedNoSemicolon(segs: seq<string>)
    requires Segments(segs)
    ensures ';' !in Slashed(segs)
  {
    if segs != [] {
      SlashedNoSemicolon(segs[1..]);
    }
  }

  lemma StripNothing(s: string, m: Margin)
    requires s != "" && !Strips(s[0], m) && !Strips(s[|s| - 1], m)
    ensures Strip(s, m) == s
  {
  }

  /** Normalization leaves the path of proper segments alone. */
  lemma NormalizeSlashed(segs: seq<string>)
    requires Names(segs)
    ensures NormalizePath(PathText(segs)) == PathText(segs)
  {
    var t := PathText(segs);
    if segs != [] {
      SlashedEnds(segs);
    }
    StripNothing(t, Blank);
    assert t[0] == '/';
    assert !(SCHEME <= t);
  }

  lemma {:induction false} NonEmptySegments(segs: seq<string>)
    requires Names(segs)
    ensures NonEmpty(segs) == segs
  {
    if segs != [] {
      NonEmptySegments(segs[1..]);
    }
  }

  /** The pieces of a path text are its segments. */
  lemma PiecesOfText(segs: seq<string>)
    requires Names(segs)
    ensures Pieces(PathText(segs)) == segs
  {
    if segs == [] {
      assert LStrip("/", Slash) == LStrip("", Slash) == "";
      assert Split("", '/') == [""];
      assert NonEmpty([""]) == NonEmpty([]) == [];
    } else {
      var t, j := PathText(segs), Join(segs, '/');
      SlashedIsJoin(segs);
      SlashedEnds(segs);
      assert t[1..] == j;
      JoinStarts(segs);
      assert LStrip(t, Slash) == LStrip(j, Slash) == j;
      assert RStrip(j, Slash) == j;
      SplitJoin(segs, '/');
      NonEmptySegments(segs);
    }
  }

  lemma JoinStarts(segs: seq<string>)
    requires segs != [] && Names(segs)
    ensures Join(segs, '/') != "" && Join(segs, '/')[0] == segs[0][0]
  {
  }

  // ---------------------------------------------------------------- matching

  /** As strings, with a closing slash, one path text starts with another just when its segments do. */
  lemma {:induction false} SlashedPrefix(a: seq<string>, b: seq<string>)
    requires Names(a) && Names(b)
    ensures Slashed(a) + "/" <= Slashed(b) + "/" <==> a <= b
    decreases |a|
  {
    var x, y := Slashed(a) + "/", Slashed(b) + "/";
    if a == [] {
      assert y[0] == '/';
    } else if b == [] {
      SlashedEnds(a);
      assert |x| > |y|;
    } else {
      var x', y' := Slashed(a[1..]) + "/", Slashed(b[1..]) + "/";
      SlashedPrefix(a[1..], b[1..]);
      assert x == "/" + a[0] + x' && y == "/" + b[0] + y';
      FirstSegment(a[0], x', b[0], y');
      assert a == [a[0]] + a[1..] && b == [b[0]] + b[1..];
    }
  }

  /** The first slash after the start ends the first segment. */
  lemma FirstSegment(s: string, x: string, t: string, y: string)
    requires '/' !in s && '/' !in t && x != "" && y != "" && x[0] == '/' && y[0] == '/'
    ensures "/" + s + x <= "/" + t + y <==> s == t && x <= y
  {
    var u, v := "/" + s + x, "/" + t + y;
    if u <= v {
      assert u[1 + |s|] == '/' && v[1 + |t|] == '/';
      assert s == u[1..1 + |s|] == v[1..1 + |s|] == t;
      assert x == u[1 + |s|..] && y == v[1 + |s|..];
      assert forall k :: 0 <= k < |x| ==> x[k] == u[1 + |s| + k];
      assert forall k :: 0 <= k < |x| ==> y[k] == v[1 + |s| + k];
    }
  }

  lemma UnderText(a: seq<string>, b: seq<string>)
    requires Names(a) && Names(b)
    ensures Under(PathText(b), PathText(a)) <==> a <= b
  {
    SlashedPrefix(a, b);
    var x, y := Slashed(a), Slashed(b);
    if a == [] {
      assert RStrip("/", Slash) == RStrip("", Slash) == "";
      assert "" + "/" <= PathText(b) by {
        if b != [] {
          SlashedEnds(b);
        }
      }
    } else {
      SlashedEnds(a);
      assert RStrip(x, Slash) == x;
      if b == [] {
        assert |x + "/"| > |"/"|;
      } else {
        SlashedEnds(b);
        EqualOrLonger(x, y);
      }
    }
  }

  /** `path == p or path.startswith(p + "/")` says that `path + "/"` starts with `p + "/"`. */
  lemma EqualOrLonger(p: string, path: string)
    requires path != "" && path[|path| - 1] != '/'
    ensures path == p || p + "/" <= path <==> p + "/" <= path + "/"
  {
    var x, y := p + "/", path + "/";
    if x <= path {
      assert forall k :: 0 <= k < |x| ==> x[k] == y[k];
    }
    if x <= y && |x| == |y| {
      assert p == x[..|p|] && path == y[..|p|];
    }
    if x <= y && |x| < |y| {
      assert forall k :: 0 <= k < |x| ==> x[k] == path[k];
    }
  }

  /** A path matches a prefix just when its segments start with the segments of the prefix. */
  lemma MatchesIsSegmentPrefix(path: seq<string>, prefix: seq<string>)
    requires Segments(path) && Segments(prefix)
    ensures PathMatches(PathText(path), PathText(prefix)) <==> prefix <= path
  {
    hide NormalizePath, Under, PathText;
    MatchesOneOf([path], prefix);
    assert Join([PathText(path)], ';') == PathText(path);
    assert Texts([path]) == [PathText(path)];
    assert prefix <= path ==> prefix <= [path][0];
  }

  function Texts(paths: seq<seq<string>>): (texts: seq<string>)
    ensures |texts| == |paths|
    ensures forall k :: 0 <= k < |paths| ==> texts[k] == PathText(paths[k])
  {
    seq(|paths|, k requires 0 <= k < |paths| => PathText(paths[k]))
  }

  /** A value that lists several paths matches just when one of them does. */
  lemma MatchesOneOf(paths: seq<seq<string>>, prefix: seq<string>)
    requires paths != [] && Segments(prefix)
    requires forall k :: 0 <= k < |paths| ==> Segments(paths[k])
    ensures PathMatches(Join(Texts(paths), ';'), PathText(prefix))
       <==> exists k :: 0 <= k < |paths| && prefix <= paths[k]
  {
    hide NormalizePath, Under;
    var texts := Texts(paths);
    forall k | 0 <= k < |paths|
      ensures ';' !in texts[k] && (Under(NormalizePath(texts[k]), NormalizePath(PathText(prefix)))
              <==> prefix <= paths[k])
    {
      SlashedNoSemicolon(paths[k]);
      NormalizeSlashed(paths[k]);
      NormalizeSlashed(prefix);
      UnderText(prefix, paths[k]);
    }
    SplitJoin(texts, ';');
  }

  /** `path_prefix` takes the first segments, at least one and at most all of them. */
  lemma PrefixOfText(segs: seq<string>, n: int)
    requires Names(segs) && segs != []
    ensures PathPrefix(PathText(segs), n) == PathText(segs[..if n < 1 then 1 else if n < |segs| then n else |segs|])
  {
    PiecesOfText(segs);
    SlashedIsJoin(segs[..if n < 1 then 1 else if n < |segs| then n else |segs|]);
  }

  /** The root has no segments to take. */
  lemma PrefixOfRoot(n: int)
    ensures PathPrefix("/", n) == "/" && PathPrefix("", n) == "/"
  {
    assert LStrip("/", Slash) == LStrip("", Slash) == "" && RStrip("", Slash) == "";
    assert Split("", '/') == [""];
    assert NonEmpty([""]) == NonEmpty([]) == [];
  }

  lemma PartsOfText(segs: seq<string>)
    requires Names(segs)
    ensures PathParts(PathText(segs)) == segs
  {
    NormalizeSlashed(segs);
    PiecesOfText(segs);
  }

  // ---------------------------------------------------------------- semicolons

  lemma {:induction false} StripInvents(s: string, m: Margin, c: char)
    ensures c in LStrip(s, m) ==> c in s
    ensures c in RStrip(s, m) ==> c in s
    decreases |s|
  {
    if s != "" {
      StripInvents(s[1..], m, c);
      StripInvents(s[..|s| - 1], m, c);
    }
  }

  /** Normalization only ever adds slashes. */
  lemma NormalizeInvents(s: string, c: char)
    requires c != '/'
    ensures c in NormalizePath(s) ==> c in s
  {
    var l := LStrip(s, Blank);
    StripInvents(s, Blank, c);
    StripInvents(l, Blank, c);
    var t := RStrip(l, Blank);
    if t != "" {
      if SCHEME <= t {
        var r := t[|SCHEME|..];
        StripInvents(r, Slash, c);
        StripInvents(LStrip(r, Slash), Slash, c);
        StripInvents("/" + Strip(r, Slash), Slash, c);
      } else {
        StripInvents(t, Slash, c);
        StripInvents("/" + t, Slash, c);
      }
    }
  }

  /** Stripping on the right stops at a character that stays. */
  lemma {:induction false} RStripKeeps(x: string, r: string, m: Margin) returns (r': string)
    requires x != "" && !Strips(x[|x| - 1], m)
    ensures r' <= r && RStrip(x + r, m) == x + r'
    decreases |r|
  {
    var s := x + r;
    if r != "" && Strips(r[|r| - 1], m) {
      assert s[..|s| - 1] == x + r[..|r| - 1];
      r' := RStripKeeps(x, r[..|r| - 1], m);
    } else {
      assert r == "" ==> s == x;
      r' := r;
    }
  }

  /** A path that goes on below a directory stays below it when it is normalized. */
  lemma NormalizeBelow(c: seq<string>, r: string)
    requires c != [] && Names(c)
    requires r != "" ==> r[0] == '/'
    ensures Under(NormalizePath(Slashed(c) + r), Slashed(c))
  {
    var x := Slashed(c);
    SlashedEnds(c);
    var s := x + r;
    assert LStrip(s, Blank) == s;
    var r' := RStripKeeps(x, r, Blank);
    assert Strip(s, Blank) == x + r';
    assert (x + r')[0] == '/';
    assert !(SCHEME <= x + r');
    var r'' := RStripKeeps(x, r', Slash);
    assert NormalizePath(s) == x + r'';
    assert RStrip(x, Slash) == x;
    if r'' != "" {
      assert r''[0] == r[0];
      assert x + "/" <= x + r'';
    }
  }

  lemma {:induction false} SlashedAppend(a: seq<string>, b: seq<string>)
    ensures Slashed(a + b) == Slashed(a) + Slashed(b)
  {
    if a == [] {
      assert a + b == b;
    } else {
      SlashedAppend(a[1..], b);
      assert (a + b)[1..] == a[1..] + b;
    }
  }

  /**
   * Whether a path matches a directory above it when names may hold a semicolon: exactly when
   * the directory's own text holds none. A path value that lists several paths, which
   * `normalize_path` joins with ';', is such a path.
   */
  lemma MatchesAncestorExactly(path: seq<string>, dir: seq<string>)
    requires Names(path) && dir <= path && dir != []
    ensures PathMatches(PathText(path), PathText(dir)) <==> ';' !in PathText(dir)
  {
    var text, x := Slashed(path), Slashed(dir);
    var rest := Slashed(path[|dir|..]);
    assert path == dir + path[|dir|..];
    SlashedAppend(dir, path[|dir|..]);
    assert Names(dir) by {
      assert forall k :: 0 <= k < |dir| ==> dir[k] == path[k];
    }
    NormalizeSlashed(dir);
    SlashedEnds(dir);
    if ';' !in x {
      FirstItem(x, rest);
      var f := Find(text, ';', 0);
      var r := text[|x|..f];
      assert text[..f] == x + r;
      assert r != "" ==> r[0] == rest[0];
      NormalizeBelow(dir, r);
      assert Split(text, ';')[0] == x + r;
    } else {
      NoItem(Split(text, ';'), x);
    }
  }

  lemma FirstItem(x: string, rest: string)
    requires ';' !in x
    ensures Find(x + rest, ';', 0) >= |x|
    ensures Split(x + rest, ';')[0] == (x + rest)[..Find(x + rest, ';', 0)]
  {
    var t := x + rest;
    assert t[..|t|] == t;
  }

  lemma NoItem(items: seq<string>, x: string)
    requires Free(items, ';') && ';' in x && x[|x| - 1] != '/'
    ensures forall k :: 0 <= k < |items| ==> !Under(NormalizePath(items[k]), x)
  {
    hide NormalizePath;
    var i :| 0 <= i < |x| && x[i] == ';';
    forall k | 0 <= k < |items|
      ensures !Under(NormalizePath(items[k]), x)
    {
      var n := NormalizePath(items[k]);
      NormalizeInvents(items[k], ';');
      assert RStrip(x, Slash) == x;
      assert (x + "/")[i] == ';';
    }
  }

  // ---------------------------------------------------------------- other ways to write a path

  /** A URI of the scheme, with any slashes around its path, is the path itself. */
  lemma SchemeIsRoot(segs: seq<string>)
    requires Names(segs) && segs != []
    ensures NormalizePath("viking://" + Join(segs, '/')) == PathText(segs)
    ensures NormalizePath("viking:///" + Join(segs, '/') + "/") == PathText(segs)
  {
    var j := Join(segs, '/');
    SlashedIsJoin(segs);
    SlashedEnds(segs);
    JoinStarts(segs);
    var t := Slashed(segs);
    assert t == "/" + j && t[|t| - 1] == j[|j| - 1];
    StripNothing(j, Slash);
    StripSlashes(j);
    SchemeOf(j, j);
    SchemeOf("/" + j + "/", j);
    assert "viking://" + ("/" + j + "/") == "viking:///" + j + "/";
  }

  lemma StripSlashes(j: string)
    requires j != "" && j[0] != '/' && j[|j| - 1] != '/'
    ensures Strip("/" + j + "/", Slash) == j
  {
    var s := "/" + j + "/";
    assert s[1..] == j + "/";
    assert LStrip(s, Slash) == LStrip(j + "/", Slash) == j + "/";
    assert (j + "/")[..|j|] == j;
    assert RStrip(j + "/", Slash) == RStrip(j, Slash) == j;
  }

  lemma SchemeOf(rest: string, j: string)
    requires rest != "" && !IsSpace(rest[|rest| - 1]) && Strip(rest, Slash) == j && j != "" && j[|j| - 1] != '/'
    ensures NormalizePath("viking://" + rest) == "/" + j
  {
    var s := "viking://" + rest;
    assert SCHEME == "viking://" && SCHEME <= s && s[|SCHEME|..] == rest;
    assert s[0] == 'v' && s[|s| - 1] == rest[|rest| - 1];
    StripNothing(s, Blank);
    var t := "/" + j;
    assert t[|t| - 1] == j[|j| - 1];
  }

  /** A relative path is taken from the root. */
  lemma RelativeIsRooted(segs: seq<string>)
    requires Names(segs) && segs != [] && !IsSpace(segs[0][0]) && !(SCHEME <= Join(segs, '/'))
    ensures NormalizePath(Join(segs, '/')) == PathText(segs)
  {
    var j := Join(segs, '/');
    SlashedIsJoin(segs);
    SlashedEnds(segs);
    JoinStarts(segs);
    var t := Slashed(segs);
    assert t == "/" + j && t[|t| - 1] == j[|j| - 1];
    StripNothing(j, Blank);
  }

  /** Nothing, or only white space, is the root. */
  lemma BlankIsRoot(s: string)
    requires Strip(s, Blank) == ""
    ensures NormalizePath(s) == "/"
  {
  }
}
