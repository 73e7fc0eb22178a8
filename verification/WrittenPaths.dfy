/**
 Prefix matching of paths for every string: doubled slashes, white space at the end of names and ';' included.
 What decides is how a path is written between its slashes.
 */
module WrittenPaths {
  import opened Strings
  import opened Paths

  /** What stands between the slashes of a normalized path, as written; the root is one empty piece. */
  function Written(path: string): seq<string> {
    var w := NormalizePath(path);
    if w == "" then [] else Split(RStrip(w, Slash), '/')
  }

  // ---------------------------------------------------------------- stripping and splitting

  lemma {:induction false} RStripShape(s: string, m: Margin)
    ensures RStrip(s, m) <= s && (RStrip(s, m) != "" ==> !Strips(RStrip(s, m)[|RStrip(s, m)| - 1], m))
  {
    if s != "" && Strips(s[|s| - 1], m) {
      RStripShape(s[..|s| - 1], m);
    }
  }

  /** Stripping on the right does not reach over a character that stays. */
  lemma {:induction false} RStripStops(x: string, r: string, m: Margin)
    requires x != "" && !Strips(x[|x| - 1], m)
    ensures RStrip(x + r, m) == x + RStrip(r, m)
    decreases |r|
  {
    var s := x + r;
    if r != "" && Strips(r[|r| - 1], m) {
      assert s[..|s| - 1] == x + r[..|r| - 1];
      RStripStops(x, r[..|r| - 1], m);
    } else {
      assert r == "" ==> s == x;
    }
  }

  /** A normalized path is empty, the root, or starts with a slash and does not end in one. */
  lemma NormalShape(path: string)
    ensures var w := NormalizePath(path);
            w == "" || w == "/" || (|w| > 1 && w[0] == '/' && w[|w| - 1] != '/')
  {
    var s := Strip(path, Blank);
    if s != "" {
      var t := if SCHEME <= s then "/" + Strip(s[|SCHEME|..], Slash) else if s[0] == '/' then s else "/" + s;
      RStripShape(t, Slash);
      assert t[0] == '/';
    }
  }

  /** What follows the first slash, with a closing slash, and its pieces. */
  function Remainder(x: string): string {
    var e := Find(x, '/', 0);
    if e == |x| then "" else x[e + 1..] + "/"
  }

  function OtherPieces(x: string): seq<string> {
    var e := Find(x, '/', 0);
    if e == |x| then [] else Split(x[e + 1..], '/')
  }

  lemma FirstPiece(x: string)
    ensures Split(x, '/') == [x[..Find(x, '/', 0)]] + OtherPieces(x)
  {
    assert x[..|x|] == x;
  }

  lemma FirstText(x: string)
    ensures "/" + (x + "/") == "/" + x[..Find(x, '/', 0)] + ("/" + Remainder(x))
  {
    var e := Find(x, '/', 0);
    if e == |x| {
      assert x[..e] == x;
      assert "/" + (x + "/") == "/" + x + ("/" + "");
    } else {
      var s, r := x[..e], x[e + 1..];
      assert x == s + ("/" + r);
      Associate(s, r);
    }
  }

  lemma Associate(s: string, r: string)
    ensures "/" + ((s + ("/" + r)) + "/") == "/" + s + ("/" + (r + "/"))
  {
  }

  lemma StartsByFirst(x: string, y: string)
    ensures x + "/" <= y + "/"
       <==> x[..Find(x, '/', 0)] == y[..Find(y, '/', 0)] && Remainder(x) <= Remainder(y)
  {
    FirstText(x);
    FirstText(y);
    hide Remainder, OtherPieces, Split;
    Behind(x + "/", y + "/");
    Behind(Remainder(x), Remainder(y));
    FirstSegment(x[..Find(x, '/', 0)], "/" + Remainder(x), y[..Find(y, '/', 0)], "/" + Remainder(y));
  }

  lemma PiecesByFirst(x: string, y: string)
    ensures Split(x, '/') <= Split(y, '/')
       <==> x[..Find(x, '/', 0)] == y[..Find(y, '/', 0)] && OtherPieces(x) <= OtherPieces(y)
  {
    FirstPiece(x);
    FirstPiece(y);
    hide Remainder, OtherPieces, Split;
    HeadAndTail(x[..Find(x, '/', 0)], OtherPieces(x), y[..Find(y, '/', 0)], OtherPieces(y));
  }

  /** With a closing slash, a string starts with another just when its pieces do. */
  lemma {:induction false} SplitPrefix(x: string, y: string)
    ensures x + "/" <= y + "/" <==> Split(x, '/') <= Split(y, '/')
    decreases |x|
  {
    hide Split;
    var e, f := Find(x, '/', 0), Find(y, '/', 0);
    StartsByFirst(x, y);
    PiecesByFirst(x, y);
    if e < |x| && f < |y| {
      SplitPrefix(x[e + 1..], y[f + 1..]);
    }
  }

  lemma Behind(x: string, y: string)
    ensures "/" + x <= "/" + y <==> x <= y
  {
    var u, v := "/" + x, "/" + y;
    if u <= v {
      assert forall k :: 0 <= k < |x| ==> x[k] == u[k + 1] && y[k] == v[k + 1];
    }
  }

  lemma HeadAndTail(s: string, a: seq<string>, t: string, b: seq<string>)
    ensures [s] + a <= [t] + b <==> s == t && a <= b
  {
    var u, v := [s] + a, [t] + b;
    if u <= v {
      assert u[0] == v[0];
      assert forall k :: 0 <= k < |a| ==> a[k] == u[k + 1] && b[k] == v[k + 1];
    }
  }

  // ---------------------------------------------------------------- matching

  /** For all strings: the test of one path is a test of written pieces. */
  lemma UnderExactly(path: string, prefix: string)
    ensures Under(NormalizePath(path), NormalizePath(prefix)) <==> Written(prefix) <= Written(path)
  {
    hide NormalizePath;
    NormalShape(path);
    NormalShape(prefix);
    var w, p := NormalizePath(path), NormalizePath(prefix);
    var x, y := RStrip(p, Slash), RStrip(w, Slash);
    assert RStrip("/", Slash) == RStrip("", Slash) == "";
    SplitPrefix(x, y);
    if |w| > 1 {
      EqualOrLonger(x, w);
    }
  }

  /** One of the paths that a value lists has pieces that start with these. */
  predicate Lists(value: string, start: seq<string>) {
    exists k :: 0 <= k < |Split(value, ';')| && start <= Written(Split(value, ';')[k])
  }

  /** For all values and prefixes: a value matches just when a listed path is written as the prefix is, and on. */
  lemma MatchesExactly(value: string, prefix: string)
    ensures PathMatches(value, prefix) <==> Lists(value, Written(prefix))
  {
    hide NormalizePath, Under, Written, Split;
    var items := Split(value, ';');
    if PathMatches(value, prefix) {
      var k :| 0 <= k < |items| && Under(NormalizePath(items[k]), NormalizePath(prefix));
      UnderExactly(items[k], prefix);
      assert Written(prefix) <= Written(Split(value, ';')[k]);
    }
    if Lists(value, Written(prefix)) {
      var k :| 0 <= k < |items| && Written(prefix) <= Written(Split(value, ';')[k]);
      UnderExactly(items[k], prefix);
      assert Under(NormalizePath(items[k]), NormalizePath(prefix));
    }
  }

  // ---------------------------------------------------------------- parts

  lemma SplitSlash(r: string)
    ensures Split("/" + r, '/') == [""] + Split(r, '/')
  {
    assert ("/" + r)[1..] == r;
  }

  lemma {:induction false} LeadingSlashes(s: string)
    ensures NonEmpty(Split(LStrip(s, Slash), '/')) == NonEmpty(Split(s, '/'))
    ensures s != "" && s[|s| - 1] != '/' ==>
              LStrip(s, Slash) != "" && LStrip(s, Slash)[|LStrip(s, Slash)| - 1] == s[|s| - 1]
    decreases |s|
  {
    if s != "" && s[0] == '/' {
      assert s == "/" + s[1..];
      SplitSlash(s[1..]);
      assert ([""] + Split(s[1..], '/'))[1..] == Split(s[1..], '/');
      LeadingSlashes(s[1..]);
    }
  }

  /** The parts of a path are its written pieces without the empty ones. */
  lemma PartsAreWritten(path: string)
    ensures PathParts(path) == NonEmpty(Written(path))
  {
    hide NormalizePath;
    NormalShape(path);
    var w := NormalizePath(path);
    LeadingSlashes(w);
    if |w| <= 1 {
      assert LStrip("/", Slash) == LStrip("", Slash) == "" && RStrip("/", Slash) == RStrip("", Slash) == "";
      assert Split("", '/') == [""];
      assert NonEmpty([""]) == NonEmpty([]) == [];
    }
  }

  /** What a part of a path is: not empty, and without a slash. */
  predicate IsPart(s: string) { s != "" && '/' !in s }

  predicate AreParts(segs: seq<string>) { forall k :: 0 <= k < |segs| ==> IsPart(segs[k]) }

  lemma {:induction false} NonEmptyAreParts(pieces: seq<string>)
    requires Free(pieces, '/')
    ensures AreParts(NonEmpty(pieces))
  {
    if pieces != [] {
      NonEmptyAreParts(pieces[1..]);
    }
  }

  lemma PathPartsAreParts(path: string)
    ensures AreParts(PathParts(path))
  {
    NonEmptyAreParts(Split(Strip(NormalizePath(path), Slash), '/'));
  }

  // ---------------------------------------------------------------- directories above a path

  /** A directory's parts as `normalize_path` leaves them: white space at its end is gone, with a blank last part. */
  function Trimmed(dir: seq<string>): seq<string> {
    if dir == [] then []
    else
      var front, last := dir[..|dir| - 1], RStrip(dir[|dir| - 1], Blank);
      if last == "" then front else front + [last]
  }

  lemma {:induction false} SlashedShape(segs: seq<string>)
    requires AreParts(segs) && segs != []
    ensures var t := Slashed(segs); |t| > 1 && t[0] == '/' && t[|t| - 1] != '/' && Split(t, '/') == [""] + segs
  {
    SlashedIsJoin(segs);
    SplitSlash(Join(segs, '/'));
    SplitJoin(segs, '/');
    LastOfSlashed(segs);
  }

  lemma LastOfSlashed(segs: seq<string>)
    requires AreParts(segs) && segs != []
    ensures var t := Slashed(segs); |t| > 1 && t[0] == '/' && t[|t| - 1] != '/'
  {
    var front, last := segs[..|segs| - 1], segs[|segs| - 1];
    assert segs == front + [last];
    SlashedAppend(front, [last]);
    assert Slashed([last]) == "/" + last + Slashed([]) == "/" + last;
    var t := Slashed(segs);
    assert t[|t| - 1] == last[|last| - 1];
  }

  lemma TrimmedAreParts(dir: seq<string>)
    requires AreParts(dir)
    ensures AreParts(Trimmed(dir))
  {
    if dir != [] {
      var last := dir[|dir| - 1];
      RStripShape(last, Blank);
      StripInvents(last, Blank, '/');
    }
  }

  /** The written pieces of a directory's text are its parts, trimmed. */
  lemma WrittenOfDirectory(dir: seq<string>)
    requires AreParts(dir)
    ensures Written(PathText(dir)) == [""] + Trimmed(dir)
  {
    if dir == [] {
      WrittenOfRoot();
      return;
    }
    TrimmedAreParts(dir);
    NormalOfDirectory(dir);
    hide NormalizePath, Split, Slashed, Trimmed, AreParts;
    if Trimmed(dir) != [] {
      SlashedShape(Trimmed(dir));
    } else {
      RootPieces();
    }
  }

  lemma RootPieces()
    ensures RStrip("/", Slash) == "" && Split("", '/') == [""]
  {
    assert RStrip("/", Slash) == RStrip("", Slash);
  }

  lemma WrittenOfRoot()
    ensures Written("/") == [""]
  {
    StripNothing("/", Blank);
    assert !(SCHEME <= "/");
    assert RStrip("/", Slash) == RStrip("", Slash) == "" && Split("", '/') == [""];
  }

  lemma NormalOfDirectory(dir: seq<string>)
    requires AreParts(dir) && dir != []
    ensures NormalizePath(PathText(dir)) == PathText(Trimmed(dir))
  {
    var front, last := dir[..|dir| - 1], dir[|dir| - 1];
    var t, x := RStrip(last, Blank), Slashed(front) + "/";
    assert dir == front + [last];
    SlashedAppend(front, [last]);
    assert Slashed([last]) == "/" + last + Slashed([]) == "/" + last;
    var s := Slashed(dir);
    assert s == x + last && s[0] == '/';
    assert LStrip(s, Blank) == s;
    RStripStops(x, last, Blank);
    assert Strip(s, Blank) == x + t;
    assert (x + t)[0] == '/' && !(SCHEME <= x + t);
    TrimmedText(front, t, last);
  }

  lemma TrimmedText(front: seq<string>, t: string, last: string)
    requires AreParts(front) && IsPart(last) && t == RStrip(last, Blank)
    ensures var u := Slashed(front) + "/" + t;
            (if |u| > 1 then RStrip(u, Slash) else u) == PathText(if t == "" then front else front + [t])
  {
    hide Slashed, RStrip;
    RStripShape(last, Blank);
    if t == "" {
      BlankEnd(front);
    } else {
      assert t[|t| - 1] == last[|t| - 1];
      NamedEnd(front, t);
    }
  }

  lemma NamedEnd(front: seq<string>, t: string)
    requires t != "" && t[|t| - 1] != '/'
    ensures var u := Slashed(front) + "/" + t; RStrip(u, Slash) == u == Slashed(front + [t])
  {
    SlashedAppend(front, [t]);
    assert Slashed([t]) == "/" + t + Slashed([]) == "/" + t;
    hide Slashed;
    var u := Slashed(front) + "/" + t;
    assert u[|u| - 1] == t[|t| - 1];
  }

  lemma BlankEnd(front: seq<string>)
    requires AreParts(front)
    ensures var u := Slashed(front) + "/" + ""; (if |u| > 1 then RStrip(u, Slash) else u) == PathText(front)
  {
    var u := Slashed(front) + "/" + "";
    if front != [] {
      LastOfSlashed(front);
      hide Slashed;
      var x := Slashed(front);
      assert u[..|u| - 1] == x;
      assert RStrip(u, Slash) == RStrip(x, Slash) == x;
    }
  }

  /** A path that neither a strip nor the scheme changes. */
  lemma IsNormal(path: string)
    requires |path| > 1 && path[0] == '/' && path[|path| - 1] != '/' && !IsSpace(path[|path| - 1])
    ensures NormalizePath(path) == path && Written(path) == Split(path, '/')
  {
    hide Split;
    StripNothing(path, Blank);
    assert !(SCHEME <= path);
    assert RStrip(path, Slash) == path;
  }

  lemma {:induction false} NonEmptyKeeps(segs: seq<string>)
    requires AreParts(segs)
    ensures NonEmpty(segs) == segs && NonEmpty([""] + segs) == segs
  {
    assert ([""] + segs)[1..] == segs;
    if segs != [] {
      NonEmptyKeeps(segs[1..]);
    }
  }

  /** The text of parts, if the last does not end in white space, is normal and has these parts. */
  lemma TextOfParts(segs: seq<string>)
    requires AreParts(segs) && segs != [] && Slashed(segs) != "" && !IsSpace(Slashed(segs)[|Slashed(segs)| - 1])
    ensures NormalizePath(Slashed(segs)) == Slashed(segs) && PathParts(Slashed(segs)) == segs
  {
    hide NormalizePath, Written, PathParts, Split, NonEmpty, Slashed;
    SlashedShape(segs);
    IsNormal(Slashed(segs));
    PartsAreWritten(Slashed(segs));
    NonEmptyKeeps(segs);
  }

  /** The name of a directory as a query can find it: blank, or not ending in white space. */
  predicate Tidy(s: string) { s == "" || RStrip(s, Blank) == "" || !IsSpace(s[|s| - 1]) }

  /** The path is written without a doubled slash down to the end of the directory. */
  predicate Plain(path: string, dir: seq<string>) {
    |Trimmed(dir)| < |Written(path)| && forall i :: 1 <= i <= |Trimmed(dir)| ==> Written(path)[i] != ""
  }

  lemma {:induction false} NonEmptyPrefix(pieces: seq<string>, m: nat)
    requires m <= |pieces| && forall i :: 0 <= i < m ==> pieces[i] != ""
    ensures |NonEmpty(pieces)| >= m && NonEmpty(pieces)[..m] == pieces[..m]
  {
    if m > 0 {
      NonEmptyPrefix(pieces[1..], m - 1);
      var rest := NonEmpty(pieces[1..]);
      assert ([pieces[0]] + rest)[..m] == [pieces[0]] + rest[..m - 1];
      assert pieces[..m] == [pieces[0]] + pieces[1..][..m - 1];
    }
  }

  lemma {:induction false} NonEmptyIsShorter(pieces: seq<string>)
    ensures |NonEmpty(pieces)| <= |pieces|
  {
    if pieces != [] {
      NonEmptyIsShorter(pieces[1..]);
    }
  }

  /** Trimming a tidy directory drops at most a blank last part; any other trimming changes the last part. */
  lemma TrimmedIs(dir: seq<string>)
    requires AreParts(dir) && dir != []
    ensures var n := |dir|;
            if Tidy(dir[n - 1]) then Trimmed(dir) == dir || Trimmed(dir) == dir[..n - 1]
            else |Trimmed(dir)| == n && Trimmed(dir)[n - 1] != dir[n - 1]
    ensures forall i :: 0 <= i < |Trimmed(dir)| ==> Trimmed(dir)[i] != ""
  {
    var n := |dir|;
    RStripShape(dir[n - 1], Blank);
    assert dir == dir[..n - 1] + [dir[n - 1]];
  }

  lemma WrittenStarts(path: string)
    requires PathParts(path) != []
    ensures Written(path) != [] && Written(path)[0] == "" && PathParts(path) == NonEmpty(Written(path)[1..])
  {
    PartsAreWritten(path);
    hide NormalizePath;
    NormalShape(path);
    var w := NormalizePath(path);
    assert NonEmpty([]) == [] && NonEmpty([""]) == NonEmpty([""][1..]) == [];
    assert RStrip("/", Slash) == RStrip("", Slash) == "" && Split("", '/') == [""];
    assert |w| > 1;
    assert RStrip(w, Slash) == w && w == "/" + w[1..];
    SplitSlash(w[1..]);
  }

  lemma StartsThenTidy(pieces: seq<string>, dir: seq<string>)
    requires dir != [] && AreParts(dir) && dir <= NonEmpty(pieces) && Trimmed(dir) <= pieces
    ensures Tidy(dir[|dir| - 1])
  {
    var t, n := Trimmed(dir), |dir|;
    TrimmedIs(dir);
    hide Trimmed, NonEmpty, Tidy, AreParts;
    if |t| == n {
      assert forall i :: 0 <= i < n ==> pieces[i] == t[i];
      NonEmptyPrefix(pieces, n);
      var parts := NonEmpty(pieces);
      assert parts[..n][n - 1] == pieces[..n][n - 1] == t[n - 1];
      assert parts[n - 1] == dir[n - 1];
    }
  }

  lemma TidyThenStarts(pieces: seq<string>, dir: seq<string>)
    requires dir != [] && AreParts(dir) && dir <= NonEmpty(pieces) && Tidy(dir[|dir| - 1])
    requires |Trimmed(dir)| <= |pieces| && forall i :: 0 <= i < |Trimmed(dir)| ==> pieces[i] != ""
    ensures Trimmed(dir) <= pieces
  {
    var t := Trimmed(dir);
    TrimmedIs(dir);
    hide Trimmed, NonEmpty, Tidy, AreParts;
    NonEmptyPrefix(pieces, |t|);
    SamePrefix(dir, NonEmpty(pieces), pieces, |t|);
    assert t == dir[..|t|];
  }

  lemma TrimmedFits(pieces: seq<string>, dir: seq<string>)
    requires dir != [] && AreParts(dir) && dir <= NonEmpty(pieces)
    ensures |Trimmed(dir)| <= |pieces| && "" !in Trimmed(dir)
  {
    NonEmptyIsShorter(pieces);
    TrimmedIs(dir);
    hide Trimmed, NonEmpty, AreParts, Tidy;
  }

  lemma PrefixHasNone(t: seq<string>, pieces: seq<string>)
    requires t <= pieces && "" !in t
    ensures forall i :: 0 <= i < |t| ==> pieces[i] != ""
  {
    assert forall i :: 0 <= i < |t| ==> pieces[i] == t[i];
  }

  /** Whether pieces start with a trimmed directory, given that their non-empty ones start with the directory. */
  lemma StartsExactly(pieces: seq<string>, dir: seq<string>)
    requires dir != [] && AreParts(dir) && dir <= NonEmpty(pieces)
    ensures var t := Trimmed(dir);
            && |t| <= |pieces|
            && (t <= pieces <==> Tidy(dir[|dir| - 1]) && forall i :: 0 <= i < |t| ==> pieces[i] != "")
  {
    hide Trimmed, NonEmpty, Tidy, AreParts;
    var t := Trimmed(dir);
    TrimmedFits(pieces, dir);
    if t <= pieces {
      StartsThenTidy(pieces, dir);
      PrefixHasNone(t, pieces);
    } else if Tidy(dir[|dir| - 1]) && forall i :: 0 <= i < |t| ==> pieces[i] != "" {
      TidyThenStarts(pieces, dir);
    }
  }

  lemma SamePrefix(dir: seq<string>, parts: seq<string>, pieces: seq<string>, m: nat)
    requires dir <= parts && m <= |dir| && m <= |pieces| && parts[..m] == pieces[..m]
    ensures dir[..m] == pieces[..m]
  {
  }

  lemma FirstParts(path: string, dir: seq<string>)
    requires dir <= PathParts(path)
    ensures AreParts(dir)
  {
    hide PathParts;
    PathPartsAreParts(path);
    assert forall k :: 0 <= k < |dir| ==> dir[k] == PathParts(path)[k];
  }

  /** The heart: whether the written pieces start with those of a directory made of the first parts. */
  lemma ReachedExactly(path: string, dir: seq<string>)
    requires dir != [] && dir <= PathParts(path)
    ensures AreParts(dir)
    ensures [""] + Trimmed(dir) <= Written(path) <==> Tidy(dir[|dir| - 1]) && Plain(path, dir)
  {
    hide PathParts, Written, Trimmed, Tidy, AreParts;
    FirstParts(path, dir);
    WrittenStarts(path);
    var r, t := Written(path)[1..], Trimmed(dir);
    StartsExactly(r, dir);
    assert Written(path) == [""] + r;
    HeadAndTail("", t, "", r);
    assert forall i :: 1 <= i <= |t| ==> Written(path)[i] == r[i - 1];
    assert forall i :: 0 <= i < |t| ==> r[i] == Written(path)[i + 1];
  }

  lemma SingleLists(path: string, start: seq<string>)
    requires ';' !in path
    ensures Lists(path, start) <==> start <= Written(path)
  {
    hide Written;
    FindIs(path, ';', 0, |path|);
    assert Split(path, ';') == [path];
    hide Split;
    assert Split(path, ';')[0] == path;
  }

  /**
   * A single path, which holds no ';', matches a directory made of its first parts if and only if the directory's
   * last name is blank or does not end in white space, and the path has no doubled slash down to there.
   */
  lemma SinglePathExactly(path: string, dir: seq<string>)
    requires ';' !in path && dir != [] && dir <= PathParts(path)
    ensures PathMatches(path, PathText(dir)) <==> Tidy(dir[|dir| - 1]) && Plain(path, dir)
  {
    hide PathParts, Written, Tidy, Plain, Trimmed, PathMatches, PathText;
    ReachedExactly(path, dir);
    WrittenOfDirectory(dir);
    MatchesExactly(path, PathText(dir));
    SingleLists(path, [""] + Trimmed(dir));
  }

  /**
   * Any value, which may list several paths: it matches a directory if and only if one of the listed paths is
   * written as the directory, trimmed, and on.
   */
  predicate Reaches(value: string, dir: seq<string>) { Lists(value, [""] + Trimmed(dir)) }

  lemma AnyValueExactly(value: string, dir: seq<string>)
    requires AreParts(dir)
    ensures PathMatches(value, PathText(dir)) <==> Reaches(value, dir)
  {
    hide Written, Trimmed, PathMatches, PathText, Lists;
    WrittenOfDirectory(dir);
    MatchesExactly(value, PathText(dir));
  }

  lemma {:induction false} SplitInvents(s: string, sep: char, c: char, k: nat)
    requires k < |Split(s, sep)| && c in Split(s, sep)[k]
    ensures c in s
    decreases |s|
  {
    var e := Find(s, sep, 0);
    if e < |s| && k > 0 {
      SplitInvents(s[e + 1..], sep, c, k - 1);
    }
  }

  lemma {:induction false} RStripLoses(s: string, c: char)
    requires c in s && !IsSpace(c)
    ensures c in RStrip(s, Blank)
  {
    if IsSpace(s[|s| - 1]) {
      RStripLoses(s[..|s| - 1], c);
    }
  }

  /** A directory with a ';' in it is reached by no value at all. */
  lemma SemicolonIsNeverReached(value: string, dir: seq<string>, i: nat)
    requires AreParts(dir) && i < |dir| && ';' in dir[i]
    ensures !Reaches(value, dir)
  {
    var t, items := Trimmed(dir), Split(value, ';');
    TrimmedHolds(dir, i);
    forall k | 0 <= k < |items|
      ensures !([""] + t <= Written(items[k]))
    {
      NormalizeInvents(items[k], ';');
      WrittenInvents(items[k]);
      var start := [""] + t;
      assert start[i + 1] == t[i];
    }
  }

  lemma TrimmedHolds(dir: seq<string>, i: nat)
    requires AreParts(dir) && i < |dir| && ';' in dir[i]
    ensures i < |Trimmed(dir)| && ';' in Trimmed(dir)[i]
  {
    if i == |dir| - 1 {
      RStripLoses(dir[i], ';');
    }
  }

  lemma WrittenInvents(path: string)
    requires ';' !in NormalizePath(path)
    ensures forall k :: 0 <= k < |Written(path)| ==> ';' !in Written(path)[k]
  {
    var w := NormalizePath(path);
    StripInvents(w, Slash, ';');
    forall k | 0 <= k < |Written(path)|
      ensures ';' !in Written(path)[k]
    {
      if ';' in Written(path)[k] {
        SplitInvents(RStrip(w, Slash), '/', ';', k);
      }
    }
  }
}
