/** The Python string operations the models use, on Dafny strings, and their laws. */
module Strings {
  import opened Base

  predicate IsSpace(c: char) { Member(c, PythonSpace) }

  // ---------------------------------------------------------------- split and join

  /** The index of the first `sep` at or after `i`, or the length. */
  function Find(s: string, sep: char, i: nat): (e: nat)
    requires i <= |s|
    ensures i <= e <= |s|
    ensures forall k :: i <= k < e ==> s[k] != sep
    ensures e < |s| ==> s[e] == sep
    decreases |s| - i
  {
    if i == |s| || s[i] == sep then i else Find(s, sep, i + 1)
  }

  /** `s.split(sep)`: never empty, and no piece holds the separator. */
  function Split(s: string, sep: char): (pieces: seq<string>)
    ensures pieces != []
    ensures forall k :: 0 <= k < |pieces| ==> sep !in pieces[k]
    decreases |s|
  {
    var e := Find(s, sep, 0);
    if e == |s| then [s] else [s[..e]] + Split(s[e + 1..], sep)
  }

  /** `sep.join(pieces)` for a separator of one character. */
  function Join(pieces: seq<string>, sep: char): string {
    if pieces == [] then ""
    else if |pieces| == 1 then pieces[0]
    else pieces[0] + [sep] + Join(pieces[1..], sep)
  }

  predicate Free(pieces: seq<string>, sep: char) {
    forall k :: 0 <= k < |pieces| ==> sep !in pieces[k]
  }

  lemma FindIs(s: string, sep: char, i: nat, e: nat)
    requires i <= e <= |s|
    requires forall k :: i <= k < e ==> s[k] != sep
    requires e < |s| ==> s[e] == sep
    ensures Find(s, sep, i) == e
  {
    var r := Find(s, sep, i);
    assert !(r < e);
    assert !(e < r);
  }

  /** Splitting undoes joining pieces that do not hold the separator. */
  lemma {:induction false} SplitJoin(pieces: seq<string>, sep: char)
    requires pieces != [] && Free(pieces, sep)
    ensures Split(Join(pieces, sep), sep) == pieces
    decreases |pieces|
  {
    var s, p := Join(pieces, sep), pieces[0];
    FindIs(s, sep, 0, |p|);
    if |pieces| > 1 {
      assert s[..|p|] == p;
      assert s[|p| + 1..] == Join(pieces[1..], sep);
      SplitJoin(pieces[1..], sep);
    }
  }

  /** Joining undoes splitting. */
  lemma {:induction false} JoinSplit(s: string, sep: char)
    ensures Join(Split(s, sep), sep) == s
    decreases |s|
  {
    var e := Find(s, sep, 0);
    if e < |s| {
      var rest := Split(s[e + 1..], sep);
      JoinSplit(s[e + 1..], sep);
      assert ([s[..e]] + rest)[1..] == rest;
      assert s == s[..e] + [sep] + s[e + 1..];
    }
  }

  /** Splitting is local: a separator in the middle splits the two sides apart. */
  lemma {:induction false} SplitAppend(a: string, b: string, sep: char)
    ensures Split(a + [sep] + b, sep) == Split(a, sep) + Split(b, sep)
    decreases |a|
  {
    var s, e := a + [sep] + b, Find(a, sep, 0);
    FindIs(s, sep, 0, e);
    assert s[..e] == a[..e];
    if e == |a| {
      assert a[..e] == a && s[e + 1..] == b;
    } else {
      assert s[e + 1..] == a[e + 1..] + [sep] + b;
      SplitAppend(a[e + 1..], b, sep);
    }
  }

  // ---------------------------------------------------------------- strip

  /** What a strip removes at the ends of a string. */
  datatype Margin = Blank | Slash

  predicate Strips(c: char, m: Margin) {
    match m
    case Blank => IsSpace(c)
    case Slash => c == '/'
  }

  /** `s.strip()` and its halves. */
  function LStrip(s: string, m: Margin): string {
    if s != "" && Strips(s[0], m) then LStrip(s[1..], m) else s
  }

  function RStrip(s: string, m: Margin): string {
    if s != "" && Strips(s[|s| - 1], m) then RStrip(s[..|s| - 1], m) else s
  }

  function Strip(s: string, m: Margin): string { RStrip(LStrip(s, m), m) }

  // ---------------------------------------------------------------- decimal numerals

  const DIGITS: string := "0123456789"

  /** `str(n)` of a non-negative integer. */
  function Decimal(n: nat): (s: string)
    ensures s != "" && forall k :: 0 <= k < |s| ==> Member(s[k], Digit)
  {
    if n < 10 then [DIGITS[n]] else Decimal(n / 10) + [DIGITS[n % 10]]
  }

  lemma DigitsDiffer(a: nat, b: nat)
    requires a < 10 && b < 10 && DIGITS[a] == DIGITS[b]
    ensures a == b
  {
  }

  /** Different numbers have different numerals. */
  lemma {:induction false} DecimalInjective(a: nat, b: nat)
    requires Decimal(a) == Decimal(b)
    ensures a == b
    decreases a + b
  {
    var s, t := Decimal(a), Decimal(b);
    assert s[|s| - 1] == t[|t| - 1];
    if a < 10 && b < 10 {
      DigitsDiffer(a, b);
    } else {
      assert a >= 10 && b >= 10;
      assert s[..|s| - 1] == Decimal(a / 10);
      assert t[..|t| - 1] == Decimal(b / 10);
      DecimalInjective(a / 10, b / 10);
      DigitsDiffer(a % 10, b % 10);
    }
  }
}
