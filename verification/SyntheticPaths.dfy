/**
 Synthetic directory paths: the mixed-radix digits of an index, lowest first. Two of
 them share their first `k` directories exactly when their indices agree modulo the
 `k`-th power of the fan-out, which is what prefix queries over them rely on.
 */
module SyntheticPaths {
  import opened Base
  import opened Strings
  import opened Paths

  function Power(b: nat, e: nat): nat { if e == 0 then 1 else b * Power(b, e - 1) }

  lemma PowerPositive(b: nat, e: nat)
    requires b >= 1
    ensures Power(b, e) >= 1
  {
    if e > 0 {
      PowerPositive(b, e - 1);
      MulAtLeastOne(b, Power(b, e - 1));
    }
  }

  lemma MulAtLeastOne(a: nat, b: nat)
    requires a >= 1 && b >= 1
    ensures a * b >= 1
  {
  }

  /** The directory name of one level. */
  function LevelName(level: nat, digit: nat): string { "d" + Decimal(level) + "_" + Decimal(digit) }

  /** The directory names of the levels from `level` to below `depth`. */
  function Levels(value: int, level: nat, depth: nat, fanout: nat): (names: seq<string>)
    requires fanout >= 1
    ensures |names| == if level < depth then depth - level else 0
    decreases depth - level
  {
    if level >= depth then [] else [LevelName(level, value % fanout)] + Levels(value / fanout, level + 1, depth, fanout)
  }

  function AtLeastOne(n: int): nat { if n < 1 then 1 else n }

  /** `synthetic_path`: the loop that takes the digits of the index off one by one. */
  method SyntheticPath(index: int, depth: int, fanout: int) returns (path: string)
    ensures path == PathText(Levels(index, 0, AtLeastOne(depth), AtLeastOne(fanout)))
  {
    var f := AtLeastOne(fanout);
    var d := AtLeastOne(depth);
    var parts: seq<string> := [];
    var value := index;
    for level := 0 to d
      invariant |parts| == level
      invariant parts + Levels(value, level, d, f) == Levels(index, 0, d, f)
    {
      parts := parts + [LevelName(level, value % f)];
      value := value / f;
    }
    assert parts == Levels(index, 0, d, f);
    SlashedIsJoin(parts);
    path := "/" + Join(parts, '/');
  }

  // ---------------------------------------------------------------- names

  lemma LevelIsSegment(level: nat, digit: nat)
    ensures Name(LevelName(level, digit)) && ';' !in LevelName(level, digit)
  {
    var a, b := Decimal(level), Decimal(digit);
    var s := LevelName(level, digit);
    assert s == ("d" + a + "_") + b;
    assert s[|s| - 1] == b[|b| - 1];
    forall k | 0 <= k < |s|
      ensures s[k] == 'd' || s[k] == '_' || Member(s[k], Digit)
    {
      if 0 < k <= |a| {
        assert s[k] == a[k - 1];
      } else if k > |a| + 1 {
        assert s[k] == b[k - |a| - 2];
      }
    }
  }

  lemma {:induction false} LevelsAreSegments(value: int, level: nat, depth: nat, fanout: nat)
    requires fanout >= 1
    ensures Segments(Levels(value, level, depth, fanout))
    decreases depth - level
  {
    if level < depth {
      LevelIsSegment(level, value % fanout);
      LevelsAreSegments(value / fanout, level + 1, depth, fanout);
    }
  }

  lemma LevelInjective(level: nat, a: nat, b: nat)
    ensures LevelName(level, a) == LevelName(level, b) <==> a == b
  {
    if LevelName(level, a) == LevelName(level, b) {
      var p := "d" + Decimal(level) + "_";
      assert (p + Decimal(a))[|p|..] == Decimal(a);
      assert (p + Decimal(b))[|p|..] == Decimal(b);
      DecimalInjective(a, b);
    }
  }

  // ---------------------------------------------------------------- digits

  /** `a` and `b` leave the same remainder: the digits below agree and so do the quotients' digits. */
  lemma CongruentByDigits(a: int, b: int, f: nat, m: nat)
    requires f >= 1 && m >= 1 && f * m >= 1
    ensures a % (f * m) == b % (f * m) <==> a % f == b % f && (a / f) % m == (b / f) % m
  {
    Decompose(a, f, m);
    Decompose(b, f, m);
    if a % (f * m) == b % (f * m) {
      SameDigits(a % f, (a / f) % m, b % f, (b / f) % m, f);
    }
  }

  /** The remainder modulo `f * m` is the digit below `f` plus `f` times the quotient's remainder. */
  lemma Decompose(a: int, f: nat, m: nat)
    requires f >= 1 && m >= 1 && f * m >= 1
    ensures a % (f * m) == a % f + f * ((a / f) % m)
  {
    var q, r := a / f, a % f;
    var u, v := q / m, q % m;
    var low := r + f * v;
    assert a == f * q + r;
    assert q == m * u + v;
    assert f * (m * u + v) == f * (m * u) + f * v;
    assert f * (m * u) == (f * m) * u by {
      Associate(f, m, u);
    }
    assert a == (f * m) * u + low;
    assert 0 <= low < f * m by {
      Bound(r, v, f, m);
    }
    Remainder(a, f * m, u, low);
  }

  lemma Associate(a: int, b: int, c: int)
    ensures a * (b * c) == (a * b) * c
  {
  }

  lemma Bound(r: int, v: int, f: nat, m: nat)
    requires 0 <= r < f && 0 <= v < m
    ensures 0 <= r + f * v < f * m
  {
    assert f * v <= f * (m - 1) by {
      Monotone(f, v, m - 1);
    }
    assert f * (m - 1) == f * m - f;
    Monotone(f, 0, v);
  }

  lemma Monotone(f: nat, a: int, b: int)
    requires a <= b
    ensures f * a <= f * b
  {
  }

  lemma Remainder(a: int, n: int, q: int, r: int)
    requires n >= 1 && 0 <= r < n && a == n * q + r
    ensures a % n == r && a / n == q
  {
    var q', r' := a / n, a % n;
    assert a == n * q' + r';
    assert n * (q - q') == r' - r;
    if q > q' {
      Monotone(n, 1, q - q');
    } else if q < q' {
      Monotone(n, 1, q' - q);
    }
  }

  lemma SameDigits(r: int, v: int, r': int, v': int, f: nat)
    requires 0 <= r < f && 0 <= r' < f && r + f * v == r' + f * v'
    ensures r == r' && v == v'
  {
    Remainder(r + f * v, f, v, r);
    Remainder(r' + f * v', f, v', r');
  }

  /** The first `k` names agree exactly when the values agree modulo the `k`-th power of the fan-out. */
  lemma {:induction false} LevelsAgree(i: int, j: int, level: nat, depth: nat, fanout: nat, k: nat)
    requires fanout >= 1 && level + k <= depth
    ensures Power(fanout, k) >= 1
    ensures Levels(i, level, depth, fanout)[..k] == Levels(j, level, depth, fanout)[..k]
       <==> i % Power(fanout, k) == j % Power(fanout, k)
    decreases k
  {
    PowerPositive(fanout, k);
    if k > 0 {
      var x, y := Levels(i, level, depth, fanout), Levels(j, level, depth, fanout);
      var x', y' := Levels(i / fanout, level + 1, depth, fanout), Levels(j / fanout, level + 1, depth, fanout);
      LevelsAgree(i / fanout, j / fanout, level + 1, depth, fanout, k - 1);
      PowerPositive(fanout, k - 1);
      CongruentByDigits(i, j, fanout, Power(fanout, k - 1));
      LevelInjective(level, i % fanout, j % fanout);
      assert x[..k] == [x[0]] + x'[..k - 1];
      assert y[..k] == [y[0]] + y'[..k - 1];
      assert x[..k] == y[..k] <==> x[0] == y[0] && x'[..k - 1] == y'[..k - 1] by {
        ConsEqual(x[0], x'[..k - 1], y[0], y'[..k - 1]);
      }
    }
  }

  lemma ConsEqual(a: string, s: seq<string>, b: string, t: seq<string>)
    ensures [a] + s == [b] + t <==> a == b && s == t
  {
    if [a] + s == [b] + t {
      assert a == ([a] + s)[0] && b == ([b] + t)[0];
      assert s == ([a] + s)[1..] && t == ([b] + t)[1..];
    }
  }

  /** The text `synthetic_path` returns. */
  function SyntheticText(index: int, depth: nat, fanout: nat): string
    requires fanout >= 1
  {
    PathText(Levels(index, 0, depth, fanout))
  }

  /**
   * As strings, path `j` lies under the `k`-segment prefix of path `i` exactly when
   * the indices are congruent modulo fanout to the power of `k`.
   */
  lemma UnderPrefixIsCongruent(i: int, j: int, depth: nat, fanout: nat, k: nat)
    requires fanout >= 1 && 1 <= k <= depth
    ensures Power(fanout, k) >= 1
    ensures PathMatches(SyntheticText(j, depth, fanout), PathPrefix(SyntheticText(i, depth, fanout), k))
       <==> i % Power(fanout, k) == j % Power(fanout, k)
  {
    hide PathMatches, PathPrefix, PathText;
    var x, y := Levels(i, 0, depth, fanout), Levels(j, 0, depth, fanout);
    LevelsAreSegments(i, 0, depth, fanout);
    LevelsAreSegments(j, 0, depth, fanout);
    PrefixOfText(x, k);
    MatchesIsSegmentPrefix(y, x[..k]);
    LevelsAgree(i, j, 0, depth, fanout, k);
    assert x[..k] <= y <==> x[..k] == y[..k];
  }

  /** Two synthetic paths are the same string exactly when their indices are congruent over all levels. */
  lemma SamePathIsCongruent(i: int, j: int, depth: nat, fanout: nat)
    requires fanout >= 1 && depth >= 1
    ensures Power(fanout, depth) >= 1
    ensures SyntheticText(i, depth, fanout) == SyntheticText(j, depth, fanout)
       <==> i % Power(fanout, depth) == j % Power(fanout, depth)
  {
    hide PathText;
    var x, y := Levels(i, 0, depth, fanout), Levels(j, 0, depth, fanout);
    LevelsAreSegments(i, 0, depth, fanout);
    LevelsAreSegments(j, 0, depth, fanout);
    PiecesOfText(x);
    PiecesOfText(y);
    LevelsAgree(i, j, 0, depth, fanout, depth);
    assert x[..depth] == x && y[..depth] == y;
  }

  /** Below fanout to the power of the depth, different indices have different paths. */
  lemma PathsDistinct(i: nat, j: nat, depth: nat, fanout: nat)
    requires fanout >= 1 && depth >= 1
    requires i < Power(fanout, depth) && j < Power(fanout, depth) && i != j
    ensures SyntheticText(i, depth, fanout) != SyntheticText(j, depth, fanout)
  {
    SamePathIsCongruent(i, j, depth, fanout);
    Remainder(i, Power(fanout, depth), 0, i);
    Remainder(j, Power(fanout, depth), 0, j);
  }

  /** The names of the levels, at one index: 7 is 1 and twice 3. */
  lemma PathOfSeven()
    ensures SyntheticText(7, 2, 3) == "/d0_1/d1_2"
  {
    assert Decimal(0) == "0" && Decimal(1) == "1" && Decimal(2) == "2";
    assert LevelName(0, 1) == "d0_1" && LevelName(1, 2) == "d1_2";
    assert Levels(2, 1, 2, 3) == ["d1_2"] + Levels(0, 2, 2, 3);
    assert Levels(7, 0, 2, 3) == ["d0_1"] + Levels(2, 1, 2, 3);
    var names := ["d0_1", "d1_2"];
    assert Levels(7, 0, 2, 3) == names;
    assert names[1..] == ["d1_2"] && names[1..][1..] == [];
    assert Slashed(["d1_2"]) == "/" + "d1_2" + Slashed([]) == "/d1_2";
  }
}
