/** Row ranges for search requests, chosen so that close requests get different ranges. */
module UniqueFilter {

  /** Rows from `gte` up to, but not including, `lt`. */
  datatype Range = Range(gte: int, lt: int)

  function Max(a: int, b: int): int { if a < b then b else a }

  function Min(a: int, b: int): int { if a < b then a else b }

  function Width(rows: int): int { Max(10, Min(100, rows)) }

  /** The number of different starting rows. */
  function Span(rows: int): (n: int)
    ensures n >= 1
  {
    Max(1, rows - Width(rows) + 1)
  }

  const STRIDE: int := 997

  function UniqueFilter(index: int, rows: int, salt: int): Range {
    var start := ((index + salt) * STRIDE) % Span(rows);
    Range(start, start + Width(rows))
  }

  /** Every range lies inside the rows exactly when there are at least ten rows; its width is 10 to 100. */
  lemma InsideExactly(index: int, rows: int, salt: int)
    ensures var r := UniqueFilter(index, rows, salt);
            && 0 <= r.gte && 10 <= r.lt - r.gte <= 100
            && (r.lt <= rows <==> rows >= 10)
  {
    var start := ((index + salt) * STRIDE) % Span(rows);
    assert 0 <= start < Span(rows);
  }

  // ---------------------------------------------------------------- divisors

  ghost predicate Divides(d: int, n: int)
    requires d != 0
  {
    exists q :: n == Times(d, q)
  }

  function Times(a: int, b: int): int { a * b }

  /** Numbers `x` and `y` for which `a * x + b * y` is a common divisor of `a` and `b`. */
  lemma {:induction false} Bezout(a: nat, b: nat) returns (g: nat, x: int, y: int)
    requires a > 0
    ensures g > 0 && a * x + b * y == g && Divides(g, a) && Divides(g, b)
    decreases b
  {
    if b == 0 {
      g, x, y := a, 1, 0;
      assert a == Times(a, 1) && b == Times(a, 0);
    } else {
      var q, r := a / b, a % b;
      var u, v;
      g, u, v := Bezout(b, r);
      x, y := v, u - q * v;
      var s :| b == Times(g, s);
      var t :| r == Times(g, t);
      Combine(g, s, t, q);
      assert a == Times(g, q * s + t);
      Rearrange(a, b, q, r, u, v);
    }
  }

  lemma Combine(g: int, s: int, t: int, q: int)
    ensures (g * s) * q + g * t == g * (q * s + t)
  {
  }

  lemma Rearrange(a: int, b: int, q: int, r: int, u: int, v: int)
    requires a == b * q + r
    ensures a * v + b * (u - q * v) == b * u + r * v
  {
  }

  /** 997 is prime. */
  lemma StrideIsPrime(g: nat, h: nat)
    requires g * h == STRIDE
    ensures g == 1 || g == STRIDE
  {
    if 2 <= g <= 31 {
      NoSmallFactor(g, h);
    } else if 2 <= h <= 31 {
      NoSmallFactor(h, g);
    } else if g >= 32 && h >= 32 {
      LargeProduct(g, h);
    }
  }

  lemma LargeProduct(g: nat, h: nat)
    requires g >= 32 && h >= 32
    ensures g * h >= 1024
  {
  }

  lemma NoSmallFactor(d: nat, h: nat)
    requires 2 <= d <= 31
    ensures d * h != STRIDE
  {
  }

  /** A number that 997 does not divide has no divisor in common with it. */
  lemma StrideIsInvertible(n: nat) returns (x: int, y: int)
    requires n > 0 && n % STRIDE != 0
    ensures STRIDE * x + n * y == 1
  {
    var g;
    g, x, y := Bezout(STRIDE, n);
    var h :| STRIDE == Times(g, h);
    CofactorIsNatural(g, h);
    StrideIsPrime(g, h);
    if g == STRIDE {
      var q :| n == Times(STRIDE, q);
      SameRemainder(0, n, STRIDE) by { assert n - 0 == Times(STRIDE, q); }
    }
  }

  lemma CofactorIsNatural(g: nat, h: int)
    requires g > 0 && g * h == STRIDE
    ensures h >= 0
  {
  }

  /** Two numbers leave the same remainder exactly when their difference is a multiple. */
  lemma SameRemainder(a: int, b: int, n: int)
    requires n > 0
    ensures a % n == b % n <==> Divides(n, b - a)
  {
    var p, q := a / n, b / n;
    assert a == n * p + a % n && b == n * q + b % n;
    if a % n == b % n {
      Factor(n, p, q);
      assert b - a == Times(n, q - p);
    }
    if Divides(n, b - a) {
      var k :| b - a == Times(n, k);
      SmallMultiple(n, k - (q - p), b % n - a % n) by { Factor(n, q - p, k); Factor(n, p, q); }
    }
  }

  lemma Factor(n: int, p: int, q: int)
    ensures n * q - n * p == n * (q - p)
  {
  }

  lemma MultiplesAreFar(n: int, k: int)
    requires n > 0
    ensures (k >= 1 ==> n * k >= n) && (k <= -1 ==> n * k <= -n)
  {
  }

  lemma SmallMultiple(n: int, k: int, d: int)
    requires n > 0 && d == n * k && -n < d < n
    ensures d == 0
  {
    MultiplesAreFar(n, k);
  }

  // ---------------------------------------------------------------- uniqueness

  /** Two requests get the same range exactly when the span divides the distance times the stride. */
  lemma SameRange(i: int, j: int, rows: int, salt: int)
    ensures UniqueFilter(i, rows, salt) == UniqueFilter(j, rows, salt) <==> Divides(Span(rows), (j - i) * STRIDE)
  {
    SameRemainder((i + salt) * STRIDE, (j + salt) * STRIDE, Span(rows));
    assert (j + salt) * STRIDE - (i + salt) * STRIDE == (j - i) * STRIDE;
  }

  lemma CloseRequestsDiffer(i: int, j: int, rows: int, salt: int)
    requires Span(rows) % STRIDE != 0 && i != j && -Span(rows) < j - i < Span(rows)
    ensures UniqueFilter(i, rows, salt) != UniqueFilter(j, rows, salt)
  {
    var n, d := Span(rows), j - i;
    SameRange(i, j, rows, salt);
    if Divides(n, d * STRIDE) {
      var k :| d * STRIDE == Times(n, k);
      var x, y := StrideIsInvertible(n);
      Unfold(n, d, x, y, k);
      SmallMultiple(n, k * x + d * y, d);
    }
  }

  lemma Unfold(n: int, d: int, x: int, y: int, k: int)
    requires STRIDE * x + n * y == 1 && d * STRIDE == n * k
    ensures d == n * (k * x + d * y)
  {
    assert d == d * (STRIDE * x + n * y);
    assert d * (STRIDE * x) == (d * STRIDE) * x;
    assert (n * k) * x + d * (n * y) == n * (k * x + d * y);
  }

  /**
   * Requests closer than the span always get different ranges if and only if the span is not a multiple
   * of the stride.
   */
  lemma DistinctExactly(rows: int, salt: int)
    ensures (forall i, j :: i != j && -Span(rows) < j - i < Span(rows) ==>
               UniqueFilter(i, rows, salt) != UniqueFilter(j, rows, salt))
            <==> Span(rows) % STRIDE != 0
  {
    var n := Span(rows);
    if n % STRIDE != 0 {
      forall i, j | i != j && -n < j - i < n
        ensures UniqueFilter(i, rows, salt) != UniqueFilter(j, rows, salt)
      {
        CloseRequestsDiffer(i, j, rows, salt);
      }
    } else {
      var m := n / STRIDE;
      assert m * STRIDE == Times(n, 1);
      SameRange(0, m, rows, salt);
    }
  }

  /** With 1096 rows there are 997 starting rows, and all requests get the same range. */
  lemma SpanOfStride(i: int, j: int)
    ensures Span(1096) == STRIDE && UniqueFilter(i, 1096, 0) == UniqueFilter(j, 1096, 0)
    ensures UniqueFilter(0, 1096, 0) == UniqueFilter(1, 1096, 0) == Range(0, 100)
  {
    assert (j - i) * STRIDE == Times(STRIDE, j - i);
    SameRange(i, j, 1096, 0);
  }

  // ---------------------------------------------------------------- the values

  /** Adding before or after taking the remainder is the same. */
  lemma AddAfter(a: int, d: int, n: int)
    requires n > 0
    ensures (a + d) % n == (a % n + d) % n
  {
    var q := a / n;
    assert a == n * q + a % n;
    Factor(n, 0, -q);
    assert (a % n + d) - (a + d) == Times(n, -q);
    SameRemainder(a + d, a % n + d, n);
  }

  /** Requests start at row 0, each moves on by the stride modulo the span, and a salt shifts the requests. */
  lemma StartsAre(index: int, rows: int, salt: int)
    ensures UniqueFilter(0, rows, 0).gte == 0
    ensures UniqueFilter(index + 1, rows, salt).gte == (UniqueFilter(index, rows, salt).gte + 997) % Span(rows)
    ensures UniqueFilter(index, rows, salt) == UniqueFilter(index + salt, rows, 0)
  {
    hide Span, Width;
    AddAfter((index + salt) * STRIDE, 997, Span(rows));
    assert (index + 1 + salt) * STRIDE == (index + salt) * STRIDE + 997;
  }

  /** A range is as wide as the rows allow, between 10 and 100, and the span leaves room for it. */
  lemma WidthsAre(rows: int)
    ensures Width(rows) == if rows < 10 then 10 else if rows > 100 then 100 else rows
    ensures Span(rows) == if rows <= 100 then 1 else rows - 99
  {
  }
}
