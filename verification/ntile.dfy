/**
 * `NTILE(10) OVER (ORDER BY balance DESC)` of the decile query
 * (app.py:230-235): n ordered rows are split into at most ten buckets as
 * equal as possible, the first n % 10 buckets holding one row more than
 * the others; with fewer than ten rows every row is its own bucket.
 *
 * `NtileOf` is the per-row assignment the window function computes;
 * `TileStart` and `TileSize` describe the same split as consecutive slices,
 * and `NtileInTile` proves the two descriptions agree.
 */
module Ntile {

  /** The argument of NTILE in the decile query. */
  const Buckets: nat := 10

  /**
   * The bucket (1-based) of the row at 0-based position idx among n rows:
   * the first r = n % 10 buckets take q + 1 rows each (q = n / 10), the
   * remaining buckets q rows each.
   */
  function NtileOf(idx: nat, n: nat): int
    requires idx < n
  {
    var q, r := n / Buckets, n % Buckets;
    if q == 0 || idx < r * (q + 1) then 1 + idx / (q + 1)
    else 1 + r + (idx - r * (q + 1)) / q
  }

  /** Rows in bucket d (1 <= d <= 10). */
  function TileSize(d: nat, n: nat): nat
  {
    n / Buckets + (if d <= n % Buckets then 1 else 0)
  }

  /** 0-based position of the first row of bucket d: the rows of buckets 1..d-1 come first. */
  function TileStart(d: nat, n: nat): nat
    requires d >= 1
  {
    (d - 1) * (n / Buckets) + (if d - 1 <= n % Buckets then d - 1 else n % Buckets)
  }

  predicate InTile(idx: nat, d: nat, n: nat)
    requires d >= 1
  {
    TileStart(d, n) <= idx < TileStart(d, n) + TileSize(d, n)
  }

  /*
   * Integer helpers, each one step on plain integers.
   */

  lemma ZeroQuotient(n: nat, q: nat, r: nat)
    requires q == n / Buckets && r == n % Buckets && q == 0
    ensures r * (q + 1) == n
  {
  }

  lemma MulMonotone(a: int, b: int, c: int)
    requires a <= b && c >= 0
    ensures a * c <= b * c
  {
    assert b * c - a * c == (b - a) * c;
  }

  /** The quotient brackets the dividend: j*m <= a < j*m + m. */
  lemma DivBracket(a: nat, m: nat)
    requires m > 0
    ensures (a / m) * m <= a < (a / m) * m + m
  {
  }

  /** a < c*m implies a / m < c. */
  lemma DivBelow(a: nat, m: nat, c: nat)
    requires m > 0 && a < c * m
    ensures a / m < c
  {
    DivBracket(a, m);
    if a / m >= c {
      MulMonotone(c, a / m, m);
    }
  }

  /** Bucket d <= r spans [(d-1)(q+1), d(q+1)). */
  lemma {:induction false} LargeTile(d: nat, n: nat)
    requires 1 <= d <= n % Buckets
    ensures TileStart(d, n) == (d - 1) * (n / Buckets + 1)
    ensures TileSize(d, n) == n / Buckets + 1
  {
    var q := n / Buckets;
    assert (d - 1) * (q + 1) == (d - 1) * q + (d - 1);
  }

  /** Bucket d > r spans [r(q+1) + (d-1-r)q, r(q+1) + (d-r)q). */
  lemma {:induction false} SmallTile(d: nat, n: nat)
    requires n % Buckets < d
    ensures TileStart(d, n) == (n % Buckets) * (n / Buckets + 1) + (d - 1 - n % Buckets) * (n / Buckets)
    ensures TileSize(d, n) == n / Buckets
  {
    var q, r := n / Buckets, n % Buckets;
    assert (d - 1) * q == r * q + (d - 1 - r) * q;
    assert r * (q + 1) == r * q + r;
  }

  /** Rows before r*(q+1) fall in the larger buckets 1..r. */
  lemma {:induction false} NtileLarge(idx: nat, n: nat)
    requires idx < n && (n / Buckets == 0 || idx < (n % Buckets) * (n / Buckets + 1))
    ensures 1 <= NtileOf(idx, n) <= Buckets
    ensures InTile(idx, NtileOf(idx, n), n)
  {
    var q, r := n / Buckets, n % Buckets;
    var j := idx / (q + 1);
    LargeSlot(n, q, r, idx);
    assert NtileOf(idx, n) == j + 1;
    assert TileStart(j + 1, n) == j * (q + 1) && TileSize(j + 1, n) == q + 1 by {
      LargeTile(j + 1, n);
    }
  }

  /** A row before r * (q + 1) lies in the (idx / (q + 1))-th run of q + 1 rows, one of the first r. */
  lemma {:induction false} LargeSlot(n: nat, q: nat, r: nat, idx: nat)
    requires q == n / Buckets && r == n % Buckets && idx < n
    requires q == 0 || idx < r * (q + 1)
    ensures idx / (q + 1) < r
    ensures (idx / (q + 1)) * (q + 1) <= idx < (idx / (q + 1)) * (q + 1) + (q + 1)
  {
    assert idx < r * (q + 1) by {
      if q == 0 {
        ZeroQuotient(n, q, r);
      }
    }
    DivBracket(idx, q + 1);
    DivBelow(idx, q + 1, r);
  }

  /** The remaining rows fall in the smaller buckets r+1..10. */
  lemma {:induction false} NtileSmall(idx: nat, n: nat)
    requires idx < n && n / Buckets > 0 && (n % Buckets) * (n / Buckets + 1) <= idx
    ensures 1 <= NtileOf(idx, n) <= Buckets
    ensures InTile(idx, NtileOf(idx, n), n)
  {
    var q, r := n / Buckets, n % Buckets;
    var t := idx - r * (q + 1);
    SmallSlot(n, q, r, t);
    SmallTile(1 + r + t / q, n);
  }

  /** A row t places past the larger buckets lies in the (t / q)-th run of q rows, one of the last 10 - r. */
  lemma {:induction false} SmallSlot(n: nat, q: nat, r: nat, t: nat)
    requires q == n / Buckets && r == n % Buckets && q > 0
    requires r * (q + 1) + t < n
    ensures t / q < Buckets - r
    ensures (t / q) * q <= t < (t / q) * q + q
  {
    assert t < (Buckets - r) * q by {
      Distribute(n, q, r);
    }
    DivBracket(t, q);
    DivBelow(t, q, Buckets - r);
  }

  /** n rows are r runs of q + 1 followed by 10 - r runs of q. */
  lemma {:induction false} Distribute(n: nat, q: nat, r: nat)
    requires q == n / Buckets && r == n % Buckets
    ensures n == r * (q + 1) + (Buckets - r) * q
  {
    assert n == Buckets * q + r;
    assert r * (q + 1) == r * q + r;
    assert Buckets * q == r * q + (Buckets - r) * q;
  }

  /** The row idx lies in the bucket NTILE assigns it, and that bucket is one of 1..10. */
  lemma {:induction false} NtileInItsTile(idx: nat, n: nat)
    requires idx < n
    ensures 1 <= NtileOf(idx, n) <= Buckets
    ensures InTile(idx, NtileOf(idx, n), n)
  {
    if n / Buckets == 0 || idx < (n % Buckets) * (n / Buckets + 1) {
      NtileLarge(idx, n);
    } else {
      NtileSmall(idx, n);
    }
  }

  /** Each bucket starts where the previous one ends. */
  lemma {:induction false} TileStartNext(d: nat, n: nat)
    requires 1 <= d
    ensures TileStart(d + 1, n) == TileStart(d, n) + TileSize(d, n)
  {
    var q := n / Buckets;
    assert d * q == (d - 1) * q + q;
  }

  /** The ten buckets end exactly at the last row. */
  lemma {:induction false} TileEnd(n: nat)
    ensures TileStart(Buckets + 1, n) == n
  {
  }

  lemma {:induction false} TileStartMonotone(d: nat, e: nat, n: nat)
    requires 1 <= d <= e
    ensures TileStart(d, n) <= TileStart(e, n)
    decreases e - d
  {
    if d < e {
      TileStartMonotone(d, e - 1, n);
      TileStartNext(e - 1, n);
    }
  }

  /** Buckets 1..10 lie inside the n rows. */
  lemma {:induction false} TileWithinRows(d: nat, n: nat)
    requires 1 <= d <= Buckets
    ensures TileStart(d, n) + TileSize(d, n) <= n
  {
    TileStartNext(d, n);
    TileStartMonotone(d + 1, Buckets + 1, n);
    TileEnd(n);
  }

  /** Distinct buckets never share a row. */
  lemma {:induction false} TilesDisjoint(idx: nat, d: nat, e: nat, n: nat)
    requires 1 <= d && 1 <= e
    requires InTile(idx, d, n) && InTile(idx, e, n)
    ensures d == e
  {
    if d < e {
      TileStartNext(d, n);
      TileStartMonotone(d + 1, e, n);
    } else if e < d {
      TileStartNext(e, n);
      TileStartMonotone(e + 1, d, n);
    }
  }

  /**
   * NTILE(10) puts row idx in bucket d exactly when idx falls in the d-th
   * slice: buckets are consecutive runs of the ordered rows.
   */
  lemma {:induction false} NtileInTile(idx: nat, n: nat, d: nat)
    requires idx < n && 1 <= d <= Buckets
    ensures NtileOf(idx, n) == d <==> InTile(idx, d, n)
  {
    NtileInItsTile(idx, n);
    if InTile(idx, d, n) {
      TilesDisjoint(idx, d, NtileOf(idx, n), n);
    }
  }

  /**
   * Bucket sizes: bucket d holds n/10 + 1 rows when d <= n % 10 and n/10
   * otherwise; bucket d is non-empty exactly when d <= n; bucket 1 holds
   * ceil(n/10) rows.
   */
  lemma {:induction false} TileSizes(d: nat, n: nat)
    requires 1 <= d <= Buckets
    ensures TileSize(d, n) > 0 <==> d <= n
    ensures d <= n % Buckets ==> TileSize(d, n) == n / Buckets + 1
    ensures n % Buckets < d ==> TileSize(d, n) == n / Buckets
    ensures n < Buckets ==> TileSize(d, n) == (if d <= n then 1 else 0)
    ensures TileSize(1, n) * Buckets >= n && (TileSize(1, n) - 1) * Buckets < n
  {
  }
}
