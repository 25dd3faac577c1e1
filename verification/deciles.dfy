/**
 * The balance-decile query `deciles_q` (app.py:224-246): every filtered
 * balance gets NTILE(10) over the balances ranked largest first, and one
 * row per bucket reports its account count, MIN, AVG, MAX and SUM. GROUP BY
 * only produces buckets that hold at least one row, so fewer than ten
 * accounts give fewer than ten rows.
 */
module Deciles {
  import opened Balances
  import opened Ranking
  import opened Ntile
  import opened TopShare

  /** One output row; decile 1 holds the largest balances. */
  datatype DecileRow = DecileRow(
    decile: nat,
    accounts: nat,
    minBalance: real,
    avgBalance: real,
    maxBalance: real,
    totalBalance: real)

  /**
   * The balances among the first i ranked rows that NTILE(10) puts in
   * bucket d, in rank order: the rows of GROUP BY decile = d.
   */
  function MembersUpTo(ranked: seq<real>, d: nat, i: nat): seq<real>
    requires i <= |ranked|
  {
    if i == 0 then []
    else
      MembersUpTo(ranked, d, i - 1)
      + (if NtileOf(i - 1, |ranked|) == d then [ranked[i - 1]] else [])
  }

  function Members(ranked: seq<real>, d: nat): seq<real>
  {
    MembersUpTo(ranked, d, |ranked|)
  }

  /** The aggregates of one non-empty bucket. */
  function Aggregate(d: nat, m: seq<real>): (r: DecileRow)
    requires |m| > 0
  {
    DecileRow(d, |m|, Min(m), Sum(m) / (|m| as real), Max(m), Sum(m))
  }

  /** The rows for buckets d..10, skipping empty buckets, in decile order. */
  function RowsFrom(ranked: seq<real>, d: nat): seq<DecileRow>
    requires d >= 1
    decreases Buckets + 1 - d
  {
    if d > Buckets then []
    else
      var m := Members(ranked, d);
      (if |m| > 0 then [Aggregate(d, m)] else []) + RowsFrom(ranked, d + 1)
  }

  /** `deciles_q` on the filtered balances. */
  function DecileTable(base: seq<real>): seq<DecileRow>
  {
    RowsFrom(SortDescending(base), 1)
  }

  /*
   * The members of a bucket are its slice of the ranking.
   */

  function MinNat(a: nat, b: nat): nat
  {
    if a <= b then a else b
  }

  /** Bucket d's first i rows: the part of its slice that lies below i. */
  lemma {:induction false} MembersUpToSlice(ranked: seq<real>, d: nat, i: nat)
    requires 1 <= d <= Buckets && i <= |ranked|
    ensures TileStart(d, |ranked|) + TileSize(d, |ranked|) <= |ranked|
    ensures MembersUpTo(ranked, d, i)
         == ranked[MinNat(TileStart(d, |ranked|), i)..MinNat(TileStart(d, |ranked|) + TileSize(d, |ranked|), i)]
    decreases i
  {
    var n := |ranked|;
    var a, b := TileStart(d, n), TileStart(d, n) + TileSize(d, n);
    TileWithinRows(d, n);
    if i > 0 {
      MembersUpToSlice(ranked, d, i - 1);
      NtileInTile(i - 1, n, d);
      if a <= i - 1 < b {
        assert ranked[a..i] == ranked[a..i - 1] + [ranked[i - 1]];
      }
    }
  }

  /** GROUP BY decile = d collects exactly the d-th slice of the ranking. */
  lemma {:induction false} MembersAreSlice(ranked: seq<real>, d: nat)
    requires 1 <= d <= Buckets
    ensures TileStart(d, |ranked|) + TileSize(d, |ranked|) <= |ranked|
    ensures Members(ranked, d)
         == ranked[TileStart(d, |ranked|)..TileStart(d, |ranked|) + TileSize(d, |ranked|)]
  {
    MembersUpToSlice(ranked, d, |ranked|);
  }

  /*
   * Shape of the result.
   */

  /**
   * From bucket d on, one row per non-empty bucket: buckets d..min(n, 10),
   * in order, each with the size NTILE gives it.
   */
  lemma {:induction false} RowsFromShape(ranked: seq<real>, d: nat)
    requires 1 <= d <= Buckets + 1
    ensures |RowsFrom(ranked, d)| == if d <= MinNat(|ranked|, Buckets) then MinNat(|ranked|, Buckets) - d + 1 else 0
    ensures forall j :: 0 <= j < |RowsFrom(ranked, d)| ==>
      RowsFrom(ranked, d)[j].decile == d + j
      && RowsFrom(ranked, d)[j].accounts == TileSize(d + j, |ranked|)
    decreases Buckets + 1 - d
  {
    if d <= Buckets {
      var n := |ranked|;
      MembersAreSlice(ranked, d);
      TileSizes(d, n);
      RowsFromShape(ranked, d + 1);
      if d > n {
        assert d + 1 > MinNat(n, Buckets);
      }
    }
  }

  /** The decile table has one row per non-empty bucket: min(n, 10) rows. */
  lemma {:induction false} DecileCount(base: seq<real>)
    ensures |DecileTable(base)| == MinNat(|base|, Buckets)
  {
    RowsFromShape(SortDescending(base), 1);
  }

  /** Rows are numbered 1, 2, ... in order, each with the size of its NTILE bucket. */
  lemma {:induction false} DecileShape(base: seq<real>)
    ensures forall j :: 0 <= j < |DecileTable(base)| ==>
      && DecileTable(base)[j].decile == j + 1
      && DecileTable(base)[j].accounts == TileSize(j + 1, |base|)
  {
    RowsFromShape(SortDescending(base), 1);
  }

  /**
   * Row j holds n/10 + 1 accounts when j < n % 10 and n/10 otherwise;
   * fewer than ten accounts give one account per row.
   */
  lemma {:induction false} DecileSizes(base: seq<real>)
    ensures forall j :: 0 <= j < |DecileTable(base)| ==>
      DecileTable(base)[j].accounts == |base| / Buckets + (if j < |base| % Buckets then 1 else 0)
    ensures |base| < Buckets ==> forall j :: 0 <= j < |DecileTable(base)| ==> DecileTable(base)[j].accounts == 1
  {
    var rows := DecileTable(base);
    var n := |base|;
    DecileShape(base);
    DecileCount(base);
    forall j | 0 <= j < |rows|
      ensures rows[j].accounts == n / Buckets + (if j < n % Buckets then 1 else 0)
      ensures n < Buckets ==> rows[j].accounts == 1
    {
      TileSizes(j + 1, n);
    }
  }

  /*
   * Totals.
   */

  function AccountsSum(rows: seq<DecileRow>): nat
  {
    if |rows| == 0 then 0 else rows[0].accounts + AccountsSum(rows[1..])
  }

  function TotalsSum(rows: seq<DecileRow>): real
  {
    if |rows| == 0 then 0.0 else rows[0].totalBalance + TotalsSum(rows[1..])
  }

  /** Bucket d contributes its own row, if non-empty, before the later buckets' rows. */
  lemma {:induction false} RowsFromStep(ranked: seq<real>, d: nat)
    requires 1 <= d <= Buckets
    ensures TileStart(d, |ranked|) + TileSize(d, |ranked|) <= |ranked|
    ensures var m := ranked[TileStart(d, |ranked|)..TileStart(d, |ranked|) + TileSize(d, |ranked|)];
      && AccountsSum(RowsFrom(ranked, d)) == |m| + AccountsSum(RowsFrom(ranked, d + 1))
      && TotalsSum(RowsFrom(ranked, d)) == Sum(m) + TotalsSum(RowsFrom(ranked, d + 1))
  {
    MembersAreSlice(ranked, d);
    var m := Members(ranked, d);
    var rest := RowsFrom(ranked, d + 1);
    if |m| > 0 {
      var rows := [Aggregate(d, m)] + rest;
      assert RowsFrom(ranked, d) == rows;
      assert rows[1..] == rest;
    } else {
      assert RowsFrom(ranked, d) == rest;
      assert m == [];
    }
  }

  /** The rows for buckets d..10 count the ranking from bucket d's first row to the end. */
  lemma {:induction false} AccountsCover(ranked: seq<real>, d: nat)
    requires 1 <= d <= Buckets + 1
    ensures TileStart(d, |ranked|) <= |ranked|
    ensures AccountsSum(RowsFrom(ranked, d)) == |ranked| - TileStart(d, |ranked|)
    decreases Buckets + 1 - d
  {
    var n := |ranked|;
    TileEnd(n);
    if d <= Buckets {
      RowsFromStep(ranked, d);
      TileStartNext(d, n);
      AccountsCover(ranked, d + 1);
    }
  }

  /** The rows for buckets d..10 total the ranking from bucket d's first row to the end. */
  lemma {:induction false} TotalsCover(ranked: seq<real>, d: nat)
    requires 1 <= d <= Buckets + 1
    ensures TileStart(d, |ranked|) <= |ranked|
    ensures TotalsSum(RowsFrom(ranked, d)) == Sum(ranked[TileStart(d, |ranked|)..])
    decreases Buckets + 1 - d
  {
    var n := |ranked|;
    TileEnd(n);
    if d > Buckets {
      assert ranked[n..] == [];
    } else {
      var a := TileStart(d, n);
      var b := a + TileSize(d, n);
      TileWithinRows(d, n);
      assert TileStart(d + 1, n) == b by {
        TileStartNext(d, n);
      }
      assert TotalsSum(RowsFrom(ranked, d + 1)) == Sum(ranked[b..]) by {
        TotalsCover(ranked, d + 1);
      }
      assert TotalsSum(RowsFrom(ranked, d)) == Sum(ranked[a..b]) + TotalsSum(RowsFrom(ranked, d + 1)) by {
        RowsFromStep(ranked, d);
      }
      assert Sum(ranked[a..]) == Sum(ranked[a..b]) + Sum(ranked[b..]) by {
        assert ranked[a..] == ranked[a..b] + ranked[b..];
        SumConcat(ranked[a..b], ranked[b..]);
      }
    }
  }

  /** The deciles partition the accounts: counts add up to n, totals to the overall total. */
  lemma {:induction false} DecilesPartition(base: seq<real>)
    ensures AccountsSum(DecileTable(base)) == |base|
    ensures TotalsSum(DecileTable(base)) == Sum(base)
  {
    var ranked := SortDescending(base);
    AccountsCover(ranked, 1);
    TotalsCover(ranked, 1);
    assert ranked[0..] == ranked;
    SumPermutation(ranked, base);
  }

  /**
   * The first decile is the top 10% of the wealth query: it holds
   * CEIL(n * 0.10) accounts and their total is top_10_balance.
   */
  lemma {:induction false} FirstDecileIsTop(base: seq<real>)
    requires |base| > 0
    ensures |DecileTable(base)| > 0
    ensures DecileTable(base)[0].accounts == TopCount(|base|)
    ensures DecileTable(base)[0].totalBalance == Wealth(base).value.top10Balance
  {
    var ranked := SortDescending(base);
    var k := TopCount(|base|);
    assert TileSize(1, |base|) == k && TileStart(1, |base|) == 0 by {
      TileSizes(1, |base|);
    }
    assert Members(ranked, 1) == ranked[..k] by {
      MembersAreSlice(ranked, 1);
    }
    assert |DecileTable(base)| > 0 && DecileTable(base)[0] == Aggregate(1, Members(ranked, 1)) by {
      RowsFromShape(ranked, 1);
    }
    assert Wealth(base).value.top10Balance == Sum(ranked[..k]) by {
      TopBalanceIsLargest(base);
    }
  }

  /*
   * Row contents.
   */

  /** The j-th row from bucket d on aggregates bucket d + j, which is non-empty. */
  lemma {:induction false} RowsFromAt(ranked: seq<real>, d: nat, j: nat)
    requires 1 <= d <= Buckets + 1 && j < |RowsFrom(ranked, d)|
    ensures d + j <= Buckets && |Members(ranked, d + j)| > 0
    ensures RowsFrom(ranked, d)[j] == Aggregate(d + j, Members(ranked, d + j))
    decreases Buckets + 1 - d
  {
    var m := Members(ranked, d);
    if |m| > 0 {
      if j > 0 {
        assert RowsFrom(ranked, d)[j] == RowsFrom(ranked, d + 1)[j - 1];
        RowsFromAt(ranked, d + 1, j - 1);
      }
    } else {
      MembersAreSlice(ranked, d);
      TileSizes(d, |ranked|);
      RowsFromShape(ranked, d);
      assert false;
    }
  }

  /** AVG * COUNT = SUM within a group. */
  lemma {:induction false} AggregateMean(d: nat, m: seq<real>)
    requires |m| > 0
    ensures Aggregate(d, m).accounts as real * Aggregate(d, m).avgBalance == Aggregate(d, m).totalBalance
  {
    Quotient(Sum(m), |m| as real, Sum(m) / (|m| as real));
  }

  /** MIN <= AVG <= MAX within a group. */
  lemma {:induction false} AggregateBounds(d: nat, m: seq<real>)
    requires |m| > 0
    ensures Aggregate(d, m).minBalance <= Aggregate(d, m).avgBalance <= Aggregate(d, m).maxBalance
  {
    AggregateMean(d, m);
    AverageWithin(m, Aggregate(d, m).avgBalance);
  }

  /** A value that times the group's size gives its SUM lies between its MIN and its MAX. */
  lemma {:induction false} AverageWithin(m: seq<real>, a: real)
    requires |m| > 0 && |m| as real * a == Sum(m)
    ensures Min(m) <= a <= Max(m)
  {
    MinIsLeast(m);
    MaxIsGreatest(m);
    SumAtLeast(m, Min(m));
    SumAtMost(m, Max(m));
    AverageBetween(|m| as real, Min(m), Sum(m), Max(m), a);
  }

  /** c * lo <= t <= c * hi with c * a = t and c > 0 gives lo <= a <= hi. */
  lemma {:induction false} AverageBetween(c: real, lo: real, t: real, hi: real, a: real)
    requires c > 0.0 && c * lo <= t <= c * hi && c * a == t
    ensures lo <= a <= hi
  {
    MulLeftCancel(c, lo, a);
    MulLeftCancel(c, a, hi);
  }

  /** Rows built from any ranking report MIN <= AVG <= MAX. */
  lemma {:induction false} RowsAverages(ranked: seq<real>, j: nat)
    requires j < |RowsFrom(ranked, 1)|
    ensures RowsFrom(ranked, 1)[j].minBalance <= RowsFrom(ranked, 1)[j].avgBalance <= RowsFrom(ranked, 1)[j].maxBalance
  {
    RowsFromAt(ranked, 1, j);
    AggregateBounds(j + 1, Members(ranked, j + 1));
  }

  /** Every decile row reports MIN <= AVG <= MAX. */
  lemma {:induction false} DecileAverages(base: seq<real>)
    ensures forall j :: 0 <= j < |DecileTable(base)| ==>
      && DecileTable(base)[j].minBalance <= DecileTable(base)[j].avgBalance <= DecileTable(base)[j].maxBalance
  {
    forall j | 0 <= j < |DecileTable(base)|
      ensures DecileTable(base)[j].minBalance <= DecileTable(base)[j].avgBalance <= DecileTable(base)[j].maxBalance
    {
      RowsAverages(SortDescending(base), j);
    }
  }

  /*
   * The table in closed form: row j aggregates the (j+1)-th slice of the ranking.
   */

  /** Bucket d as its slice of the ranking. */
  function Slice(ranked: seq<real>, d: nat): (r: seq<real>)
    requires 1 <= d <= Buckets
    ensures |r| == TileSize(d, |ranked|)
  {
    TileWithinRows(d, |ranked|);
    ranked[TileStart(d, |ranked|)..TileStart(d, |ranked|) + TileSize(d, |ranked|)]
  }

  /** The aggregates of bucket d, read off its slice. */
  function SliceRow(ranked: seq<real>, d: nat): DecileRow
    requires 1 <= d <= MinNat(|ranked|, Buckets)
  {
    TileSizes(d, |ranked|);
    Aggregate(d, Slice(ranked, d))
  }

  /** One row per bucket 1..min(n, 10), in order. */
  function SliceRows(ranked: seq<real>): (r: seq<DecileRow>)
    ensures |r| == MinNat(|ranked|, Buckets)
    ensures forall j :: 0 <= j < |r| ==> r[j] == SliceRow(ranked, j + 1)
  {
    seq(MinNat(|ranked|, Buckets), j requires 0 <= j < MinNat(|ranked|, Buckets) => SliceRow(ranked, j + 1))
  }

  /** The j-th row GROUP BY produces is the closed-form row of bucket j + 1. */
  lemma {:induction false} RowIsSliceRow(ranked: seq<real>, j: nat)
    requires j < |RowsFrom(ranked, 1)|
    ensures j + 1 <= MinNat(|ranked|, Buckets)
    ensures RowsFrom(ranked, 1)[j] == SliceRow(ranked, j + 1)
  {
    RowBucket(ranked, j);
    RowsFromAt(ranked, 1, j);
    GroupRowIsSliceRow(ranked, j + 1);
  }

  /** The table has a row j only for a bucket j + 1 that exists among the n rows. */
  lemma {:induction false} RowBucket(ranked: seq<real>, j: nat)
    requires j < |RowsFrom(ranked, 1)|
    ensures j + 1 <= MinNat(|ranked|, Buckets)
  {
    RowsFromShape(ranked, 1);
  }

  /** Aggregating the GROUP BY members of bucket d gives the closed-form row of bucket d. */
  lemma {:induction false} GroupRowIsSliceRow(ranked: seq<real>, d: nat)
    requires 1 <= d <= MinNat(|ranked|, Buckets)
    ensures |Members(ranked, d)| > 0
    ensures Aggregate(d, Members(ranked, d)) == SliceRow(ranked, d)
  {
    MembersAreSlice(ranked, d);
    TileSizes(d, |ranked|);
  }

  /**
   * The decile query computes the closed form: row j aggregates the
   * (j+1)-th NTILE slice of the balances ranked largest first.
   */
  lemma {:induction false} DecileTableSlices(base: seq<real>)
    ensures DecileTable(base) == SliceRows(SortDescending(base))
  {
    var ranked := SortDescending(base);
    DecileCount(base);
    forall j | 0 <= j < |DecileTable(base)|
      ensures DecileTable(base)[j] == SliceRows(ranked)[j]
    {
      RowIsSliceRow(ranked, j);
    }
  }

  /** In a descending ranking, the MIN of an earlier slice is at least the MAX of a later one. */
  lemma {:induction false} SlicesSeparated(ranked: seq<real>, a: nat, b: nat, c: nat, e: nat)
    requires Descending(ranked) && a < b <= c < e <= |ranked|
    ensures Min(ranked[a..b]) >= Max(ranked[c..e])
  {
    MinIsLeast(ranked[a..b]);
    MaxIsGreatest(ranked[c..e]);
    var p :| 0 <= p < b - a && ranked[a..b][p] == Min(ranked[a..b]);
    var q :| 0 <= q < e - c && ranked[c..e][q] == Max(ranked[c..e]);
    assert ranked[a + p] >= ranked[c + q];
  }

  /** In a descending ranking, the MIN of a bucket is at least the MAX of any later non-empty bucket. */
  lemma {:induction false} BucketsSeparated(ranked: seq<real>, d: nat, e: nat)
    requires Descending(ranked) && 1 <= d < e <= MinNat(|ranked|, Buckets)
    ensures |Slice(ranked, d)| > 0 && |Slice(ranked, e)| > 0
    ensures Min(Slice(ranked, d)) >= Max(Slice(ranked, e))
  {
    var n := |ranked|;
    var a, c := TileStart(d, n), TileStart(e, n);
    var b, f := a + TileSize(d, n), c + TileSize(e, n);
    assert 0 < TileSize(d, n) && 0 < TileSize(e, n) by {
      TileSizes(d, n);
      TileSizes(e, n);
    }
    assert b <= c && f <= n by {
      TileStartNext(d, n);
      TileStartMonotone(d + 1, e, n);
      TileWithinRows(e, n);
    }
    SlicesSeparated(ranked, a, b, c, f);
  }

  /** Closed-form rows of a descending ranking come richest first. */
  lemma {:induction false} SliceRowsOrdered(ranked: seq<real>, i: nat, j: nat)
    requires Descending(ranked) && i < j < MinNat(|ranked|, Buckets)
    ensures SliceRow(ranked, i + 1).minBalance >= SliceRow(ranked, j + 1).maxBalance
  {
    BucketsSeparated(ranked, i + 1, j + 1);
  }

  /** Richer deciles come first: the MIN of decile i is at least the MAX of any later decile. */
  lemma {:induction false} DecileOrder(base: seq<real>, i: nat, j: nat)
    requires i < j < MinNat(|base|, Buckets)
    ensures |DecileTable(base)| == MinNat(|base|, Buckets)
    ensures DecileTable(base)[i].minBalance >= DecileTable(base)[j].maxBalance
  {
    DecileCount(base);
    DecileTableSlices(base);
    SliceRowsOrdered(SortDescending(base), i, j);
  }
}
