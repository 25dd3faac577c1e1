/**
 * The top-10% wealth query `wealth_q` (app.py:187-213). The filtered
 * balances are ranked largest first; the first CEIL(n * 0.10) ranks are
 * the top decile; the query returns the total, the top-decile total and
 * their ratio, which is NULL when the total is zero. An empty filter
 * result has no group, so the query returns no row.
 */
module TopShare {
  import opened Wrappers
  import opened Balances
  import opened Ranking

  /**
   * CEIL(n * 0.10). DuckDB multiplies an integer by the literal 0.10 as an
   * exact DECIMAL, so this is the exact ceiling of n / 10.
   */
  function TopCount(n: nat): nat
  {
    (n + 9) / 10
  }

  /**
   * TopCount(n) is the least whole number of accounts that is at least
   * 10% of n; with at least one account it is between 1 and n.
   */
  lemma {:induction false} TopCountIsCeiling(n: nat)
    ensures TopCount(n) as real >= n as real * 0.10
    ensures TopCount(n) == 0 || (TopCount(n) - 1) as real < n as real * 0.10
    ensures n >= 1 ==> 1 <= TopCount(n) <= n
  {
    var k := TopCount(n);
    assert 10 * k >= n && 10 * (k - 1) < n;
  }

  /** A row of the `ranked` CTE. */
  datatype RankedRow = RankedRow(balance: real, rn: nat, n: nat, totalBalance: real)

  /**
   * `ranked`: ROW_NUMBER() OVER (ORDER BY balance DESC), COUNT(*) OVER ()
   * and SUM(balance) OVER () attached to every filtered balance.
   */
  function Ranked(base: seq<real>): (r: seq<RankedRow>)
    ensures |r| == |base|
    ensures forall i :: 0 <= i < |r| ==>
      r[i] == RankedRow(SortDescending(base)[i], i + 1, |base|, Sum(base))
  {
    var s := SortDescending(base);
    seq(|s|, i requires 0 <= i < |s| => RankedRow(s[i], i + 1, |base|, Sum(base)))
  }

  /** CASE WHEN rn <= CEIL(n * 0.10) THEN balance ELSE 0 END. */
  function CaseTerm(row: RankedRow): real
  {
    if row.rn <= TopCount(row.n) then row.balance else 0.0
  }

  /** The CASE column over the rows of the group. */
  function CaseTerms(rows: seq<RankedRow>): (r: seq<real>)
    ensures |r| == |rows|
    ensures forall i :: 0 <= i < |rows| ==> r[i] == CaseTerm(rows[i])
  {
    seq(|rows|, i requires 0 <= i < |rows| => CaseTerm(rows[i]))
  }

  /** The single row the query returns. */
  datatype WealthRow = WealthRow(totalBalance: real, top10Balance: real, top10Share: Option<real>)

  /**
   * `wealth_q` on the filtered balances. GROUP BY total_balance forms one
   * group when there is at least one row and none otherwise.
   */
  function Wealth(base: seq<real>): (r: Option<WealthRow>)
    ensures r.None? <==> |base| == 0
    ensures r.Some? ==> r.value.totalBalance == Sum(base)
    ensures r.Some? ==> (r.value.top10Share.None? <==> Sum(base) == 0.0)
  {
    var rows := Ranked(base);
    if |rows| == 0 then None
    else
      var total := rows[0].totalBalance;
      var top := Sum(CaseTerms(rows));
      Some(WealthRow(total, top, if total == 0.0 then None else Some(top / total)))
  }

  /** The CASE sum over the first i ranked rows is the sum of the first min(i, k) balances. */
  lemma {:induction false} CaseSumPrefix(base: seq<real>, i: nat)
    requires i <= |base|
    ensures Sum(CaseTerms(Ranked(base))[..i])
         == Sum(SortDescending(base)[..if i <= TopCount(|base|) then i else TopCount(|base|)])
    decreases i
  {
    var terms := CaseTerms(Ranked(base));
    var s := SortDescending(base);
    if i > 0 {
      CaseSumPrefix(base, i - 1);
      PrefixSumStep(terms, i - 1);
      CaseTermAt(base, i - 1);
      if i <= TopCount(|base|) {
        PrefixSumStep(s, i - 1);
      }
    }
  }

  /** The CASE column keeps the balance of a top-decile rank and zeroes the others. */
  lemma {:induction false} CaseTermAt(base: seq<real>, i: nat)
    requires i < |base|
    ensures CaseTerms(Ranked(base))[i] == if i + 1 <= TopCount(|base|) then SortDescending(base)[i] else 0.0
  {
  }

  /** top_10_balance is the sum of the CEIL(n/10) largest balances. */
  lemma {:induction false} TopBalanceIsLargest(base: seq<real>)
    requires |base| > 0
    ensures TopCount(|base|) <= |base|
    ensures Wealth(base).value.top10Balance == Sum(SortDescending(base)[..TopCount(|base|)])
  {
    CaseSumPrefix(base, |base|);
    assert CaseTerms(Ranked(base))[..|base|] == CaseTerms(Ranked(base));
  }

  /** In any ranking, the k largest balances average at least the overall average. */
  lemma {:induction false} RankingProportional(s: seq<real>, base: seq<real>, k: nat)
    requires Descending(s) && multiset(s) == multiset(base) && k <= |s|
    ensures |base| as real * Sum(s[..k]) >= k as real * Sum(base)
  {
    assert |s| == |multiset(s)| == |multiset(base)| == |base|;
    PrefixAverageDescending(s, k);
    SumPermutation(s, base);
  }

  lemma {:induction false} LargestProportional(base: seq<real>, k: nat)
    requires k <= |base|
    ensures |base| as real * Sum(SortDescending(base)[..k]) >= k as real * Sum(base)
  {
    RankingProportional(SortDescending(base), base, k);
  }

  /** With non-negative balances the k largest hold between nothing and the total. */
  lemma {:induction false} LargestBetween(base: seq<real>, k: nat)
    requires NonNegative(base) && k <= |base|
    ensures 0.0 <= Sum(SortDescending(base)[..k]) <= Sum(base)
  {
    var s := SortDescending(base);
    SumPermutation(s, base);
    SortedNonNegative(base);
    SumSplit(s, k);
    SumNonNegative(s[..k]);
    SumNonNegative(s[k..]);
  }

  /** With a positive total, the k >= n/10 largest balances hold at least a tenth of it. */
  lemma {:induction false} LargestAtLeastTenth(base: seq<real>, k: nat)
    requires k <= |base| && 10 * k >= |base| && Sum(base) > 0.0
    ensures Sum(SortDescending(base)[..k]) >= 0.10 * Sum(base)
  {
    SumPermutation(SortDescending(base), base);
    DescendingPrefixTenth(SortDescending(base), k);
  }

  /** The first k >= n/10 of n descending balances with a positive total hold a tenth of it. */
  lemma {:induction false} DescendingPrefixTenth(s: seq<real>, k: nat)
    requires Descending(s) && k <= |s| && 10 * k >= |s| && Sum(s) > 0.0
    ensures Sum(s[..k]) >= 0.10 * Sum(s)
  {
    PrefixAverageDescending(s, k);
    assert k as real >= |s| as real * 0.10;
    AtLeastTenth(|s| as real, k as real, Sum(s[..k]), Sum(s));
  }

  /**
   * With non-negative balances and at least a tenth of the accounts, the
   * k largest balances hold between a tenth of the total and all of it.
   */
  lemma {:induction false} LargestShare(base: seq<real>, k: nat)
    requires NonNegative(base) && 0 < k <= |base| && 10 * k >= |base|
    requires Sum(base) != 0.0
    ensures 0.10 <= Sum(SortDescending(base)[..k]) / Sum(base) <= 1.0
  {
    var top := Sum(SortDescending(base)[..k]);
    var total := Sum(base);
    assert 0.0 < total && top <= total by {
      LargestBetween(base, k);
    }
    assert 0.10 * total <= top by {
      LargestAtLeastTenth(base, k);
    }
    ShareWithin(top, total);
  }

  /** A part between a tenth of a positive total and all of it is a share in [0.1, 1]. */
  lemma {:induction false} ShareWithin(top: real, total: real)
    requires total > 0.0 && 0.10 * total <= top <= total
    ensures 0.10 <= top / total <= 1.0
  {
    Quotient(top, total, top / total);
    RatioBounds(top, total, top / total);
  }

  /**
   * With non-negative balances the top decile holds between nothing and
   * everything: 0 <= top <= total, and the share lies in [0.1, 1].
   */
  lemma {:induction false} TopBounds(base: seq<real>)
    requires |base| > 0 && NonNegative(base)
    ensures 0.0 <= Wealth(base).value.top10Balance <= Wealth(base).value.totalBalance
    ensures Wealth(base).value.top10Share.Some? ==>
      0.10 <= Wealth(base).value.top10Share.value <= 1.0
  {
    var k := TopCount(|base|);
    TopCountIsCeiling(|base|);
    TopBalanceIsLargest(base);
    LargestBetween(base, k);
    if Sum(base) != 0.0 {
      LargestShare(base, k);
    }
  }

  lemma {:induction false} SortedNonNegative(base: seq<real>)
    requires NonNegative(base)
    ensures NonNegative(SortDescending(base))
  {
    var s := SortDescending(base);
    forall i | 0 <= i < |s|
      ensures s[i] >= 0.0
    {
      assert s[i] in multiset(base);
    }
  }

  /** From n * top >= k * total and k >= n / 10: top >= total / 10. */
  lemma {:induction false} AtLeastTenth(n: real, k: real, top: real, total: real)
    requires n > 0.0 && k >= n * 0.10 && total > 0.0
    requires n * top >= k * total
    ensures top >= 0.10 * total
  {
    MulLeftMono(total, n * 0.10, k);
    assert n * top >= n * (0.10 * total);
    MulLeftCancel(n, 0.10 * total, top);
  }

  /** A ratio of a part lying between a tenth and all of a positive total. */
  lemma {:induction false} RatioBounds(top: real, total: real, share: real)
    requires total > 0.0 && 0.10 * total <= top <= total
    requires total * share == top
    ensures 0.10 <= share <= 1.0
  {
    assert 0.10 * total <= total * share;
    assert total * share <= total;
  }
}
