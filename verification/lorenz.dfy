/**
 * The Lorenz query `lorenz_q` (app.py:280-311) and the check that decides
 * whether a curve can be drawn (app.py:315).
 *
 * `base` keeps the filtered balances that are not NULL and not negative;
 * `ordered` numbers them smallest first; `cum` adds the running sum; the
 * result gives, per row, the population share rn / n and the wealth share
 * cum_balance / total (NULL when the total is zero). `Points` is the same
 * table in closed form, and `LorenzIsPoints` shows the two agree.
 */
module Lorenz {
  import opened Wrappers
  import opened Balances
  import opened Ranking

  /**
   * `base`: the balance column after the dashboard filter, NULL as None,
   * narrowed to `balance IS NOT NULL AND balance >= 0`, in input order.
   */
  function Eligible(raw: seq<Option<real>>): (r: seq<real>)
    ensures NonNegative(r)
    ensures |r| <= |raw|
    decreases |raw|
  {
    if |raw| == 0 then []
    else
      var rest := Eligible(raw[..|raw| - 1]);
      match raw[|raw| - 1]
      case Some(b) => if b >= 0.0 then rest + [b] else rest
      case None => rest
  }

  /** A row of the `ordered` CTE. */
  datatype OrderedRow = OrderedRow(balance: real, rn: nat, n: nat, total: real)

  /**
   * `ordered`: ROW_NUMBER() OVER (ORDER BY balance ASC), COUNT(*) OVER ()
   * and SUM(balance) OVER () attached to every eligible balance.
   */
  function Ordered(base: seq<real>): (r: seq<OrderedRow>)
    ensures |r| == |base|
  {
    var s := SortAscending(base);
    seq(|s|, i requires 0 <= i < |s| => OrderedRow(s[i], i + 1, |base|, Sum(base)))
  }

  /**
   * SUM(balance) OVER (ORDER BY rn) at row number rn. The default window
   * frame runs from the first row to the current row and its peers; row
   * numbers have no peers, so this adds the balances numbered at most rn.
   */
  function RunningSum(rows: seq<OrderedRow>, rn: nat): real
    decreases |rows|
  {
    if |rows| == 0 then 0.0
    else
      var last := rows[|rows| - 1];
      RunningSum(rows[..|rows| - 1], rn) + (if last.rn <= rn then last.balance else 0.0)
  }

  /** A row of the query result. */
  datatype LorenzRow = LorenzRow(rn: nat, n: nat, cumPopShare: Option<real>, cumWealthShare: Option<real>)

  /** CASE WHEN n = 0 THEN NULL ELSE rn / n END. */
  function PopShare(rn: nat, n: nat): Option<real>
  {
    if n == 0 then None else Some(rn as real / n as real)
  }

  /** CASE WHEN total = 0 THEN NULL ELSE cum_balance / total END. */
  function WealthShare(cum: real, total: real): Option<real>
  {
    if total == 0.0 then None else Some(cum / total)
  }

  /** `lorenz_q` on the filtered balance column, ORDER BY rn. */
  function LorenzQuery(raw: seq<Option<real>>): (r: seq<LorenzRow>)
    ensures |r| == |Eligible(raw)|
  {
    var rows := Ordered(Eligible(raw));
    seq(|rows|, i requires 0 <= i < |rows| =>
      LorenzRow(rows[i].rn, rows[i].n, PopShare(rows[i].rn, rows[i].n),
                WealthShare(RunningSum(rows, rows[i].rn), rows[i].total)))
  }

  /**
   * The check in front of the chart: no rows, or no population share.
   * When it holds the dashboard shows a notice instead of a curve.
   */
  predicate NoCurve(rows: seq<LorenzRow>)
  {
    |rows| == 0 || forall i :: 0 <= i < |rows| ==> rows[i].cumPopShare.None?
  }

  /**
   * The Lorenz point of each of the ordered balances s: the i-th smallest
   * (1-based) sits at (i / n, C_i / total), C_i the sum of the i smallest.
   */
  function Points(s: seq<real>): (r: seq<LorenzRow>)
    ensures |r| == |s|
  {
    seq(|s|, i requires 0 <= i < |s| =>
      LorenzRow(i + 1, |s|, PopShare(i + 1, |s|), WealthShare(Sum(s[..i + 1]), Sum(s))))
  }

  /** The cumulative wealth shares C_i / total of the ordered balances. */
  function Shares(s: seq<real>): (r: seq<real>)
    requires Sum(s) != 0.0
    ensures |r| == |s|
  {
    seq(|s|, i requires 0 <= i < |s| => Sum(s[..i + 1]) / Sum(s))
  }

  /** The balances the query draws, smallest first. */
  function Drawn(raw: seq<Option<real>>): (s: seq<real>)
    ensures |s| == |Eligible(raw)|
    ensures Ascending(s) && NonNegative(s)
    ensures multiset(s) == multiset(Eligible(raw))
    ensures Sum(s) == Sum(Eligible(raw))
  {
    var base := Eligible(raw);
    var s := SortAscending(base);
    SumPermutation(s, base);
    forall i | 0 <= i < |s|
      ensures s[i] >= 0.0
    {
      assert s[i] in multiset(base);
    }
    s
  }

  /*
   * The filter.
   */

  /**
   * `base` keeps every non-negative balance as often as the column holds
   * it and drops NULLs and negative balances.
   */
  lemma {:induction false} EligibleCount(raw: seq<Option<real>>, x: real)
    ensures multiset(Eligible(raw))[x] == if x >= 0.0 then multiset(raw)[Some(x)] else 0
    decreases |raw|
  {
    if |raw| > 0 {
      var init, last := raw[..|raw| - 1], raw[|raw| - 1];
      EligibleCount(init, x);
      assert raw == init + [last];
      assert multiset(raw) == multiset(init) + multiset{last};
      match last
      case Some(b) =>
        if b >= 0.0 {
          assert multiset(Eligible(raw)) == multiset(Eligible(init)) + multiset{b};
        }
      case None =>
    }
  }

  /** Nothing is left after the filter exactly when every balance is NULL or negative. */
  lemma {:induction false} EligibleEmpty(raw: seq<Option<real>>)
    ensures |Eligible(raw)| == 0 <==> forall i :: 0 <= i < |raw| ==> raw[i].None? || raw[i].value < 0.0
  {
    var base := Eligible(raw);
    if |base| > 0 {
      EligibleCount(raw, base[0]);
      assert base[0] in multiset(base);
      assert Some(base[0]) in multiset(raw);
      var i :| 0 <= i < |raw| && raw[i] == Some(base[0]);
      assert base[0] >= 0.0;
    } else {
      forall i | 0 <= i < |raw|
        ensures raw[i].None? || raw[i].value < 0.0
      {
        if raw[i].Some? && raw[i].value >= 0.0 {
          EligibleCount(raw, raw[i].value);
          assert raw[i] in multiset(raw);
        }
      }
    }
  }

  /** A column holding the same non-negative balance in every row passes the filter whole. */
  lemma {:induction false} EligibleAll(raw: seq<Option<real>>, b: real)
    requires b >= 0.0 && forall i :: 0 <= i < |raw| ==> raw[i] == Some(b)
    ensures |Eligible(raw)| == |raw|
    ensures forall k :: 0 <= k < |raw| ==> Eligible(raw)[k] == b
    decreases |raw|
  {
    if |raw| > 0 {
      var init := raw[..|raw| - 1];
      EligibleAll(init, b);
      assert raw[|raw| - 1] == Some(b);
      assert Eligible(raw) == Eligible(init) + [b];
    }
  }

  /** ... and is drawn as n copies of that balance. */
  lemma {:induction false} DrawnAll(raw: seq<Option<real>>, b: real)
    requires b >= 0.0 && forall i :: 0 <= i < |raw| ==> raw[i] == Some(b)
    ensures |Drawn(raw)| == |raw|
    ensures forall k :: 0 <= k < |raw| ==> Drawn(raw)[k] == b
  {
    var base, s := Eligible(raw), Drawn(raw);
    EligibleAll(raw, b);
    forall k | 0 <= k < |raw|
      ensures s[k] == b
    {
      assert s[k] in multiset(base);
    }
  }

  /*
   * The running sum and the closed form.
   */

  /** Rows numbered 1, 2, ... in order, holding the balances of s. */
  predicate NumberedFrom(rows: seq<OrderedRow>, s: seq<real>)
  {
    |rows| == |s| && forall i :: 0 <= i < |rows| ==> rows[i].rn == i + 1 && rows[i].balance == s[i]
  }

  /** Over the first m numbered rows, the running sum at rn adds the min(m, rn) first balances. */
  lemma {:induction false} RunningSumPrefix(rows: seq<OrderedRow>, s: seq<real>, m: nat, rn: nat)
    requires NumberedFrom(rows, s) && m <= |rows|
    ensures RunningSum(rows[..m], rn) == Sum(s[..if m <= rn then m else rn])
    decreases m
  {
    if m > 0 {
      assert rows[..m][..m - 1] == rows[..m - 1];
      assert rows[..m][m - 1] == rows[m - 1];
      RunningSumPrefix(rows, s, m - 1, rn);
      if m <= rn {
        PrefixSumStep(s, m - 1);
      }
    } else {
      assert s[..0] == [];
    }
  }

  /** `ordered` numbers the ascending balances 1, 2, ..., n. */
  lemma {:induction false} OrderedNumbered(base: seq<real>)
    ensures NumberedFrom(Ordered(base), SortAscending(base))
  {
    var rows := Ordered(base);
    forall i | 0 <= i < |rows|
      ensures rows[i].rn == i + 1 && rows[i].balance == SortAscending(base)[i]
    {
      OrderedRowAt(base, i);
    }
  }

  /** Row i of `ordered` holds the (i+1)-th smallest balance and row number i + 1. */
  lemma {:induction false} OrderedRowAt(base: seq<real>, i: nat)
    requires i < |base|
    ensures Ordered(base)[i].rn == i + 1 && Ordered(base)[i].balance == SortAscending(base)[i]
  {
  }

  /** The running sum at row rn of the whole ordered table is C_rn. */
  lemma {:induction false} RunningSumIsPrefix(base: seq<real>, rn: nat)
    requires rn <= |base|
    ensures RunningSum(Ordered(base), rn) == Sum(SortAscending(base)[..rn])
  {
    var rows := Ordered(base);
    OrderedNumbered(base);
    RunningSumPrefix(rows, SortAscending(base), |rows|, rn);
    assert rows[..|rows|] == rows;
  }

  /** Row i of the query, read off the closed form. */
  lemma {:induction false} QueryRowAt(raw: seq<Option<real>>, i: nat)
    requires i < |Eligible(raw)|
    ensures LorenzQuery(raw)[i] == Points(Drawn(raw))[i]
  {
    var base := Eligible(raw);
    var rows := Ordered(base);
    RunningSumIsPrefix(base, i + 1);
    assert rows[i] == OrderedRow(Drawn(raw)[i], i + 1, |base|, Sum(base));
  }

  /**
   * The three CTEs compute the Lorenz points: row i (0-based) is
   * (rn, n, (i+1)/n, C_{i+1}/total) over the eligible balances sorted
   * ascending.
   */
  lemma {:induction false} LorenzIsPoints(raw: seq<Option<real>>)
    ensures LorenzQuery(raw) == Points(Drawn(raw))
  {
    forall i | 0 <= i < |Eligible(raw)|
      ensures LorenzQuery(raw)[i] == Points(Drawn(raw))[i]
    {
      QueryRowAt(raw, i);
    }
  }

  /*
   * Properties of the curve.
   */

  /** rn numbers the rows 1..n in order, n is the row count, and the population share is rn / n. */
  lemma {:induction false} LorenzShape(raw: seq<Option<real>>, i: nat)
    requires i < |Eligible(raw)|
    ensures var r := LorenzQuery(raw);
      r[i].rn == i + 1 && r[i].n == |r| && r[i].cumPopShare == Some((i + 1) as real / |r| as real)
  {
    QueryRowAt(raw, i);
  }

  /** The population share rises strictly, from above 0 up to at most 1. */
  lemma {:induction false} PopShareIncreasing(raw: seq<Option<real>>, i: nat, j: nat)
    requires i < j < |Eligible(raw)|
    ensures var r := LorenzQuery(raw);
      && r[i].cumPopShare.Some? && r[j].cumPopShare.Some?
      && 0.0 < r[i].cumPopShare.value < r[j].cumPopShare.value <= 1.0
  {
    QueryRowAt(raw, i);
    QueryRowAt(raw, j);
    PointsPopIncreasing(Drawn(raw), i, j);
  }

  /** The wealth share is NULL exactly when the eligible balances total zero. */
  lemma {:induction false} WealthShareNull(raw: seq<Option<real>>, i: nat)
    requires i < |Eligible(raw)|
    ensures LorenzQuery(raw)[i].cumWealthShare.None? <==> Sum(Eligible(raw)) == 0.0
  {
    QueryRowAt(raw, i);
  }

  /** The eligible balances total zero exactly when every one of them is zero. */
  lemma {:induction false} TotalZero(raw: seq<Option<real>>)
    ensures Sum(Eligible(raw)) == 0.0 <==> forall k :: 0 <= k < |Eligible(raw)| ==> Eligible(raw)[k] == 0.0
  {
    var base := Eligible(raw);
    if forall k :: 0 <= k < |base| ==> base[k] == 0.0 {
      SumConstant(base, 0.0);
    } else {
      var k :| 0 <= k < |base| && base[k] != 0.0;
      SumAtLeastElement(base, k);
    }
  }

  /** The wealth share never falls from one row to a later one. */
  lemma {:induction false} WealthShareRising(raw: seq<Option<real>>, i: nat, j: nat)
    requires i < j < |Eligible(raw)| && Sum(Eligible(raw)) != 0.0
    ensures var r := LorenzQuery(raw);
      && r[i].cumWealthShare.Some? && r[j].cumWealthShare.Some?
      && r[i].cumWealthShare.value <= r[j].cumWealthShare.value
  {
    QueryRowAt(raw, i);
    QueryRowAt(raw, j);
    PointsWealthRising(Drawn(raw), i, j);
  }

  /** The curve lies between the x-axis and the diagonal: 0 <= y <= x. */
  lemma {:induction false} WealthBelowPopulation(raw: seq<Option<real>>, i: nat)
    requires i < |Eligible(raw)| && Sum(Eligible(raw)) != 0.0
    ensures var r := LorenzQuery(raw);
      && r[i].cumPopShare.Some? && r[i].cumWealthShare.Some?
      && 0.0 <= r[i].cumWealthShare.value <= r[i].cumPopShare.value
  {
    QueryRowAt(raw, i);
    PointsBelowDiagonal(Drawn(raw), i);
  }

  /** With a positive total the last point is (1, 1). */
  lemma {:induction false} LastPoint(raw: seq<Option<real>>)
    requires |Eligible(raw)| > 0 && Sum(Eligible(raw)) != 0.0
    ensures var r := LorenzQuery(raw);
      r[|r| - 1].cumPopShare == Some(1.0) && r[|r| - 1].cumWealthShare == Some(1.0)
  {
    QueryRowAt(raw, |Eligible(raw)| - 1);
    PointsLast(Drawn(raw));
  }

  /**
   * The dashboard shows the notice instead of a curve exactly when the
   * filter leaves no balance that is non-NULL and non-negative.
   */
  lemma {:induction false} GuardIffEmpty(raw: seq<Option<real>>)
    ensures NoCurve(LorenzQuery(raw)) <==> |Eligible(raw)| == 0
    ensures NoCurve(LorenzQuery(raw)) <==> forall i :: 0 <= i < |raw| ==> raw[i].None? || raw[i].value < 0.0
  {
    EligibleEmpty(raw);
    if |Eligible(raw)| > 0 {
      LorenzShape(raw, 0);
    }
  }

  /*
   * The same properties of the closed form.
   */

  lemma {:induction false} PointsPopIncreasing(s: seq<real>, i: nat, j: nat)
    requires i < j < |s|
    ensures var r := Points(s);
      && r[i].cumPopShare.Some? && r[j].cumPopShare.Some?
      && 0.0 < r[i].cumPopShare.value < r[j].cumPopShare.value <= 1.0
  {
    PopOrder((i + 1) as real, (j + 1) as real, |s| as real);
  }

  lemma {:induction false} PopOrder(a: real, b: real, n: real)
    requires 0.0 < a < b <= n
    ensures 0.0 < a / n < b / n <= 1.0
  {
    DivStrict(0.0, a, n);
    DivStrict(a, b, n);
    DivMono(b, n, n);
  }

  lemma {:induction false} PointsWealthRising(s: seq<real>, i: nat, j: nat)
    requires NonNegative(s) && i < j < |s| && Sum(s) != 0.0
    ensures var r := Points(s);
      && r[i].cumWealthShare.Some? && r[j].cumWealthShare.Some?
      && r[i].cumWealthShare.value <= r[j].cumWealthShare.value
  {
    PrefixGrows(s, i + 1, j + 1);
    PrefixGrows(s, |s|, |s|);
    assert s[..|s|] == s;
    DivMono(Sum(s[..i + 1]), Sum(s[..j + 1]), Sum(s));
  }

  lemma {:induction false} PointsBelowDiagonal(s: seq<real>, i: nat)
    requires Ascending(s) && NonNegative(s) && i < |s| && Sum(s) != 0.0
    ensures var r := Points(s);
      && r[i].cumPopShare.Some? && r[i].cumWealthShare.Some?
      && 0.0 <= r[i].cumWealthShare.value <= r[i].cumPopShare.value
  {
    ShareBelowDiagonal(s, i);
  }

  lemma {:induction false} PointsLast(s: seq<real>)
    requires |s| > 0 && Sum(s) != 0.0
    ensures var r := Points(s);
      r[|s| - 1].cumPopShare == Some(1.0) && r[|s| - 1].cumWealthShare == Some(1.0)
  {
    assert s[..|s|] == s;
    DivSelf(|s| as real);
    DivSelf(Sum(s));
  }

  /** C_i <= C_j for i <= j when the balances are non-negative. */
  lemma {:induction false} PrefixGrows(s: seq<real>, i: nat, j: nat)
    requires NonNegative(s) && i <= j <= |s|
    ensures 0.0 <= Sum(s[..i]) <= Sum(s[..j])
  {
    var t := s[..j];
    SumSplit(t, i);
    assert t[..i] == s[..i];
    SumNonNegative(s[..i]);
    SumNonNegative(t[i..]);
  }

  /** 0 <= C_{i+1} / total <= (i + 1) / n for ascending non-negative balances. */
  lemma {:induction false} ShareBelowDiagonal(s: seq<real>, i: nat)
    requires Ascending(s) && NonNegative(s) && i < |s| && Sum(s) != 0.0
    ensures 0.0 <= Sum(s[..i + 1]) / Sum(s) <= (i + 1) as real / |s| as real
  {
    PrefixGrows(s, i + 1, |s|);
    assert s[..|s|] == s;
    PrefixAverageAscending(s, i + 1);
    FractionAtMost(Sum(s[..i + 1]), Sum(s), (i + 1) as real, |s| as real);
    DivMono(0.0, Sum(s[..i + 1]), Sum(s));
  }

  /*
   * Scale invariance.
   */

  /** A balance multiplied by c; NULL stays NULL. */
  function ScaleBalance(b: Option<real>, c: real): Option<real>
  {
    match b
    case Some(x) => Some(c * x)
    case None => None
  }

  lemma {:induction false} ScaleBalanceSome(b: Option<real>, c: real)
    requires b.Some?
    ensures ScaleBalance(b, c) == Some(c * b.value)
  {
  }

  /** The balance column with every non-NULL balance multiplied by c. */
  function ScaleRaw(raw: seq<Option<real>>, c: real): (r: seq<Option<real>>)
    ensures |r| == |raw|
    ensures forall i :: 0 <= i < |raw| ==> r[i] == ScaleBalance(raw[i], c)
  {
    seq(|raw|, i requires 0 <= i < |raw| => ScaleBalance(raw[i], c))
  }

  /**
   * Multiplying every balance by c > 0 multiplies every Lorenz point's
   * inputs alike, so the query returns exactly the same rows.
   */
  lemma {:induction false} LorenzScaleInvariant(raw: seq<Option<real>>, c: real)
    requires c > 0.0
    ensures LorenzQuery(ScaleRaw(raw, c)) == LorenzQuery(raw)
  {
    var base := Eligible(raw);
    LorenzIsPoints(raw);
    LorenzIsPoints(ScaleRaw(raw, c));
    EligibleScale(raw, c);
    AscendingScale(base, c);
    DrawnIsSorted(raw);
    DrawnIsSorted(ScaleRaw(raw, c));
    PointsScale(Drawn(raw), c);
  }

  lemma {:induction false} DrawnIsSorted(raw: seq<Option<real>>)
    ensures Drawn(raw) == SortAscending(Eligible(raw))
  {
  }

  /** The filter keeps the same rows after scaling by c > 0, each scaled by c. */
  lemma {:induction false} EligibleScale(raw: seq<Option<real>>, c: real)
    requires c > 0.0
    ensures Eligible(ScaleRaw(raw, c)) == Scale(Eligible(raw), c)
    decreases |raw|
  {
    if |raw| > 0 {
      var init, sr := raw[..|raw| - 1], ScaleRaw(raw, c);
      ScaleRawInit(raw, c);
      EligibleScale(init, c);
      EligibleSnoc(raw);
      EligibleSnoc(sr);
      KeptScale(raw[|raw| - 1], c);
      ScaleConcat(Eligible(init), Kept(raw[|raw| - 1]), c);
    }
  }

  /** What the filter keeps of one entry: the balance when it is present and non-negative. */
  function Kept(o: Option<real>): (r: seq<real>)
    ensures |r| <= 1
  {
    match o
    case Some(b) => if b >= 0.0 then [b] else []
    case None => []
  }

  /** The filter adds the last entry's kept balance to what it keeps of the others. */
  lemma {:induction false} EligibleSnoc(raw: seq<Option<real>>)
    requires |raw| > 0
    ensures Eligible(raw) == Eligible(raw[..|raw| - 1]) + Kept(raw[|raw| - 1])
  {
  }

  /** A positive factor keeps exactly the same entries, scaled. */
  lemma {:induction false} KeptScale(o: Option<real>, c: real)
    requires c > 0.0
    ensures Kept(ScaleBalance(o, c)) == Scale(Kept(o), c)
  {
    if o.Some? {
      var x := o.value;
      SignScale(c, x);
      ScaleBalanceSome(o, c);
      if x >= 0.0 {
        assert Kept(ScaleBalance(o, c)) == [c * x];
        ScaleSingle(x, c);
      } else {
        assert Kept(ScaleBalance(o, c)) == [];
        assert Kept(o) == [];
        ScaleEmpty(c);
      }
    } else {
      assert Kept(o) == [];
      ScaleEmpty(c);
    }
  }


  lemma {:induction false} ScaleRawInit(raw: seq<Option<real>>, c: real)
    requires |raw| > 0
    ensures ScaleRaw(raw, c)[..|raw| - 1] == ScaleRaw(raw[..|raw| - 1], c)
  {
    var l, r := ScaleRaw(raw, c)[..|raw| - 1], ScaleRaw(raw[..|raw| - 1], c);
    forall i | 0 <= i < |l|
      ensures l[i] == r[i]
    {
      assert l[i] == ScaleRaw(raw, c)[i];
      assert raw[..|raw| - 1][i] == raw[i];
    }
  }

  /** Lorenz points do not change when every balance is multiplied by c > 0. */
  lemma {:induction false} PointsScale(s: seq<real>, c: real)
    requires c > 0.0
    ensures Points(Scale(s, c)) == Points(s)
  {
    forall i | 0 <= i < |s|
      ensures Points(Scale(s, c))[i] == Points(s)[i]
    {
      PointScaleAt(s, c, i);
    }
  }

  lemma {:induction false} PointScaleAt(s: seq<real>, c: real, i: nat)
    requires c > 0.0 && i < |s|
    ensures Points(Scale(s, c))[i] == Points(s)[i]
  {
    var t := Scale(s, c);
    var cum, total := Sum(s[..i + 1]), Sum(s);
    assert Sum(t[..i + 1]) == c * cum by {
      ScalePrefix(s, c, i + 1);
      SumScale(s[..i + 1], c);
    }
    assert Sum(t) == c * total by {
      SumScale(s, c);
    }
    WealthShareScale(c, cum, total);
    assert Points(t)[i] == LorenzRow(i + 1, |s|, PopShare(i + 1, |s|), WealthShare(c * cum, c * total));
  }

  /** A share is unchanged when its part and its total are both multiplied by c > 0. */
  lemma {:induction false} WealthShareScale(c: real, cum: real, total: real)
    requires c > 0.0
    ensures WealthShare(c * cum, c * total) == WealthShare(cum, total)
  {
    if total != 0.0 {
      if total > 0.0 {
        MulLeftStrict(c, 0.0, total);
      } else {
        MulLeftStrict(c, total, 0.0);
      }
      var q := cum / total;
      assert total * q == cum;
      assert (c * total) * q == c * cum;
      Quotient(c * cum, c * total, q);
    }
  }

  /*
   * Real division helpers.
   */

  lemma {:induction false} DivStrict(a: real, b: real, n: real)
    requires n > 0.0 && a < b
    ensures a / n < b / n
  {
    var x, y := a / n, b / n;
    assert n * x == a && n * y == b;
    assert n * (y - x) == b - a;
  }

  lemma {:induction false} DivMono(a: real, b: real, t: real)
    requires t > 0.0 && a <= b
    ensures a / t <= b / t
  {
    var x, y := a / t, b / t;
    assert t * x == a && t * y == b;
    assert t * (y - x) == b - a;
  }

  lemma {:induction false} DivSelf(t: real)
    requires t != 0.0
    ensures t / t == 1.0
  {
  }

  /** From n * c <= k * t with t, n > 0 follows c / t <= k / n. */
  lemma {:induction false} FractionAtMost(c: real, t: real, k: real, n: real)
    requires t > 0.0 && n > 0.0 && n * c <= k * t
    ensures c / t <= k / n
  {
    var y, x := c / t, k / n;
    assert t * y == c && n * x == k;
    assert (n * t) * y == n * c;
    assert (n * t) * x == k * t;
    if y > x {
      MulLeftStrict(n * t, x, y);
    }
  }

}
