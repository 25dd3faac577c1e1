/**
 * The Gini coefficient shown beside the Lorenz curve (app.py:313-331).
 *
 * The dashboard puts the origin (0, 0) in front of the query rows and sums
 * y * (x - x_prev) over the points: pandas' `diff()` leaves NaN at the
 * first point, `fillna(0)` turns it into 0, and a NULL wealth share makes
 * its product NaN, which `sum()` skips. The result is 1 - 2 * area.
 *
 * Every point contributes its right end only, so on n accounts this is
 * 1 - (2/n) * (y_1 + ... + y_n), which lies in [-1/n, 1 - 2/n];
 * `GiniTrapezoid` is the trapezoid rule over the same points, which is
 * exactly 1/n more and lies in [0, 1 - 1/n].
 */
module Gini {
  import opened Wrappers
  import opened Balances
  import opened Lorenz

  /** A row of the `curve` frame: (cum_pop_share, cum_wealth_share). */
  datatype CurvePoint = CurvePoint(popShare: Option<real>, wealthShare: Option<real>)

  /** The point put in front of the query rows. */
  const Origin: CurvePoint := CurvePoint(Some(0.0), Some(0.0))

  /** The origin followed by the two share columns of the query rows. */
  function Curve(rows: seq<LorenzRow>): (c: seq<CurvePoint>)
    ensures |c| == |rows| + 1
  {
    [Origin] + seq(|rows|, i requires 0 <= i < |rows| => CurvePoint(rows[i].cumPopShare, rows[i].cumWealthShare))
  }

  /**
   * `curve["cum_pop_share"].diff().fillna(0)` at position k: the step from
   * the previous point's x, 0 at the first point or where an x is missing.
   */
  function Step(c: seq<CurvePoint>, k: nat): real
    requires k < |c|
  {
    if k == 0 then 0.0
    else match (c[k].popShare, c[k - 1].popShare)
      case (Some(x), Some(x')) => x - x'
      case _ => 0.0
  }

  /** y * dx at position k; nothing when y is NULL, since `sum()` skips NaN. */
  function Term(c: seq<CurvePoint>, k: nat): real
    requires k < |c|
  {
    match c[k].wealthShare
    case Some(y) => y * Step(c, k)
    case None => 0.0
  }

  function Terms(c: seq<CurvePoint>): (r: seq<real>)
    ensures |r| == |c|
  {
    seq(|c|, k requires 0 <= k < |c| => Term(c, k))
  }

  /** `area`: the sum of the products. */
  function Area(c: seq<CurvePoint>): real
  {
    Sum(Terms(c))
  }

  /** The coefficient the dashboard shows; None where it shows the notice instead. */
  function GiniOf(rows: seq<LorenzRow>): Option<real>
  {
    if NoCurve(rows) then None else Some(1.0 - 2.0 * Area(Curve(rows)))
  }

  /** The population shares 1/n, 2/n, ..., n/n: the diagonal of perfect equality. */
  function Diagonal(n: nat): (r: seq<real>)
    ensures |r| == n
  {
    seq(n, i requires 0 <= i < n => (i + 1) as real / n as real)
  }

  /*
   * The right-endpoint sum in closed form.
   */

  /** Each step of the curve over the closed-form points is 1/n wide. */
  lemma {:induction false} StepIsWidth(s: seq<real>, k: nat)
    requires 0 < k <= |s|
    ensures Step(Curve(Points(s)), k) == 1.0 / |s| as real
  {
    var c, n := Curve(Points(s)), |s| as real;
    assert c[k].popShare == Some(k as real / n);
    if k == 1 {
      assert c[k - 1] == Origin;
    } else {
      assert c[k - 1].popShare == Some((k - 1) as real / n);
    }
    WidthOfStep(k as real, n);
  }

  lemma {:induction false} WidthOfStep(k: real, n: real)
    requires n > 0.0
    ensures k / n - (k - 1.0) / n == 1.0 / n
    ensures 0.0 / n == 0.0
  {
    var a, b, w := k / n, (k - 1.0) / n, 1.0 / n;
    assert n * a == k && n * b == k - 1.0 && n * w == 1.0;
    assert n * (a - b) == n * w;
    MulLeftCancelEq(n, a - b, w);
  }

  /** Term k >= 1 is the wealth share of account k times 1/n. */
  lemma {:induction false} TermAt(s: seq<real>, k: nat)
    requires 0 < k <= |s| && Sum(s) != 0.0
    ensures Terms(Curve(Points(s)))[k] == Shares(s)[k - 1] * (1.0 / |s| as real)
  {
    var c := Curve(Points(s));
    assert c[k].wealthShare == Some(Sum(s[..k]) / Sum(s));
    StepIsWidth(s, k);
  }

  /** The origin's term is 0. */
  lemma {:induction false} FirstTerm(rows: seq<LorenzRow>)
    ensures Terms(Curve(rows))[0] == 0.0
  {
    var c := Curve(rows);
    assert c[0] == Origin;
    assert Step(c, 0) == 0.0;
  }

  /** The products are 0 followed by the wealth shares scaled by 1/n. */
  lemma {:induction false} TermsClosedForm(s: seq<real>)
    requires |s| > 0 && Sum(s) != 0.0
    ensures Terms(Curve(Points(s))) == [0.0] + Scale(Shares(s), 1.0 / |s| as real)
  {
    var t, r := Terms(Curve(Points(s))), [0.0] + Scale(Shares(s), 1.0 / |s| as real);
    forall k | 0 <= k < |t|
      ensures t[k] == r[k]
    {
      if k == 0 {
        FirstTerm(Points(s));
      } else {
        TermAt(s, k);
        assert r[k] == Scale(Shares(s), 1.0 / |s| as real)[k - 1];
      }
    }
  }

  /** The area is the mean wealth share: (y_1 + ... + y_n) / n. */
  lemma {:induction false} AreaClosedForm(s: seq<real>)
    requires |s| > 0 && Sum(s) != 0.0
    ensures Area(Curve(Points(s))) == Sum(Shares(s)) / |s| as real
  {
    TermsClosedForm(s);
    SumPrependZero(Scale(Shares(s), 1.0 / |s| as real));
    SumByInverse(Shares(s), |s| as real);
  }

  lemma {:induction false} ScaleByInverse(x: real, n: real)
    requires n != 0.0
    ensures (1.0 / n) * x == x / n
  {
    var w, q := 1.0 / n, x / n;
    assert n * w == 1.0 && n * q == x;
    assert n * (w * x) == (n * w) * x;
    MulLeftCancelEq(n, w * x, q);
  }

  /** A non-empty set of points always yields a coefficient. */
  lemma {:induction false} PointsDrawn(s: seq<real>)
    requires |s| > 0
    ensures !NoCurve(Points(s))
  {
    assert Points(s)[0].cumPopShare.Some?;
  }

  /** On the closed-form points the coefficient is 1 - (2/n) * (y_1 + ... + y_n). */
  lemma {:induction false} GiniClosedForm(s: seq<real>)
    requires |s| > 0 && Sum(s) != 0.0
    ensures GiniOf(Points(s)) == Some(1.0 - 2.0 * (Sum(Shares(s)) / |s| as real))
  {
    PointsDrawn(s);
    AreaClosedForm(s);
  }

  /**
   * With a non-zero total the dashboard's coefficient is
   * 1 - (2/n) * (y_1 + ... + y_n) over the n eligible accounts: the
   * origin adds nothing and every point adds its wealth share times 1/n.
   */
  lemma {:induction false} GiniRightEndpoint(raw: seq<Option<real>>)
    requires |Eligible(raw)| > 0 && Sum(Eligible(raw)) != 0.0
    ensures GiniOf(LorenzQuery(raw)) == Some(1.0 - 2.0 * (Sum(Shares(Drawn(raw))) / |Drawn(raw)| as real))
  {
    GiniQueryIsPoints(raw);
    GiniClosedForm(Drawn(raw));
  }

  /** Both coefficients of the query are those of the closed-form points. */
  lemma {:induction false} GiniQueryIsPoints(raw: seq<Option<real>>)
    ensures GiniOf(LorenzQuery(raw)) == GiniOf(Points(Drawn(raw)))
    ensures GiniTrapezoid(LorenzQuery(raw)) == GiniTrapezoid(Points(Drawn(raw)))
  {
    LorenzIsPoints(raw);
  }

  /*
   * Bounds.
   */

  /** 1/n + 2/n + ... + n/n = (n + 1) / 2. */
  lemma {:induction false} DiagonalSum(n: nat)
    requires n > 0
    ensures Sum(Diagonal(n)) == (n as real + 1.0) / 2.0
  {
    var w := 1.0 / n as real;
    var d := Scale(Counts(n), w);
    forall i | 0 <= i < n
      ensures Diagonal(n)[i] == d[i]
    {
      ScaleByInverse((i + 1) as real, n as real);
    }
    assert Diagonal(n) == d;
    SumScale(Counts(n), w);
    CountsSum(n);
    HalfOfTriangle(n as real);
  }

  /** The account numbers 1, 2, ..., m as reals. */
  function Counts(m: nat): (r: seq<real>)
    ensures |r| == m
  {
    seq(m, i requires 0 <= i < m => (i + 1) as real)
  }

  lemma {:induction false} CountsSum(m: nat)
    ensures Sum(Counts(m)) == m as real * (m as real + 1.0) / 2.0
    decreases m
  {
    if m > 0 {
      assert Counts(m)[..m - 1] == Counts(m - 1);
      CountsSum(m - 1);
      var p := (m - 1) as real;
      assert p * (p + 1.0) / 2.0 + (p + 1.0) == (p + 1.0) * (p + 2.0) / 2.0;
    } else {
      assert Counts(0) == [];
    }
  }

  lemma {:induction false} HalfOfTriangle(n: real)
    requires n > 0.0
    ensures (1.0 / n) * (n * (n + 1.0) / 2.0) == (n + 1.0) / 2.0
  {
    var w := 1.0 / n;
    assert n * w == 1.0;
    assert w * (n * (n + 1.0) / 2.0) == (w * n) * ((n + 1.0) / 2.0);
  }

  /**
   * For ascending non-negative balances with a non-zero total, the wealth
   * shares add up to between 1 (the last share) and (n + 1) / 2 (the
   * diagonal).
   */
  lemma {:induction false} SharesBounds(s: seq<real>)
    requires Ascending(s) && NonNegative(s) && |s| > 0 && Sum(s) != 0.0
    ensures 1.0 <= Sum(Shares(s)) <= (|s| as real + 1.0) / 2.0
  {
    var y, n := Shares(s), |s|;
    forall i | 0 <= i < n
      ensures 0.0 <= y[i] <= Diagonal(n)[i]
    {
      ShareBelowDiagonal(s, i);
    }
    SumPointwise(y, Diagonal(n));
    DiagonalSum(n);
    assert y[n - 1] == 1.0 by {
      assert s[..n] == s;
      DivSelf(Sum(s));
    }
    SumAtLeastElement(y, n - 1);
  }

  /** A sum of shares between 1 and (n + 1) / 2 puts 1 - 2S/n in [-1/n, 1 - 2/n]. */
  lemma {:induction false} GiniRange(total: real, n: real)
    requires n >= 1.0 && 1.0 <= total <= (n + 1.0) / 2.0
    ensures -1.0 / n <= 1.0 - 2.0 * (total / n) <= 1.0 - 2.0 / n
  {
    GiniAboveLow(total, n);
    GiniBelowHigh(total, n);
  }

  lemma {:induction false} GiniAboveLow(total: real, n: real)
    requires n >= 1.0 && total <= (n + 1.0) / 2.0
    ensures -1.0 / n <= 1.0 - 2.0 * (total / n)
  {
    var q, a := total / n, -1.0 / n;
    var v := 1.0 - 2.0 * q;
    assert n * q == total && n * a == -1.0;
    assert n * v == n - 2.0 * total by {
      assert n * v == n * 1.0 - 2.0 * (n * q);
    }
    MulLeftCancel(n, a, v);
  }

  lemma {:induction false} GiniBelowHigh(total: real, n: real)
    requires n >= 1.0 && 1.0 <= total
    ensures 1.0 - 2.0 * (total / n) <= 1.0 - 2.0 / n
  {
    DivMono(2.0, 2.0 * total, n);
    assert 2.0 * (total / n) == (2.0 * total) / n by {
      ScaleByInverse(total, n);
      ScaleByInverse(2.0 * total, n);
    }
  }

  /**
   * With a positive total the coefficient lies in [-1/n, 1 - 2/n]: the
   * lower end when all balances are equal, the upper end when one account
   * holds everything.
   */
  lemma {:induction false} GiniBounds(raw: seq<Option<real>>)
    requires |Eligible(raw)| > 0 && Sum(Eligible(raw)) != 0.0
    ensures GiniOf(LorenzQuery(raw)).Some?
    ensures var g, n := GiniOf(LorenzQuery(raw)).value, |Drawn(raw)| as real;
      -1.0 / n <= g <= 1.0 - 2.0 / n
  {
    var s := Drawn(raw);
    GiniRightEndpoint(raw);
    SharesBounds(s);
    GiniRange(Sum(Shares(s)), |s| as real);
  }

  /** Multiplying every balance by c > 0 leaves the coefficient unchanged. */
  lemma {:induction false} GiniScaleInvariant(raw: seq<Option<real>>, c: real)
    requires c > 0.0
    ensures GiniOf(LorenzQuery(ScaleRaw(raw, c))) == GiniOf(LorenzQuery(raw))
  {
    LorenzScaleInvariant(raw, c);
  }

  /*
   * Degenerate inputs.
   */

  /**
   * When the eligible balances total zero every wealth share is NULL, the
   * products are NaN and skipped, the area is 0 and the coefficient is 1.
   */
  lemma {:induction false} ZeroTotalGini(raw: seq<Option<real>>)
    requires |Eligible(raw)| > 0 && Sum(Eligible(raw)) == 0.0
    ensures GiniOf(LorenzQuery(raw)) == Some(1.0)
  {
    GiniQueryIsPoints(raw);
    ZeroTotalPoints(Drawn(raw));
  }

  lemma {:induction false} ZeroTotalPoints(s: seq<real>)
    requires |s| > 0 && Sum(s) == 0.0
    ensures GiniOf(Points(s)) == Some(1.0)
  {
    PointsDrawn(s);
    var t := Terms(Curve(Points(s)));
    forall k | 0 <= k < |t|
      ensures t[k] == 0.0
    {
      if k == 0 {
        FirstTerm(Points(s));
      } else {
        assert Curve(Points(s))[k].wealthShare == None;
      }
    }
    SumConstant(t, 0.0);
  }

  /** n equal positive balances have wealth shares 1/n, 2/n, ..., n/n. */
  lemma {:induction false} EqualShares(s: seq<real>, b: real)
    requires |s| > 0 && b > 0.0 && forall k :: 0 <= k < |s| ==> s[k] == b
    ensures Sum(s) > 0.0
    ensures Shares(s) == Diagonal(|s|)
  {
    var n := |s| as real;
    SumConstant(s, b);
    MulLeftStrict(n, 0.0, b);
    forall i | 0 <= i < |s|
      ensures Shares(s)[i] == Diagonal(|s|)[i]
    {
      SumConstant(s[..i + 1], b);
      CancelFactor((i + 1) as real, n, b);
    }
  }

  /** (a * b) / (n * b) == a / n. */
  lemma {:induction false} CancelFactor(a: real, n: real, b: real)
    requires n != 0.0 && b != 0.0
    ensures (a * b) / (n * b) == a / n
  {
    var q := a / n;
    assert n * q == a;
    assert (n * b) * q == a * b;
    Quotient(a * b, n * b, q);
  }

  /**
   * n equal positive balances give the coefficient -1/n, below the 0 the
   * dashboard's caption names as perfect equality.
   */
  lemma {:induction false} EqualBalancesGini(raw: seq<Option<real>>, b: real)
    requires |raw| > 0 && b > 0.0 && forall i :: 0 <= i < |raw| ==> raw[i] == Some(b)
    ensures GiniOf(LorenzQuery(raw)) == Some(-1.0 / |raw| as real)
    ensures GiniOf(LorenzQuery(raw)).value < 0.0
  {
    DrawnAll(raw, b);
    GiniQueryIsPoints(raw);
    EqualPoints(Drawn(raw), b, |raw|);
  }

  /** The closed form on n copies of one positive balance gives -1/n. */
  lemma {:induction false} EqualPoints(s: seq<real>, b: real, n: nat)
    requires |s| == n && n > 0 && b > 0.0 && forall k :: 0 <= k < |s| ==> s[k] == b
    ensures GiniOf(Points(s)) == Some(-1.0 / n as real)
    ensures -1.0 / n as real < 0.0
  {
    EqualShares(s, b);
    GiniClosedForm(s);
    DiagonalSum(n);
    EqualValue(n as real);
  }

  lemma {:induction false} EqualValue(n: real)
    requires n > 0.0
    ensures 1.0 - 2.0 * (((n + 1.0) / 2.0) / n) == -1.0 / n
    ensures -1.0 / n < 0.0
  {
    var q, a := ((n + 1.0) / 2.0) / n, -1.0 / n;
    assert n * q == (n + 1.0) / 2.0 && n * a == -1.0;
    assert n * (1.0 - 2.0 * q) == n * a;
    MulLeftCancelEq(n, 1.0 - 2.0 * q, a);
    if a >= 0.0 {
      MulLeftMono(n, 0.0, a);
    }
  }

  /*
   * The trapezoid rule.
   */

  /** The trapezoid (y_prev + y) / 2 * dx at position k; nothing where either y is NULL. */
  function TrapezoidTerm(c: seq<CurvePoint>, k: nat): real
    requires k < |c|
  {
    if k == 0 then 0.0
    else match (c[k].wealthShare, c[k - 1].wealthShare)
      case (Some(y), Some(y')) => (y + y') / 2.0 * Step(c, k)
      case _ => 0.0
  }

  function TrapezoidTerms(c: seq<CurvePoint>): (r: seq<real>)
    ensures |r| == |c|
  {
    seq(|c|, k requires 0 <= k < |c| => TrapezoidTerm(c, k))
  }

  /** 1 - 2 * (area under the curve by the trapezoid rule). */
  function GiniTrapezoid(rows: seq<LorenzRow>): Option<real>
  {
    if NoCurve(rows) then None else Some(1.0 - 2.0 * Sum(TrapezoidTerms(Curve(rows))))
  }

  /** Averages of neighbours: position k >= 1 holds (y[k] + y[k-1]) / 2. */
  function Pairs(y: seq<real>): (r: seq<real>)
    ensures |r| == |y|
  {
    seq(|y|, k requires 0 <= k < |y| => if k == 0 then 0.0 else (y[k] + y[k - 1]) / 2.0)
  }

  /** Adding neighbour averages counts every y twice except the two ends. */
  lemma {:induction false} PairsPrefix(y: seq<real>, m: nat)
    requires 1 <= m <= |y|
    ensures Sum(Pairs(y)[..m]) == Sum(y[..m]) - (y[0] + y[m - 1]) / 2.0
    decreases m
  {
    var p := Pairs(y);
    if m == 1 {
      assert p[..1] == [0.0];
      assert y[..1] == [y[0]];
      SumSingle(0.0);
      SumSingle(y[0]);
    } else {
      PairsPrefix(y, m - 1);
      PrefixSumStep(p, m - 1);
      PrefixSumStep(y, m - 1);
    }
  }

  /** The curve's wealth-share column: 0 at the origin, then the shares. */
  function Heights(s: seq<real>): (r: seq<real>)
    requires Sum(s) != 0.0
    ensures |r| == |s| + 1
  {
    [0.0] + Shares(s)
  }

  /** The trapezoid products are the neighbour averages of the heights scaled by 1/n. */
  lemma {:induction false} TrapezoidTermsClosedForm(s: seq<real>)
    requires |s| > 0 && Sum(s) != 0.0
    ensures TrapezoidTerms(Curve(Points(s))) == Scale(Pairs(Heights(s)), 1.0 / |s| as real)
  {
    var w := 1.0 / |s| as real;
    var t, r := TrapezoidTerms(Curve(Points(s))), Scale(Pairs(Heights(s)), w);
    forall k | 0 <= k < |t|
      ensures t[k] == r[k]
    {
      TrapezoidTermAt(s, k);
    }
  }

  lemma {:induction false} TrapezoidTermAt(s: seq<real>, k: nat)
    requires k <= |s| && Sum(s) != 0.0
    ensures TrapezoidTerms(Curve(Points(s)))[k] == Scale(Pairs(Heights(s)), 1.0 / |s| as real)[k]
  {
    var c, h, w := Curve(Points(s)), Heights(s), 1.0 / |s| as real;
    if k > 0 {
      CurveHeight(s, k);
      CurveHeight(s, k - 1);
      StepIsWidth(s, k);
      NeighbourTerm(c, h, w, k);
    }
  }

  /** Point k of the curve has height k of the heights. */
  lemma {:induction false} CurveHeight(s: seq<real>, k: nat)
    requires k <= |s| && Sum(s) != 0.0
    ensures Curve(Points(s))[k].wealthShare == Some(Heights(s)[k])
  {
    if k == 0 {
      assert Curve(Points(s))[0] == Origin;
    }
  }

  /**
   * A trapezoid between two points whose shares are heights k - 1 and k is
   * the neighbour average of the heights times the step.
   */
  lemma {:induction false} NeighbourTerm(c: seq<CurvePoint>, h: seq<real>, w: real, k: nat)
    requires 0 < k < |c| == |h|
    requires c[k].wealthShare == Some(h[k]) && c[k - 1].wealthShare == Some(h[k - 1])
    requires Step(c, k) == w
    ensures TrapezoidTerms(c)[k] == Scale(Pairs(h), w)[k]
  {
  }

  /** The trapezoid area is (y_1 + ... + y_n - 1/2) / n when the last share is 1. */
  lemma {:induction false} TrapezoidArea(s: seq<real>)
    requires |s| > 0 && Sum(s) != 0.0
    ensures Sum(TrapezoidTerms(Curve(Points(s)))) == (Sum(Shares(s)) - 0.5) / |s| as real
  {
    var h := Heights(s);
    TrapezoidTermsClosedForm(s);
    SumByInverse(Pairs(h), |s| as real);
    PairsSum(h);
    HeightsEnds(s);
  }

  /** Sum(Pairs(y)) counts every y twice except the two ends. */
  lemma {:induction false} PairsSum(y: seq<real>)
    requires |y| > 0
    ensures Sum(Pairs(y)) == Sum(y) - (y[0] + y[|y| - 1]) / 2.0
  {
    PairsPrefix(y, |y|);
    assert Pairs(y)[..|y|] == Pairs(y) && y[..|y|] == y;
  }

  /** The heights run from 0 to 1 and add up to the wealth shares. */
  lemma {:induction false} HeightsEnds(s: seq<real>)
    requires |s| > 0 && Sum(s) != 0.0
    ensures Sum(Heights(s)) == Sum(Shares(s))
    ensures Heights(s)[0] == 0.0 && Heights(s)[|s|] == 1.0
  {
    SumPrependZero(Shares(s));
    assert s[..|s|] == s;
    DivSelf(Sum(s));
  }

  /** A leading 0 adds nothing. */
  lemma {:induction false} SumPrependZero(t: seq<real>)
    ensures Sum([0.0] + t) == Sum(t)
  {
    SumConcat([0.0], t);
    SumSingle(0.0);
  }

  /** Scaling by 1/n divides the sum by n. */
  lemma {:induction false} SumByInverse(t: seq<real>, n: real)
    requires n != 0.0
    ensures Sum(Scale(t, 1.0 / n)) == Sum(t) / n
  {
    SumScale(t, 1.0 / n);
    ScaleByInverse(Sum(t), n);
  }

  /**
   * The trapezoid rule adds exactly 1/n to the dashboard's coefficient:
   * the right-endpoint sum counts the last step's full height where the
   * trapezoid counts its average.
   */
  lemma {:induction false} TrapezoidShift(raw: seq<Option<real>>)
    requires |Eligible(raw)| > 0 && Sum(Eligible(raw)) != 0.0
    ensures GiniOf(LorenzQuery(raw)).Some? && GiniTrapezoid(LorenzQuery(raw)).Some?
    ensures GiniTrapezoid(LorenzQuery(raw)).value == GiniOf(LorenzQuery(raw)).value + 1.0 / |Drawn(raw)| as real
  {
    GiniQueryIsPoints(raw);
    ShiftOnPoints(Drawn(raw));
  }

  lemma {:induction false} ShiftOnPoints(s: seq<real>)
    requires |s| > 0 && Sum(s) != 0.0
    ensures GiniOf(Points(s)).Some? && GiniTrapezoid(Points(s)).Some?
    ensures GiniTrapezoid(Points(s)).value == GiniOf(Points(s)).value + 1.0 / |s| as real
  {
    GiniClosedForm(s);
    TrapezoidClosedForm(s);
    HalfStep(Sum(Shares(s)), |s| as real);
  }

  /** On the closed-form points the trapezoid coefficient is 1 - 2 * (y_1 + ... + y_n - 1/2) / n. */
  lemma {:induction false} TrapezoidClosedForm(s: seq<real>)
    requires |s| > 0 && Sum(s) != 0.0
    ensures GiniTrapezoid(Points(s)) == Some(1.0 - 2.0 * ((Sum(Shares(s)) - 0.5) / |s| as real))
  {
    PointsDrawn(s);
    TrapezoidArea(s);
  }

  lemma {:induction false} HalfStep(total: real, n: real)
    requires n > 0.0
    ensures 1.0 - 2.0 * ((total - 0.5) / n) == 1.0 - 2.0 * (total / n) + 1.0 / n
  {
    var a, b, w := (total - 0.5) / n, total / n, 1.0 / n;
    assert n * a == total - 0.5 && n * b == total && n * w == 1.0;
    assert n * (2.0 * a) == n * (2.0 * b - w);
    MulLeftCancelEq(n, 2.0 * a, 2.0 * b - w);
  }

  /** The trapezoid coefficient lies in [0, 1 - 1/n]. */
  lemma {:induction false} TrapezoidBounds(raw: seq<Option<real>>)
    requires |Eligible(raw)| > 0 && Sum(Eligible(raw)) != 0.0
    ensures GiniTrapezoid(LorenzQuery(raw)).Some?
    ensures 0.0 <= GiniTrapezoid(LorenzQuery(raw)).value <= 1.0 - 1.0 / |Drawn(raw)| as real
  {
    var n := |Drawn(raw)| as real;
    GiniBounds(raw);
    TrapezoidShift(raw);
    Halves(n);
  }

  lemma {:induction false} Halves(n: real)
    requires n > 0.0
    ensures -1.0 / n + 1.0 / n == 0.0
    ensures 1.0 - 2.0 / n + 1.0 / n == 1.0 - 1.0 / n
  {
    var a, b, w := -1.0 / n, 2.0 / n, 1.0 / n;
    assert n * a == -1.0 && n * b == 2.0 && n * w == 1.0;
    MulLeftCancelEq(n, a, -w);
    MulLeftCancelEq(n, b, 2.0 * w);
  }

  /** n equal positive balances give the trapezoid coefficient 0, perfect equality. */
  lemma {:induction false} EqualBalancesTrapezoid(raw: seq<Option<real>>, b: real)
    requires |raw| > 0 && b > 0.0 && forall i :: 0 <= i < |raw| ==> raw[i] == Some(b)
    ensures GiniTrapezoid(LorenzQuery(raw)) == Some(0.0)
  {
    EligibleAll(raw, b);
    EqualBalancesGini(raw, b);
    assert Sum(Eligible(raw)) != 0.0 by {
      DrawnAll(raw, b);
      EqualShares(Drawn(raw), b);
    }
    TrapezoidShift(raw);
    Halves(|raw| as real);
  }
}
