/**
 * Sequences of account balances: SQL SUM, the two ORDER BY directions,
 * MIN/MAX, uniform scaling, and the averaging facts the concentration
 * queries rely on. Balances are exact reals, not IEEE doubles.
 */
module Balances {

  /** SUM(balance): the rows added in order (empty sum is 0). */
  function SumRows(s: seq<real>): real
  {
    if |s| == 0 then 0.0 else SumRows(s[..|s| - 1]) + s[|s| - 1]
  }

  /**
   * SUM(balance), the total of the rows. The facts about totals below are
   * stated on Sum; SumRows gives its row-by-row definition.
   */
  function Sum(s: seq<real>): real
  {
    SumRows(s)
  }

  /** ORDER BY balance ASC. */
  predicate Ascending(s: seq<real>)
  {
    forall i, j :: 0 <= i < j < |s| ==> s[i] <= s[j]
  }

  /** ORDER BY balance DESC. */
  predicate Descending(s: seq<real>)
  {
    forall i, j :: 0 <= i < j < |s| ==> s[i] >= s[j]
  }

  predicate NonNegative(s: seq<real>)
  {
    forall i :: 0 <= i < |s| ==> s[i] >= 0.0
  }

  /** Every balance in `lo` is at most every balance in `hi`. */
  predicate AllAtMost(lo: seq<real>, hi: seq<real>)
  {
    forall i, j :: 0 <= i < |lo| && 0 <= j < |hi| ==> lo[i] <= hi[j]
  }

  /** MIN(balance) of a non-empty group. */
  function Min(s: seq<real>): real
    requires |s| > 0
  {
    if |s| == 1 then s[0]
    else
      var rest := Min(s[..|s| - 1]);
      if s[|s| - 1] < rest then s[|s| - 1] else rest
  }

  /** MAX(balance) of a non-empty group. */
  function Max(s: seq<real>): real
    requires |s| > 0
  {
    if |s| == 1 then s[0]
    else
      var rest := Max(s[..|s| - 1]);
      if s[|s| - 1] > rest then s[|s| - 1] else rest
  }

  /** MIN is one of the group's balances and no balance is below it. */
  lemma {:induction false} MinIsLeast(s: seq<real>)
    requires |s| > 0
    ensures exists i :: 0 <= i < |s| && s[i] == Min(s)
    ensures forall i :: 0 <= i < |s| ==> Min(s) <= s[i]
    decreases |s|
  {
    if |s| > 1 {
      var init := s[..|s| - 1];
      MinIsLeast(init);
      var k :| 0 <= k < |init| && init[k] == Min(init);
      assert s[k] == Min(init);
      if s[|s| - 1] < Min(init) {
        assert s[|s| - 1] == Min(s);
      } else {
        assert s[k] == Min(s);
      }
      forall i | 0 <= i < |s|
        ensures Min(s) <= s[i]
      {
        if i < |s| - 1 {
          assert s[i] == init[i];
        }
      }
    } else {
      assert s[0] == Min(s);
    }
  }

  /** MAX is one of the group's balances and no balance is above it. */
  lemma {:induction false} MaxIsGreatest(s: seq<real>)
    requires |s| > 0
    ensures exists i :: 0 <= i < |s| && s[i] == Max(s)
    ensures forall i :: 0 <= i < |s| ==> s[i] <= Max(s)
    decreases |s|
  {
    if |s| > 1 {
      var init := s[..|s| - 1];
      MaxIsGreatest(init);
      var k :| 0 <= k < |init| && init[k] == Max(init);
      assert s[k] == Max(init);
      if s[|s| - 1] > Max(init) {
        assert s[|s| - 1] == Max(s);
      } else {
        assert s[k] == Max(s);
      }
      forall i | 0 <= i < |s|
        ensures s[i] <= Max(s)
      {
        if i < |s| - 1 {
          assert s[i] == init[i];
        }
      }
    } else {
      assert s[0] == Max(s);
    }
  }

  /** Position of a largest balance. */
  function ArgMax(s: seq<real>): (k: nat)
    requires |s| > 0
    ensures k < |s|
    ensures forall i :: 0 <= i < |s| ==> s[i] <= s[k]
  {
    if |s| == 1 then 0
    else
      var rest := ArgMax(s[..|s| - 1]);
      if s[|s| - 1] > s[rest] then |s| - 1 else rest
  }

  /** Every balance multiplied by the factor `c`. */
  function Scale(s: seq<real>, c: real): (r: seq<real>)
    ensures |r| == |s|
    ensures forall i :: 0 <= i < |s| ==> r[i] == c * s[i]
  {
    seq(|s|, i requires 0 <= i < |s| => c * s[i])
  }

  lemma {:induction false} SumConcat(a: seq<real>, b: seq<real>)
    ensures Sum(a + b) == Sum(a) + Sum(b)
    decreases |b|
  {
    if |b| == 0 {
      assert a + b == a;
    } else {
      var b' := b[..|b| - 1];
      assert (a + b)[..|a + b| - 1] == a + b';
      SumConcat(a, b');
    }
  }

  /** The running sum grows by exactly the next balance. */
  lemma {:induction false} PrefixSumStep(s: seq<real>, i: nat)
    requires i < |s|
    ensures Sum(s[..i + 1]) == Sum(s[..i]) + s[i]
  {
    assert s[..i + 1][..i] == s[..i];
  }

  lemma {:induction false} SumNonNegative(s: seq<real>)
    requires NonNegative(s)
    ensures Sum(s) >= 0.0
    decreases |s|
  {
    if |s| > 0 {
      SumNonNegative(s[..|s| - 1]);
    }
  }

  lemma {:induction false} SumSingle(x: real)
    ensures Sum([x]) == x
  {
    var s := [x];
    assert s[..|s| - 1] == [];
    assert SumRows(s) == SumRows(s[..|s| - 1]) + s[|s| - 1];
  }

  /** A sequence that is nowhere above another sums to no more. */
  lemma {:induction false} SumPointwise(a: seq<real>, b: seq<real>)
    requires |a| == |b| && forall i :: 0 <= i < |a| ==> a[i] <= b[i]
    ensures Sum(a) <= Sum(b)
    decreases |a|
  {
    if |a| > 0 {
      SumPointwise(a[..|a| - 1], b[..|b| - 1]);
    }
  }

  /** With non-negative balances, any single balance is at most the total. */
  lemma {:induction false} SumAtLeastElement(s: seq<real>, k: nat)
    requires NonNegative(s) && k < |s|
    ensures s[k] <= Sum(s)
  {
    var tail := s[k..];
    SumSplit(s, k);
    SumSplit(tail, 1);
    assert tail[..1] == [s[k]];
    SumSingle(s[k]);
    assert NonNegative(s[..k]);
    assert NonNegative(tail[1..]);
    SumNonNegative(s[..k]);
    SumNonNegative(tail[1..]);
  }

  /*
   * Real arithmetic used by the averaging lemmas: multiplying by a
   * non-negative factor is monotone, a positive or non-zero factor
   * cancels, and a quotient is determined by its divisor and dividend.
   */

  lemma {:induction false} MulLeftMono(a: real, x: real, y: real)
    requires a >= 0.0 && x <= y
    ensures a * x <= a * y
  {
    assert a * y - a * x == a * (y - x);
  }

  lemma {:induction false} MulLeftStrict(a: real, x: real, y: real)
    requires a > 0.0 && x < y
    ensures a * x < a * y
  {
    assert a * y - a * x == a * (y - x);
  }

  /** Cancelling a positive factor: a * x <= a * y gives x <= y. */
  lemma {:induction false} MulLeftCancel(a: real, x: real, y: real)
    requires a > 0.0 && a * x <= a * y
    ensures x <= y
  {
    if x > y {
      MulLeftStrict(a, y, x);
    }
  }

  /** Cancelling a non-zero factor: a * x == a * y gives x == y. */
  lemma {:induction false} MulLeftCancelEq(a: real, x: real, y: real)
    requires a != 0.0 && a * x == a * y
    ensures x == y
  {
    assert a * (x - y) == 0.0;
  }

  /** The quotient is the one value that times the divisor gives the dividend. */
  lemma {:induction false} Quotient(a: real, d: real, q: real)
    requires d != 0.0
    ensures a / d == q <==> d * q == a
  {
  }

  lemma {:induction false} StepAtMost(p: real, q: real, m: real, x: real, e: real)
    requires q == p + 1.0 && x <= p * m && e <= m
    ensures x + e <= q * m
  {
  }

  lemma {:induction false} StepAtLeast(p: real, q: real, m: real, x: real, e: real)
    requires q == p + 1.0 && p * m <= x && m <= e
    ensures q * m <= x + e
  {
  }

  lemma {:induction false} StepConstant(p: real, q: real, b: real, x: real)
    requires q == p + 1.0 && x == p * b
    ensures x + b == q * b
  {
  }

  /** From x <= a*m and b*m <= y (a, b >= 0) follows b*x <= a*y. */
  lemma {:induction false} CrossMultiply(a: real, b: real, m: real, x: real, y: real)
    requires a >= 0.0 && b >= 0.0
    requires x <= a * m && b * m <= y
    ensures b * x <= a * y
  {
    MulLeftMono(b, x, a * m);
    MulLeftMono(a, b * m, y);
    assert b * (a * m) == a * (b * m);
  }

  /** Splitting n = r + h with t = x + y: from h*x <= r*y follows n*x <= r*t. */
  lemma {:induction false} WeighSplit(n: real, r: real, h: real, x: real, y: real, t: real)
    requires h == n - r && t == x + y && h * x <= r * y
    ensures n * x <= r * t
  {
    assert (n - r) * x == n * x - r * x;
    assert r * (x + y) == r * x + r * y;
  }

  /** WeighSplit with the inequality reversed. */
  lemma {:induction false} WeighSplitReverse(n: real, r: real, h: real, x: real, y: real, t: real)
    requires h == n - r && t == x + y && h * x >= r * y
    ensures n * x >= r * t
  {
    assert (n - r) * x == n * x - r * x;
    assert r * (x + y) == r * x + r * y;
  }

  lemma {:induction false} SumAtMost(s: seq<real>, m: real)
    requires forall i :: 0 <= i < |s| ==> s[i] <= m
    ensures Sum(s) <= |s| as real * m
    decreases |s|
  {
    if |s| > 0 {
      var s' := s[..|s| - 1];
      SumAtMost(s', m);
      StepAtMost(|s'| as real, |s| as real, m, Sum(s'), s[|s| - 1]);
    }
  }

  lemma {:induction false} SumAtLeast(s: seq<real>, m: real)
    requires forall i :: 0 <= i < |s| ==> m <= s[i]
    ensures |s| as real * m <= Sum(s)
    decreases |s|
  {
    if |s| > 0 {
      var s' := s[..|s| - 1];
      SumAtLeast(s', m);
      StepAtLeast(|s'| as real, |s| as real, m, Sum(s'), s[|s| - 1]);
    }
  }

  /** n equal balances sum to n times that balance. */
  lemma {:induction false} SumConstant(s: seq<real>, b: real)
    requires forall i :: 0 <= i < |s| ==> s[i] == b
    ensures Sum(s) == |s| as real * b
    decreases |s|
  {
    if |s| > 0 {
      var s' := s[..|s| - 1];
      SumConstant(s', b);
      StepConstant(|s'| as real, |s| as real, b, Sum(s'));
    }
  }

  lemma {:induction false} SumScale(s: seq<real>, c: real)
    ensures Sum(Scale(s, c)) == c * Sum(s)
    decreases |s|
  {
    if |s| > 0 {
      var s' := s[..|s| - 1];
      ScalePrefix(s, c, |s| - 1);
      SumScale(s', c);
      assert c * (Sum(s') + s[|s| - 1]) == c * Sum(s') + c * s[|s| - 1];
    }
  }

  /** Scaling a concatenation scales each part. */
  lemma {:induction false} ScaleConcat(a: seq<real>, b: seq<real>, c: real)
    ensures Scale(a + b, c) == Scale(a, c) + Scale(b, c)
  {
    var l, r := Scale(a + b, c), Scale(a, c) + Scale(b, c);
    assert |l| == |r|;
    forall i | 0 <= i < |l|
      ensures l[i] == r[i]
    {
      if i < |a| {
        assert r[i] == Scale(a, c)[i];
      } else {
        assert r[i] == Scale(b, c)[i - |a|];
      }
    }
  }

  lemma {:induction false} ScaleEmpty(c: real)
    ensures Scale([], c) == []
  {
  }

  lemma {:induction false} ScaleSingle(x: real, c: real)
    ensures Scale([x], c) == [c * x]
  {
    assert Scale([x], c)[0] == c * x;
  }

  /** A positive factor keeps the sign of a balance. */
  lemma {:induction false} SignScale(c: real, b: real)
    requires c > 0.0
    ensures c * b >= 0.0 <==> b >= 0.0
  {
    if b < 0.0 {
      MulLeftStrict(c, b, 0.0);
    } else {
      MulLeftMono(c, 0.0, b);
    }
  }

  lemma {:induction false} ScalePrefix(s: seq<real>, c: real, i: nat)
    requires i <= |s|
    ensures Scale(s, c)[..i] == Scale(s[..i], c)
  {
    var a, b := Scale(s, c)[..i], Scale(s[..i], c);
    assert |a| == |b|;
    forall j | 0 <= j < i
      ensures a[j] == b[j]
    {
      assert a[j] == Scale(s, c)[j] == c * s[j];
      assert b[j] == c * s[..i][j];
    }
  }

  /**
   * When every balance of `lo` is at most every balance of `hi`, the
   * average of `lo` is at most the average of `hi` (cross-multiplied).
   */
  lemma {:induction false} SplitAverage(lo: seq<real>, hi: seq<real>)
    requires AllAtMost(lo, hi)
    ensures |hi| as real * Sum(lo) <= |lo| as real * Sum(hi)
  {
    if |lo| > 0 && |hi| > 0 {
      var k := ArgMax(lo);
      SumAtMost(lo, lo[k]);
      SumAtLeast(hi, lo[k]);
      CrossMultiply(|lo| as real, |hi| as real, lo[k], Sum(lo), Sum(hi));
    } else if |lo| == 0 {
      assert Sum(lo) == 0.0;
      MulLeftMono(|hi| as real, Sum(lo), 0.0);
    } else {
      assert Sum(hi) == 0.0;
      MulLeftMono(|lo| as real, 0.0, Sum(hi));
    }
  }

  /** Cutting an ascending sequence leaves the smaller balances in front. */
  lemma {:induction false} AscendingSplit(s: seq<real>, i: nat)
    requires Ascending(s) && i <= |s|
    ensures AllAtMost(s[..i], s[i..])
  {
    var lo, hi := s[..i], s[i..];
    forall a, b | 0 <= a < |lo| && 0 <= b < |hi|
      ensures lo[a] <= hi[b]
    {
      assert lo[a] == s[a] && hi[b] == s[i + b];
    }
  }

  /** Cutting a descending sequence leaves the larger balances in front. */
  lemma {:induction false} DescendingSplit(s: seq<real>, k: nat)
    requires Descending(s) && k <= |s|
    ensures AllAtMost(s[k..], s[..k])
  {
    var hi, lo := s[..k], s[k..];
    forall a, b | 0 <= a < |lo| && 0 <= b < |hi|
      ensures lo[a] <= hi[b]
    {
      assert lo[a] == s[k + a] && hi[b] == s[b];
    }
  }

  /** Sum of a sequence cut at i is the sum of the two pieces. */
  lemma {:induction false} SumSplit(s: seq<real>, i: nat)
    requires i <= |s|
    ensures Sum(s) == Sum(s[..i]) + Sum(s[i..])
  {
    assert s == s[..i] + s[i..];
    SumConcat(s[..i], s[i..]);
  }

  /**
   * In ascending order the first i balances average at most the whole:
   * n * Sum(s[..i]) <= i * Sum(s).
   */
  lemma {:induction false} PrefixAverageAscending(s: seq<real>, i: nat)
    requires Ascending(s) && i <= |s|
    ensures |s| as real * Sum(s[..i]) <= i as real * Sum(s)
  {
    AscendingSplit(s, i);
    SplitAverage(s[..i], s[i..]);
    WeighPrefix(s, i);
  }

  lemma {:induction false} WeighPrefix(s: seq<real>, i: nat)
    requires i <= |s|
    requires |s[i..]| as real * Sum(s[..i]) <= |s[..i]| as real * Sum(s[i..])
    ensures |s| as real * Sum(s[..i]) <= i as real * Sum(s)
  {
    var lo, hi := s[..i], s[i..];
    SumSplit(s, i);
    assert |lo| == i;
    WeighSplit(|s| as real, i as real, |hi| as real, Sum(lo), Sum(hi), Sum(s));
  }

  /**
   * In descending order the first k balances average at least the whole:
   * n * Sum(s[..k]) >= k * Sum(s).
   */
  lemma {:induction false} PrefixAverageDescending(s: seq<real>, k: nat)
    requires Descending(s) && k <= |s|
    ensures |s| as real * Sum(s[..k]) >= k as real * Sum(s)
  {
    DescendingSplit(s, k);
    SplitAverage(s[k..], s[..k]);
    WeighPrefixReverse(s, k);
  }

  lemma {:induction false} WeighPrefixReverse(s: seq<real>, k: nat)
    requires k <= |s|
    requires |s[..k]| as real * Sum(s[k..]) <= |s[k..]| as real * Sum(s[..k])
    ensures |s| as real * Sum(s[..k]) >= k as real * Sum(s)
  {
    var hi, lo := s[..k], s[k..];
    SumSplit(s, k);
    assert |hi| == k;
    WeighSplitReverse(|s| as real, k as real, |lo| as real, Sum(hi), Sum(lo), Sum(s));
  }
}
