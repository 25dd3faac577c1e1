/**
 * The window orderings `ORDER BY balance DESC` (top-10 share and deciles)
 * and `ORDER BY balance ASC` (Lorenz curve), as a functional insertion
 * sort. `DescendingUnique` shows that any descending arrangement of the
 * same balances is this one, so how the engine breaks ties between equal
 * balances cannot change a result.
 */
module Ranking {
  import opened Balances

  /** Places x into a descending sequence. */
  function Insert(x: real, s: seq<real>): (r: seq<real>)
    requires Descending(s)
    ensures Descending(r)
    ensures multiset(r) == multiset(s) + multiset{x}
    ensures |r| == |s| + 1
    ensures r[0] == (if |s| == 0 || x >= s[0] then x else s[0])
    decreases |s|
  {
    if |s| == 0 then [x]
    else if x >= s[0] then [x] + s
    else
      var rest := Insert(x, s[1..]);
      assert s == [s[0]] + s[1..];
      assert s[0] >= rest[0];
      assert forall j :: 0 <= j < |rest| ==> s[0] >= rest[j];
      [s[0]] + rest
  }

  /** Insertion sort, largest first. */
  function InsertionSort(s: seq<real>): (r: seq<real>)
    ensures Descending(r)
    ensures multiset(r) == multiset(s)
    ensures |r| == |s|
    decreases |s|
  {
    if |s| == 0 then []
    else
      assert s == [s[0]] + s[1..];
      Insert(s[0], InsertionSort(s[1..]))
  }

  /**
   * The rows ranked by balance, largest first: a descending permutation of
   * the rows, computed by insertion sort.
   */
  function SortDescending(s: seq<real>): (r: seq<real>)
    ensures Descending(r)
    ensures multiset(r) == multiset(s)
    ensures |r| == |s|
  {
    InsertionSort(s)
  }

  function Reverse(s: seq<real>): (r: seq<real>)
    ensures |r| == |s|
    ensures forall i :: 0 <= i < |s| ==> r[i] == s[|s| - 1 - i]
  {
    seq(|s|, i requires 0 <= i < |s| => s[|s| - 1 - i])
  }

  /** The rows ranked by balance, smallest first. */
  function SortAscending(s: seq<real>): (r: seq<real>)
    ensures Ascending(r)
    ensures multiset(r) == multiset(s)
    ensures |r| == |s|
  {
    var d := SortDescending(s);
    var r := Reverse(d);
    ReverseMultiset(d);
    r
  }

  lemma {:induction false} ReverseMultiset(s: seq<real>)
    ensures multiset(Reverse(s)) == multiset(s)
    decreases |s|
  {
    if |s| > 0 {
      var t := s[..|s| - 1];
      ReverseMultiset(t);
      assert Reverse(s) == [s[|s| - 1]] + Reverse(t);
      assert s == t + [s[|s| - 1]];
    }
  }

  /** The first element of a descending sequence is its largest. */
  lemma {:induction false} HeadIsLargest(s: seq<real>, x: real)
    requires Descending(s) && x in multiset(s)
    ensures |s| > 0 && x <= s[0]
  {
  }

  /**
   * A multiset of balances has exactly one descending arrangement: the
   * ranking does not depend on how ties are broken.
   */
  lemma {:induction false} DescendingUnique(s: seq<real>, t: seq<real>)
    requires Descending(s) && Descending(t)
    requires multiset(s) == multiset(t)
    ensures s == t
    decreases |s|
  {
    if |s| > 0 {
      assert |s| == |t| && s[0] == t[0] by {
        HeadsAgree(s, t);
      }
      assert multiset(s[1..]) == multiset(t[1..]) by {
        TailMultiset(s);
        TailMultiset(t);
      }
      assert Descending(s[1..]) && Descending(t[1..]);
      DescendingUnique(s[1..], t[1..]);
      assert s == [s[0]] + s[1..];
      assert t == [t[0]] + t[1..];
    }
  }

  /** Two descending arrangements of one non-empty multiset start with the same balance. */
  lemma {:induction false} HeadsAgree(s: seq<real>, t: seq<real>)
    requires Descending(s) && Descending(t)
    requires multiset(s) == multiset(t) && |s| > 0
    ensures |s| == |t| && s[0] == t[0]
  {
    assert |t| == |multiset(t)| == |multiset(s)| == |s|;
    assert s[0] in multiset(s);
    assert t[0] in multiset(t);
    HeadIsLargest(t, s[0]);
    HeadIsLargest(s, t[0]);
  }

  /** Dropping the first element removes one copy of it from the multiset. */
  lemma {:induction false} TailMultiset(s: seq<real>)
    requires |s| > 0
    ensures multiset(s[1..]) == multiset(s) - multiset{s[0]}
  {
    assert s == [s[0]] + s[1..];
    assert multiset(s) == multiset{s[0]} + multiset(s[1..]);
  }

  /** Any ranking of the rows, however ties are broken, is `SortDescending` of them. */
  lemma {:induction false} RankingIsSort(rows: seq<real>, ranked: seq<real>)
    requires Descending(ranked) && multiset(ranked) == multiset(rows)
    ensures ranked == SortDescending(rows)
  {
    DescendingUnique(ranked, SortDescending(rows));
  }

  /*
   * A positive factor does not change the order of the balances.
   */

  lemma {:induction false} ScaleDescending(s: seq<real>, c: real)
    requires c > 0.0 && Descending(s)
    ensures Descending(Scale(s, c))
  {
    forall i, j | 0 <= i < j < |s|
      ensures c * s[i] >= c * s[j]
    {
      MulLeftMono(c, s[j], s[i]);
    }
  }

  /** Equal multisets of balances stay equal when every balance is scaled. */
  lemma {:induction false} ScaleMultiset(a: seq<real>, b: seq<real>, c: real)
    requires multiset(a) == multiset(b)
    ensures multiset(Scale(a, c)) == multiset(Scale(b, c))
    decreases |a|
  {
    if |a| == 0 {
      assert |b| == |multiset(b)| == 0;
    } else {
      var x := a[|a| - 1];
      var front := a[..|a| - 1];
      assert a == front + [x];
      assert multiset(front) == multiset(a) - multiset{x};
      assert x in multiset(b);
      var j :| 0 <= j < |b| && b[j] == x;
      var rest := Without(b, j);
      ScaleMultiset(front, rest, c);
      ScaleWithout(b, j, c);
      ScaleLast(a, c);
      ScaleAt(a, |a| - 1, b, j, c);
    }
  }

  /** Equal balances scale to equal balances. */
  lemma {:induction false} ScaleAt(a: seq<real>, i: nat, b: seq<real>, j: nat, c: real)
    requires i < |a| && j < |b| && a[i] == b[j]
    ensures Scale(a, c)[i] == Scale(b, c)[j]
  {
  }

  /** Scaling the rows but one is removing that one from the scaled rows. */
  lemma {:induction false} ScaleWithout(b: seq<real>, j: nat, c: real)
    requires j < |b|
    ensures multiset(Scale(b, c)) == multiset(Scale(Without(b, j), c)) + multiset{Scale(b, c)[j]}
  {
    var t := Scale(b, c);
    var l, r := Scale(Without(b, j), c), Without(t, j);
    forall i | 0 <= i < |l|
      ensures l[i] == r[i]
    {
      if i < j {
        assert l[i] == c * b[i] && r[i] == t[i];
      } else {
        assert l[i] == c * b[i + 1] && r[i] == t[i + 1];
      }
    }
    assert l == r;
    assert t[j] == c * b[j];
  }

  /** The scaled rows are the scaled front plus the scaled last row. */
  lemma {:induction false} ScaleLast(a: seq<real>, c: real)
    requires |a| > 0
    ensures multiset(Scale(a, c)) == multiset(Scale(a[..|a| - 1], c)) + multiset{Scale(a, c)[|a| - 1]}
  {
    var front := a[..|a| - 1];
    assert a == front + [a[|a| - 1]];
    ScaleConcat(front, [a[|a| - 1]], c);
    ScaleSingle(a[|a| - 1], c);
  }

  lemma {:induction false} ReverseScale(d: seq<real>, c: real)
    ensures Reverse(Scale(d, c)) == Scale(Reverse(d), c)
  {
    var l, r := Reverse(Scale(d, c)), Scale(Reverse(d), c);
    forall i | 0 <= i < |l|
      ensures l[i] == r[i]
    {
      assert l[i] == Scale(d, c)[|d| - 1 - i];
      assert r[i] == c * Reverse(d)[i];
    }
  }

  /** Scaling every balance by c > 0 scales the ascending ranking by c. */
  lemma {:induction false} AscendingScale(s: seq<real>, c: real)
    requires c > 0.0
    ensures SortAscending(Scale(s, c)) == Scale(SortAscending(s), c)
  {
    var d := SortDescending(s);
    ScaleDescending(d, c);
    ScaleMultiset(d, s, c);
    RankingIsSort(Scale(s, c), Scale(d, c));
    ReverseScale(d, c);
  }

  /** Removing one row from a sequence. */
  function Without(s: seq<real>, j: nat): (r: seq<real>)
    requires j < |s|
    ensures multiset(r) == multiset(s) - multiset{s[j]}
    ensures |r| == |s| - 1
  {
    assert s == s[..j] + [s[j]] + s[j + 1..];
    s[..j] + s[j + 1..]
  }

  /** The sum of the other rows plus the removed one. */
  lemma {:induction false} SumWithout(b: seq<real>, j: nat)
    requires j < |b|
    ensures Sum(b) == Sum(Without(b, j)) + b[j]
  {
    var x := b[j];
    assert b == (b[..j] + [x]) + b[j + 1..];
    SumConcat(b[..j] + [x], b[j + 1..]);
    SumConcat(b[..j], [x]);
    SumConcat(b[..j], b[j + 1..]);
    SumSingle(x);
  }

  /** SUM does not depend on the order of the rows. */
  lemma {:induction false} SumPermutation(a: seq<real>, b: seq<real>)
    requires multiset(a) == multiset(b)
    ensures Sum(a) == Sum(b)
    decreases |a|
  {
    if |a| == 0 {
      assert |b| == |multiset(b)| == 0;
    } else {
      var x := a[|a| - 1];
      var front := a[..|a| - 1];
      assert a == front + [x];
      assert multiset(front) == multiset(a) - multiset{x};
      assert x in multiset(b);
      var j :| 0 <= j < |b| && b[j] == x;
      SumPermutation(front, Without(b, j));
      SumWithout(b, j);
    }
  }
}
