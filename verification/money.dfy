/**
 * Amounts of money. Every stored amount of the tracker is a `decimal(10,2)`
 * column, so the model counts whole cents with unbounded integers and keeps
 * the column's range as a separate predicate.
 */
module Money {
  import opened Seqs

  /** An amount in cents: 100.00 KSh is 10000. */
  type Cents = int

  /** The smallest withdrawal either client or server accepts: KSh 100. */
  const MinWithdrawal: Cents := 10000

  /** The largest magnitude a `decimal(10,2)` column holds: 99,999,999.99. */
  const DecimalLimit: Cents := 9_999_999_999

  /** The amount is storable in a `decimal(10,2)` column. */
  predicate FitsDecimal(c: Cents)
  {
    -DecimalLimit <= c <= DecimalLimit
  }

  function Min(a: int, b: int): (m: int)
    ensures m <= a && m <= b
    ensures m == a || m == b
  {
    if a <= b then a else b
  }

  /** The total of a list of amounts. */
  function Sum(xs: seq<int>): int
    decreases |xs|
  {
    if |xs| == 0 then 0 else xs[0] + Sum(xs[1..])
  }

  /**
   * `xs.reduce((sum, x) => sum + x, acc)`: the running total, front to back,
   * starting from `acc`.
   */
  function Reduce(acc: int, xs: seq<int>): int
    decreases |xs|
  {
    if |xs| == 0 then acc else Reduce(acc + xs[0], xs[1..])
  }

  /** The front-to-back running total ends at the starting value plus the total. */
  lemma {:induction false} ReduceIsSum(acc: int, xs: seq<int>)
    ensures Reduce(acc, xs) == acc + Sum(xs)
    decreases |xs|
  {
    if |xs| > 0 {
      ReduceIsSum(acc + xs[0], xs[1..]);
    }
  }

  /** The total of the positive amounts only. */
  function SumPos(xs: seq<int>): (r: int)
    ensures r >= 0
    decreases |xs|
  {
    if |xs| == 0 then 0 else (if xs[0] > 0 then xs[0] else 0) + SumPos(xs[1..])
  }

  lemma {:induction false} SumAppend(a: seq<int>, b: seq<int>)
    ensures Sum(a + b) == Sum(a) + Sum(b)
    decreases |a|
  {
    if |a| == 0 {
      assert a + b == b;
    } else {
      assert (a + b)[1..] == a[1..] + b;
      SumAppend(a[1..], b);
    }
  }

  /** Dropping the negative amounts can only raise the total. */
  lemma {:induction false} SumAtMostSumPos(xs: seq<int>)
    ensures Sum(xs) <= SumPos(xs)
    decreases |xs|
  {
    if |xs| > 0 {
      SumAtMostSumPos(xs[1..]);
    }
  }

  /** Changing one amount changes the total by the same difference. */
  lemma {:induction false} SumUpdate(xs: seq<int>, i: nat, v: int)
    requires i < |xs|
    ensures Sum(xs[i := v]) == Sum(xs) - xs[i] + v
    decreases |xs|
  {
    if i > 0 {
      assert xs[i := v][1..] == xs[1..][i - 1 := v];
      SumUpdate(xs[1..], i - 1, v);
    }
  }

  /** Amounts that are all non-negative and total zero are all zero. */
  lemma {:induction false} ZeroSumOfNonNegatives(xs: seq<int>)
    requires forall k :: 0 <= k < |xs| ==> xs[k] >= 0
    requires Sum(xs) == 0
    ensures forall k :: 0 <= k < |xs| ==> xs[k] == 0
    decreases |xs|
  {
    if |xs| > 0 {
      NonNegativeSum(xs[1..]);
      ZeroSumOfNonNegatives(xs[1..]);
      forall k | 0 < k < |xs| ensures xs[k] == 0 {
        assert xs[k] == xs[1..][k - 1];
      }
    }
  }

  lemma {:induction false} NonNegativeSum(xs: seq<int>)
    requires forall k :: 0 <= k < |xs| ==> xs[k] >= 0
    ensures Sum(xs) >= 0
    decreases |xs|
  {
    if |xs| > 0 {
      NonNegativeSum(xs[1..]);
    }
  }

  /** Negating every amount negates the total. */
  lemma {:induction false} SumNegate(xs: seq<int>, ys: seq<int>)
    requires |xs| == |ys|
    requires forall k :: 0 <= k < |xs| ==> ys[k] == -xs[k]
    ensures Sum(ys) == -Sum(xs)
    decreases |xs|
  {
    if |xs| > 0 {
      SumNegate(xs[1..], ys[1..]);
    }
  }

  /** Of two or more positive amounts, the last falls short of the total. */
  lemma {:induction false} LastBelowSum(xs: seq<int>)
    requires |xs| >= 2
    requires forall k :: 0 <= k < |xs| ==> xs[k] > 0
    ensures xs[|xs| - 1] < Sum(xs)
    decreases |xs|
  {
    if |xs| == 2 {
      assert Sum(xs[1..]) == xs[1] + Sum(xs[1..][1..]);
      assert xs[1..][1..] == [];
    } else {
      LastBelowSum(xs[1..]);
      NonNegativeSum(xs[1..]);
    }
  }

  /** Two lists that agree position by position except at positions where the second is no larger have no larger total. */
  lemma {:induction false} SumMonotone(xs: seq<int>, ys: seq<int>)
    requires |xs| == |ys|
    requires forall k :: 0 <= k < |xs| ==> xs[k] <= ys[k]
    ensures Sum(xs) <= Sum(ys)
    decreases |xs|
  {
    if |xs| > 0 {
      SumMonotone(xs[1..], ys[1..]);
    }
  }

  /** Inserting into a list adds the inserted element's amount to the total. */
  lemma {:induction false} SumMapInsert<T(!new)>(x: T, s: seq<T>, key: T -> int, f: T -> int)
    ensures Sum(Map(Insert(x, s, key), f)) == f(x) + Sum(Map(s, f))
    decreases |s|
  {
    if |s| == 0 || key(x) >= key(s[0]) {
      assert Map([x] + s, f)[1..] == Map(s, f);
    } else {
      var t := Insert(x, s[1..], key);
      assert Map([s[0]] + t, f)[1..] == Map(t, f);
      assert Map(s, f)[1..] == Map(s[1..], f);
      SumMapInsert(x, s[1..], key, f);
    }
  }

  /** Reordering a list by the sort leaves any total over it unchanged. */
  lemma {:induction false} SumMapSortDesc<T(!new)>(s: seq<T>, key: T -> int, f: T -> int)
    ensures Sum(Map(SortDesc(s, key), f)) == Sum(Map(s, f))
    decreases |s|
  {
    if |s| > 0 {
      SumMapSortDesc(s[1..], key, f);
      SumMapInsert(s[0], SortDesc(s[1..], key), key, f);
      assert Map(s, f)[1..] == Map(s[1..], f);
    }
  }

  /**
   * Totalling over the elements a filter keeps is totalling over all
   * elements with `g`, where `g` is `f` on the kept ones and zero elsewhere.
   */
  lemma {:induction false} SumMapFilter<T(!new)>(s: seq<T>, p: T -> bool, f: T -> int, g: T -> int)
    requires forall x :: x in s ==> g(x) == (if p(x) then f(x) else 0)
    ensures Sum(Map(Filter(s, p), f)) == Sum(Map(s, g))
    decreases |s|
  {
    if |s| > 0 {
      assert forall x :: x in s[1..] ==> x in s;
      SumMapFilter(s[1..], p, f, g);
      assert Map(s, g)[1..] == Map(s[1..], g);
      if p(s[0]) {
        assert Map([s[0]] + Filter(s[1..], p), f)[1..] == Map(Filter(s[1..], p), f);
      }
    }
  }
}
