/**
 * Generic sequence operations the stores and pages are built from: an
 * order-preserving filter, a first-match lookup, a bounded prefix, and the
 * stable descending sort that JavaScript's `Array.prototype.sort` performs
 * with a `b - a` comparator.
 */
module Seqs {
  import opened Results

  /** `a` can be obtained from `b` by deleting elements, keeping the order of the rest. */
  predicate IsSubsequence<T(==)>(a: seq<T>, b: seq<T>)
    decreases |b|
  {
    if |b| == 0 then |a| == 0
    else (|a| > 0 && a[0] == b[0] && IsSubsequence(a[1..], b[1..])) || IsSubsequence(a, b[1..])
  }

  /** The elements of `s` that satisfy `p`, in their original order. */
  function Filter<T(==,!new)>(s: seq<T>, p: T -> bool): (r: seq<T>)
    ensures |r| <= |s|
    ensures forall x :: x in r <==> x in s && p(x)
    decreases |s|
  {
    if |s| == 0 then []
    else if p(s[0]) then [s[0]] + Filter(s[1..], p)
    else Filter(s[1..], p)
  }

  /** The image of every element of `s` under `f`, position by position. */
  function Map<T, U>(s: seq<T>, f: T -> U): (r: seq<U>)
    ensures |r| == |s|
    ensures forall k :: 0 <= k < |s| ==> r[k] == f(s[k])
    decreases |s|
  {
    if |s| == 0 then [] else [f(s[0])] + Map(s[1..], f)
  }

  lemma MapCons<T, U>(s: seq<T>, f: T -> U)
    requires |s| > 0
    ensures Map(s, f) == [f(s[0])] + Map(s[1..], f)
  {
  }

  /** Mapping twice is mapping once when the function settles every element after one application. */
  lemma MapIdempotent<T>(s: seq<T>, f: T -> T)
    requires forall k :: 0 <= k < |s| ==> f(f(s[k])) == f(s[k])
    ensures Map(Map(s, f), f) == Map(s, f)
  {
    assert forall k :: 0 <= k < |s| ==> Map(Map(s, f), f)[k] == Map(s, f)[k];
  }

  /** The first element of `s` satisfying `p`, as `Array.prototype.find` returns it. */
  function Find<T(==,!new)>(s: seq<T>, p: T -> bool): (r: Option<T>)
    ensures r.None? <==> forall x :: x in s ==> !p(x)
    ensures r.Some? ==> exists i :: 0 <= i < |s| && s[i] == r.value && p(s[i]) && forall j :: 0 <= j < i ==> !p(s[j])
    decreases |s|
  {
    if |s| == 0 then None
    else if p(s[0]) then Some(s[0])
    else
      var r := Find(s[1..], p);
      assert s == [s[0]] + s[1..];
      assert r.Some? ==> exists i :: 0 < i < |s| && s[i] == r.value && p(s[i]) && forall j :: 0 <= j < i ==> !p(s[j]) by {
        if r.Some? {
          var i :| 0 <= i < |s[1..]| && s[1..][i] == r.value && p(s[1..][i]) && forall j :: 0 <= j < i ==> !p(s[1..][j]);
          assert s[i + 1] == r.value;
          assert forall j :: 0 <= j < i + 1 ==> !p(s[j]) by {
            forall j | 0 <= j < i + 1 ensures !p(s[j]) {
              if j > 0 { assert s[j] == s[1..][j - 1]; }
            }
          }
        }
      }
      r
  }

  /** `Find` returns the element at the first position that satisfies `p`. */
  lemma {:induction false} FindIsFirst<T(!new)>(s: seq<T>, p: T -> bool, i: nat)
    requires i < |s| && p(s[i])
    requires forall j :: 0 <= j < i ==> !p(s[j])
    ensures Find(s, p) == Some(s[i])
    decreases i
  {
    if i > 0 {
      FindIsFirst(s[1..], p, i - 1);
    }
  }

  /** The first `min(n, |s|)` elements, as `Array.prototype.slice(0, n)` returns them. */
  function Take<T>(s: seq<T>, n: nat): (r: seq<T>)
    ensures |r| == if n < |s| then n else |s|
    ensures r == s[..|r|]
  {
    if n < |s| then s[..n] else s
  }

  /** The naturals `0, 1, ..., n - 1` in increasing order: the row positions of a table with `n` rows. */
  function Range(n: nat): (r: seq<nat>)
    ensures |r| == n
    ensures forall k :: 0 <= k < n ==> r[k] == k
  {
    if n == 0 then [] else Range(n - 1) + [n - 1]
  }

  /** No element occurs twice. */
  predicate Distinct<T(==)>(s: seq<T>)
  {
    forall i, j :: 0 <= i < j < |s| ==> s[i] != s[j]
  }

  /** Putting a new element in front of a list without repetitions keeps it so. */
  lemma DistinctCons<T>(x: T, s: seq<T>)
    requires Distinct(s) && x !in s
    ensures Distinct([x] + s)
  {
    var t := [x] + s;
    forall i, j | 0 <= i < j < |t| ensures t[i] != t[j] {
      assert t[j] == s[j - 1];
      if i > 0 {
        assert t[i] == s[i - 1];
      }
    }
  }

  /** A list without repetitions stays so without its head, and the head does not recur. */
  lemma DistinctTail<T>(s: seq<T>)
    requires |s| > 0 && Distinct(s)
    ensures Distinct(s[1..]) && s[0] !in s[1..]
  {
    forall j | 0 <= j < |s| - 1 ensures s[1..][j] != s[0] {
      assert s[1..][j] == s[j + 1];
    }
  }

  /** Every element's key is at least the key of every later element. */
  predicate SortedDesc<T>(s: seq<T>, key: T -> int)
  {
    forall i, j :: 0 <= i < j < |s| ==> key(s[i]) >= key(s[j])
  }

  /** Cutting a sequence sorted largest first: nothing after the cut has a larger key than anything before it. */
  lemma SortedSplit<T>(s: seq<T>, n: nat, key: T -> int)
    requires SortedDesc(s, key) && n <= |s|
    ensures forall x, y :: x in s[..n] && y in s[n..] ==> key(x) >= key(y)
  {
    forall x, y | x in s[..n] && y in s[n..] ensures key(x) >= key(y) {
      var i :| 0 <= i < n && s[..n][i] == x;
      var j :| 0 <= j < |s| - n && s[n..][j] == y;
      assert s[i] == x && s[n + j] == y;
    }
  }

  /** The elements whose key is exactly `k`. */
  function WithKey<T(==,!new)>(s: seq<T>, key: T -> int, k: int): seq<T>
  {
    Filter(s, x => key(x) == k)
  }

  /** Places `x` in front of the first element whose key does not exceed its own. */
  function Insert<T(==,!new)>(x: T, s: seq<T>, key: T -> int): (r: seq<T>)
    ensures |r| == |s| + 1
    ensures multiset(r) == multiset(s) + multiset{x}
    decreases |s|
  {
    if |s| == 0 || key(x) >= key(s[0]) then [x] + s
    else
      assert s == [s[0]] + s[1..];
      [s[0]] + Insert(x, s[1..], key)
  }

  /** Stable sort by descending key: the newest-first order of the transaction and withdrawal listings. */
  function SortDesc<T(==,!new)>(s: seq<T>, key: T -> int): (r: seq<T>)
    ensures |r| == |s|
    ensures multiset(r) == multiset(s)
    ensures SortedDesc(r, key)
    decreases |s|
  {
    if |s| == 0 then []
    else
      assert s == [s[0]] + s[1..];
      var t := SortDesc(s[1..], key);
      InsertKeepsSorted(s[0], t, key);
      Insert(s[0], t, key)
  }

  /** An element of `Insert(x, s, key)` is `x` or an element of `s`. */
  lemma InsertMembers<T(!new)>(x: T, s: seq<T>, key: T -> int, y: T)
    requires y in Insert(x, s, key)
    ensures y == x || y in s
  {
    assert y in multiset(Insert(x, s, key));
  }

  /** Inserting into a sequence sorted by descending key keeps it sorted. */
  lemma {:induction false} InsertKeepsSorted<T(!new)>(x: T, s: seq<T>, key: T -> int)
    requires SortedDesc(s, key)
    ensures SortedDesc(Insert(x, s, key), key)
    decreases |s|
  {
    if |s| == 0 || key(x) >= key(s[0]) {
      var r := [x] + s;
      forall i, j | 0 <= i < j < |r| ensures key(r[i]) >= key(r[j]) {
        if i == 0 {
          assert r[j] == s[j - 1];
        } else {
          assert r[i] == s[i - 1] && r[j] == s[j - 1];
        }
      }
    } else {
      assert SortedDesc(s[1..], key);
      InsertKeepsSorted(x, s[1..], key);
      var t := Insert(x, s[1..], key);
      var r := [s[0]] + t;
      forall i, j | 0 <= i < j < |r| ensures key(r[i]) >= key(r[j]) {
        if i == 0 {
          assert r[j] == t[j - 1];
          InsertMembers(x, s[1..], key, r[j]);
          if r[j] != x {
            var m :| 0 <= m < |s[1..]| && s[1..][m] == r[j];
            assert s[m + 1] == r[j];
          }
        } else {
          assert r[i] == t[i - 1] && r[j] == t[j - 1];
        }
      }
    }
  }

  /** Deleting elements from a sequence leaves a subsequence of it. */
  lemma {:induction false} FilterIsSubsequence<T(!new)>(s: seq<T>, p: T -> bool)
    ensures IsSubsequence(Filter(s, p), s)
    decreases |s|
  {
    if |s| > 0 {
      FilterIsSubsequence(s[1..], p);
      if p(s[0]) {
        assert ([s[0]] + Filter(s[1..], p))[1..] == Filter(s[1..], p);
      }
    }
  }

  /** Every sequence is a subsequence of itself. */
  lemma {:induction false} SubsequenceReflexive<T>(s: seq<T>)
    ensures IsSubsequence(s, s)
    decreases |s|
  {
    if |s| > 0 {
      SubsequenceReflexive(s[1..]);
    }
  }

  /** Being a subsequence is transitive. */
  lemma {:induction false} SubsequenceTransitive<T(!new)>(a: seq<T>, b: seq<T>, c: seq<T>)
    requires IsSubsequence(a, b) && IsSubsequence(b, c)
    ensures IsSubsequence(a, c)
    decreases |c|
  {
    if |c| == 0 {
    } else if |b| > 0 && b[0] == c[0] && IsSubsequence(b[1..], c[1..]) {
      if |a| > 0 && a[0] == b[0] && IsSubsequence(a[1..], b[1..]) {
        SubsequenceTransitive(a[1..], b[1..], c[1..]);
      } else {
        assert IsSubsequence(a, b[1..]);
        SubsequenceTransitive(a, b[1..], c[1..]);
      }
    } else {
      SubsequenceTransitive(a, b, c[1..]);
    }
  }

  /** A prefix one element longer is the shorter prefix with that element appended. */
  lemma TakeSnoc<T>(s: seq<T>, i: nat)
    requires i < |s|
    ensures s[..i + 1] == s[..i] + [s[i]]
  {
  }

  /** Filtering a sequence with a known first element. */
  lemma FilterCons<T(!new)>(x: T, s: seq<T>, p: T -> bool)
    ensures Filter([x] + s, p) == if p(x) then [x] + Filter(s, p) else Filter(s, p)
  {
    assert ([x] + s)[1..] == s;
  }

  /** A filter nothing passes keeps nothing. */
  lemma {:induction false} FilterNone<T(!new)>(s: seq<T>, p: T -> bool)
    requires forall k :: 0 <= k < |s| ==> !p(s[k])
    ensures Filter(s, p) == []
    decreases |s|
  {
    if |s| > 0 {
      FilterNone(s[1..], p);
    }
  }

  /** Filtering distributes over concatenation. */
  lemma {:induction false} FilterAppend<T(!new)>(a: seq<T>, b: seq<T>, p: T -> bool)
    ensures Filter(a + b, p) == Filter(a, p) + Filter(b, p)
    decreases |a|
  {
    if |a| > 0 {
      assert (a + b)[1..] == a[1..] + b;
      assert (a + b)[0] == a[0];
      FilterAppend(a[1..], b, p);
    } else {
      assert a + b == b;
    }
  }

  /** How many elements of `s` satisfy `p`, counted from the back. */
  function Count<T>(s: seq<T>, p: T -> bool): (n: nat)
    ensures n <= |s|
    decreases |s|
  {
    if |s| == 0 then 0 else (if p(s[|s| - 1]) then 1 else 0) + Count(s[..|s| - 1], p)
  }

  /** A filter keeps exactly as many elements as satisfy its predicate. */
  lemma {:induction false} FilterLengthIsCount<T(!new)>(s: seq<T>, p: T -> bool)
    ensures |Filter(s, p)| == Count(s, p)
    decreases |s|
  {
    if |s| > 0 {
      var init, last := s[..|s| - 1], s[|s| - 1];
      assert s == init + [last];
      FilterAppend(init, [last], p);
      assert Filter([last], p) == if p(last) then [last] else [];
      FilterLengthIsCount(init, p);
    }
  }

  /** A filter keeps every element exactly when every element satisfies it. */
  lemma {:induction false} FilterKeepsAll<T(!new)>(s: seq<T>, p: T -> bool)
    ensures |Filter(s, p)| == |s| <==> forall i :: 0 <= i < |s| ==> p(s[i])
    decreases |s|
  {
    if |s| > 0 {
      FilterKeepsAll(s[1..], p);
      assert forall i :: 1 <= i < |s| ==> s[i] == s[1..][i - 1];
      if !p(s[0]) {
        assert |Filter(s, p)| <= |s[1..]|;
      }
    }
  }

  /** A filter everything passes keeps the list as it is. */
  lemma {:induction false} FilterAll<T(!new)>(s: seq<T>, p: T -> bool)
    requires forall k :: 0 <= k < |s| ==> p(s[k])
    ensures Filter(s, p) == s
    decreases |s|
  {
    if |s| > 0 {
      FilterAll(s[1..], p);
    }
  }

  /** Mapping a concatenation maps each part. */
  lemma {:induction false} MapAppend<T, U>(a: seq<T>, b: seq<T>, f: T -> U)
    ensures Map(a + b, f) == Map(a, f) + Map(b, f)
  {
    var m := Map(a + b, f);
    assert forall k :: 0 <= k < |a| ==> m[k] == f(a[k]);
    assert forall k :: |a| <= k < |a| + |b| ==> m[k] == f(b[k - |a|]);
  }

  /** The naturals below `n` are distinct. */
  lemma RangeDistinct(n: nat)
    ensures Distinct(Range(n))
  {
    var r := Range(n);
    forall i, j | 0 <= i < j < |r| ensures r[i] != r[j] {
      assert r[i] == i && r[j] == j;
    }
  }

  /** Filtering keeps a sequence free of repetitions. */
  lemma {:induction false} FilterKeepsDistinct<T(!new)>(s: seq<T>, p: T -> bool)
    requires Distinct(s)
    ensures Distinct(Filter(s, p))
    decreases |s|
  {
    if |s| > 0 {
      var tail := s[1..];
      assert Distinct(tail);
      FilterKeepsDistinct(tail, p);
      if p(s[0]) {
        var t := Filter(tail, p);
        forall j | 0 <= j < |tail| ensures tail[j] != s[0] {
          assert tail[j] == s[j + 1];
        }
        var r := [s[0]] + t;
        forall i, j | 0 <= i < j < |r| ensures r[i] != r[j] {
          assert r[j] == t[j - 1];
          if i > 0 {
            assert r[i] == t[i - 1];
          }
        }
      }
    }
  }

  /** Two filters applied one after the other keep the same elements, in the same order, either way round. */
  lemma {:induction false} FilterCommutes<T(!new)>(s: seq<T>, p: T -> bool, q: T -> bool)
    ensures Filter(Filter(s, p), q) == Filter(Filter(s, q), p)
    decreases |s|
  {
    if |s| > 0 {
      var x, tail := s[0], s[1..];
      FilterCommutes(tail, p, q);
      FilterCons(x, Filter(tail, p), q);
      FilterCons(x, Filter(tail, q), p);
    }
  }

  /** An element whose key is at least every key of a sorted sequence can lead it. */
  lemma SortedCons<T>(x: T, t: seq<T>, key: T -> int)
    requires SortedDesc(t, key)
    requires forall y :: y in t ==> key(x) >= key(y)
    ensures SortedDesc([x] + t, key)
  {
    var r := [x] + t;
    forall i, j | 0 <= i < j < |r| ensures key(r[i]) >= key(r[j]) {
      assert r[j] == t[j - 1];
      if i > 0 {
        assert r[i] == t[i - 1];
      }
    }
  }

  /** Filtering a sequence sorted by descending key leaves it sorted. */
  lemma {:induction false} FilterKeepsSorted<T(!new)>(s: seq<T>, p: T -> bool, key: T -> int)
    requires SortedDesc(s, key)
    ensures SortedDesc(Filter(s, p), key)
    decreases |s|
  {
    if |s| > 0 {
      var tail := s[1..];
      assert SortedDesc(tail, key);
      FilterKeepsSorted(tail, p, key);
      if p(s[0]) {
        forall y | y in Filter(tail, p) ensures key(s[0]) >= key(y) {
          var j :| 0 <= j < |tail| && tail[j] == y;
          assert s[j + 1] == y;
        }
        SortedCons(s[0], Filter(tail, p), key);
      }
    }
  }

  /** Inserting `x` adds it to the elements of its key and leaves every other key's elements as they were. */
  lemma {:induction false} InsertKeepsKeyOrder<T(!new)>(x: T, s: seq<T>, key: T -> int, k: int)
    ensures WithKey(Insert(x, s, key), key, k) == (if key(x) == k then [x] else []) + WithKey(s, key, k)
    decreases |s|
  {
    var p := (y: T) => key(y) == k;
    if |s| == 0 || key(x) >= key(s[0]) {
      assert ([x] + s)[1..] == s;
    } else {
      var t := Insert(x, s[1..], key);
      assert ([s[0]] + t)[1..] == t;
      InsertKeepsKeyOrder(x, s[1..], key, k);
    }
  }

  /**
   * The sort is stable: the elements that share a key keep their input order,
   * because an element is inserted in front of every element of equal key.
   */
  lemma {:induction false} SortDescIsStable<T(!new)>(s: seq<T>, key: T -> int, k: int)
    ensures WithKey(SortDesc(s, key), key, k) == WithKey(s, key, k)
    decreases |s|
  {
    if |s| > 0 {
      SortDescIsStable(s[1..], key, k);
      InsertKeepsKeyOrder(s[0], SortDesc(s[1..], key), key, k);
    }
  }

  /** Sorting an already sorted sequence leaves it as it is. */
  lemma {:induction false} SortDescOfSorted<T(!new)>(s: seq<T>, key: T -> int)
    requires SortedDesc(s, key)
    ensures SortDesc(s, key) == s
    decreases |s|
  {
    if |s| > 0 {
      assert SortedDesc(s[1..], key);
      SortDescOfSorted(s[1..], key);
      assert s == [s[0]] + s[1..];
    }
  }

  /** Inserting an element that is not yet present keeps the elements distinct. */
  lemma {:induction false} InsertKeepsDistinct<T(!new)>(x: T, s: seq<T>, key: T -> int)
    requires Distinct(s) && x !in s
    ensures Distinct(Insert(x, s, key))
    decreases |s|
  {
    if |s| == 0 || key(x) >= key(s[0]) {
      var r := [x] + s;
      forall i, j | 0 <= i < j < |r| ensures r[i] != r[j] {
        if i == 0 {
          assert r[j] == s[j - 1];
        } else {
          assert r[i] == s[i - 1] && r[j] == s[j - 1];
        }
      }
    } else {
      assert Distinct(s[1..]);
      InsertKeepsDistinct(x, s[1..], key);
      var t := Insert(x, s[1..], key);
      var r := [s[0]] + t;
      forall i, j | 0 <= i < j < |r| ensures r[i] != r[j] {
        if i == 0 {
          assert r[j] == t[j - 1];
          InsertMembers(x, s[1..], key, r[j]);
          if r[j] != x {
            var m :| 0 <= m < |s[1..]| && s[1..][m] == r[j];
            assert s[m + 1] == r[j];
          }
        } else {
          assert r[i] == t[i - 1] && r[j] == t[j - 1];
        }
      }
    }
  }

  /** Sorting keeps the elements distinct when they were. */
  lemma {:induction false} SortDescKeepsDistinct<T(!new)>(s: seq<T>, key: T -> int)
    requires Distinct(s)
    ensures Distinct(SortDesc(s, key))
    decreases |s|
  {
    if |s| > 0 {
      assert Distinct(s[1..]);
      SortDescKeepsDistinct(s[1..], key);
      var t := SortDesc(s[1..], key);
      assert s[0] !in s[1..];
      assert s[0] !in multiset(t);
      InsertKeepsDistinct(s[0], t, key);
    }
  }
}
