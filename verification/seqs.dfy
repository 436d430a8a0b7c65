/** Generic sequence helpers shared by every view: order-preserving filtering
    (the source's `Array.prototype.filter`) and counting. */
module Seqs {

  /** `s.filter(p)`: the elements satisfying `p`, in their original order. */
  function Filter<T>(s: seq<T>, p: T -> bool): (r: seq<T>)
    ensures |r| <= |s|
    ensures forall i :: 0 <= i < |r| ==> p(r[i])
  {
    if |s| == 0 then []
    else
      var rest := Filter(s[1..], p);
      if p(s[0]) then [s[0]] + rest else rest
  }

  /** Every element satisfying the predicate is kept. */
  lemma {:induction false} FilterKeeps<T>(s: seq<T>, p: T -> bool, i: int)
    requires 0 <= i < |s| && p(s[i])
    ensures s[i] in Filter(s, p)
  {
    if i > 0 {
      FilterKeeps(s[1..], p, i - 1);
    }
  }

  /** Filtering invents nothing: what is kept comes from the input, as often at
      most as it occurs there. */
  lemma {:induction false} FilterSubset<T>(s: seq<T>, p: T -> bool)
    ensures multiset(Filter(s, p)) <= multiset(s)
  {
    if |s| > 0 {
      FilterSubset(s[1..], p);
      assert s == [s[0]] + s[1..];
    }
  }

  /** Each kept element is at some position of the input. */
  lemma FilterFrom<T>(s: seq<T>, p: T -> bool, j: int)
    requires 0 <= j < |Filter(s, p)|
    ensures exists i :: 0 <= i < |s| && s[i] == Filter(s, p)[j]
  {
    FilterSubset(s, p);
    var x := Filter(s, p)[j];
    assert x in multiset(Filter(s, p));
    assert x in multiset(s);
  }

  /** `s.findIndex(p)`: the position of the first element satisfying `p`, or
      -1 when there is none. */
  function FirstIndex<T>(s: seq<T>, p: T -> bool): (k: int)
    ensures -1 <= k < |s|
    ensures k == -1 <==> forall i :: 0 <= i < |s| ==> !p(s[i])
    ensures k >= 0 ==> p(s[k]) && forall i :: 0 <= i < k ==> !p(s[i])
  {
    if |s| == 0 then -1
    else if p(s[0]) then 0
    else
      var k := FirstIndex(s[1..], p);
      if k == -1 then -1 else k + 1
  }

  /** `s.filter(p).length` */
  function Count<T>(s: seq<T>, p: T -> bool): nat
  {
    |Filter(s, p)|
  }

  /** `s.some(p)` */
  predicate Any<T>(s: seq<T>, p: T -> bool)
  {
    exists i :: 0 <= i < |s| && p(s[i])
  }

  /** `s.every(p)` */
  predicate All<T>(s: seq<T>, p: T -> bool)
  {
    forall i :: 0 <= i < |s| ==> p(s[i])
  }

  /** Filtering distributes over concatenation. */
  lemma {:induction false} FilterConcat<T>(a: seq<T>, b: seq<T>, p: T -> bool)
    ensures Filter(a + b, p) == Filter(a, p) + Filter(b, p)
  {
    if |a| == 0 {
      assert a + b == b;
    } else {
      assert (a + b)[1..] == a[1..] + b;
      FilterConcat(a[1..], b, p);
    }
  }

  /** A sequence is split by a predicate and its negation without losing or
      inventing anything. */
  lemma {:induction false} FilterPartition<T>(s: seq<T>, p: T -> bool, q: T -> bool)
    requires forall x :: q(x) == !p(x)
    ensures multiset(Filter(s, p)) + multiset(Filter(s, q)) == multiset(s)
    ensures |Filter(s, p)| + |Filter(s, q)| == |s|
  {
    if |s| > 0 {
      FilterPartition(s[1..], p, q);
      assert s == [s[0]] + s[1..];
    }
  }

  /** Filtering twice is filtering once by the conjunction. */
  lemma {:induction false} FilterFilter<T>(s: seq<T>, p: T -> bool, q: T -> bool, pq: T -> bool)
    requires forall x :: pq(x) == (p(x) && q(x))
    ensures Filter(Filter(s, p), q) == Filter(s, pq)
  {
    if |s| > 0 {
      FilterFilter(s[1..], p, q, pq);
    }
  }

  /** Splitting the `d`-elements by one predicate and its negation, then each
      part by another and its negation, gives four parts that together hold
      exactly the `d`-elements. */
  lemma FilterFourWay<T>(s: seq<T>, d: T -> bool, p: T -> bool, q: T -> bool, a: T -> bool, b: T -> bool,
                         pa: T -> bool, pb: T -> bool, qa: T -> bool, qb: T -> bool)
    requires forall x :: q(x) == !p(x)
    requires forall x :: b(x) == !a(x)
    requires forall x :: pa(x) == (p(x) && d(x) && a(x))
    requires forall x :: pb(x) == (p(x) && d(x) && b(x))
    requires forall x :: qa(x) == (q(x) && d(x) && a(x))
    requires forall x :: qb(x) == (q(x) && d(x) && b(x))
    ensures multiset(Filter(s, pa)) + multiset(Filter(s, pb)) + multiset(Filter(s, qa)) + multiset(Filter(s, qb))
      == multiset(Filter(s, d))
  {
    var t := Filter(s, d);
    var dp := (x: T) => d(x) && p(x);
    var dq := (x: T) => d(x) && q(x);
    FilterPartition(t, p, q);
    FilterPartition(Filter(t, p), a, b);
    FilterPartition(Filter(t, q), a, b);
    FilterFilter(s, d, p, dp);
    FilterFilter(s, d, q, dq);
    FilterFilter(s, dp, a, pa);
    FilterFilter(s, dp, b, pb);
    FilterFilter(s, dq, a, qa);
    FilterFilter(s, dq, b, qb);
  }

  /** Filtering by a predicate that holds everywhere changes nothing. */
  lemma {:induction false} FilterAll<T>(s: seq<T>, p: T -> bool)
    requires forall i :: 0 <= i < |s| ==> p(s[i])
    ensures Filter(s, p) == s
  {
    if |s| > 0 {
      FilterAll(s[1..], p);
      assert s == [s[0]] + s[1..];
    }
  }

  /** The filter is empty exactly when no element satisfies the predicate. */
  lemma FilterEmpty<T>(s: seq<T>, p: T -> bool)
    ensures Filter(s, p) == [] <==> !Any(s, p)
  {
    if Filter(s, p) == [] {
      forall i | 0 <= i < |s| ensures !p(s[i]) {
        if p(s[i]) {
          FilterKeeps(s, p, i);
        }
      }
    } else {
      FilterFrom(s, p, 0);
    }
  }

  /** The filter keeps everything exactly when every element satisfies the predicate. */
  lemma {:induction false} FilterFull<T>(s: seq<T>, p: T -> bool)
    ensures |Filter(s, p)| == |s| <==> All(s, p)
  {
    if |s| > 0 {
      FilterFull(s[1..], p);
      assert s == [s[0]] + s[1..];
      if !p(s[0]) {
        assert |Filter(s, p)| == |Filter(s[1..], p)| <= |s[1..]| < |s|;
      }
    }
  }

  /** Something kept by `p` satisfies `q` exactly when some element satisfies
      both. */
  lemma AnyFilterIff<T>(s: seq<T>, p: T -> bool, q: T -> bool)
    ensures Any(Filter(s, p), q) <==> exists i :: 0 <= i < |s| && p(s[i]) && q(s[i])
  {
    var f := Filter(s, p);
    if Any(f, q) {
      var j :| 0 <= j < |f| && q(f[j]);
      FilterFrom(s, p, j);
    }
    if exists i :: 0 <= i < |s| && p(s[i]) && q(s[i]) {
      var i :| 0 <= i < |s| && p(s[i]) && q(s[i]);
      FilterKeeps(s, p, i);
      var j :| 0 <= j < |f| && f[j] == s[i];
    }
  }

  /** Everything kept by `p` satisfies `q` exactly when every element
      satisfying `p` satisfies `q`. */
  lemma AllFilterIff<T>(s: seq<T>, p: T -> bool, q: T -> bool)
    ensures All(Filter(s, p), q) <==> forall i :: 0 <= i < |s| && p(s[i]) ==> q(s[i])
  {
    var f := Filter(s, p);
    if All(f, q) {
      forall i | 0 <= i < |s| && p(s[i]) ensures q(s[i]) {
        FilterKeeps(s, p, i);
        var j :| 0 <= j < |f| && f[j] == s[i];
      }
    } else {
      var j :| 0 <= j < |f| && !q(f[j]);
      FilterFrom(s, p, j);
    }
  }

  /** Ordered by `key`, largest first. */
  predicate SortedDesc<T>(s: seq<T>, key: T -> int)
  {
    forall i, j :: 0 <= i < j < |s| ==> key(s[i]) >= key(s[j])
  }

  /** Puts `x` into an ordered sequence ahead of the first element whose key
      is not larger than its own. */
  function InsertDesc<T>(x: T, s: seq<T>, key: T -> int): (r: seq<T>)
    requires SortedDesc(s, key)
    ensures multiset(r) == multiset(s) + multiset{x}
    ensures SortedDesc(r, key)
  {
    if |s| == 0 then [x]
    else if key(s[0]) <= key(x) then [x] + s
    else
      var rest := InsertDesc(x, s[1..], key);
      assert s == [s[0]] + s[1..];
      forall j | 0 <= j < |rest| ensures key(s[0]) >= key(rest[j]) {
        assert rest[j] in multiset(s[1..]) + multiset{x};
        if rest[j] != x {
          assert rest[j] in s[1..];
        }
      }
      [s[0]] + rest
  }

  /** A sort by `key`, largest first (insertion sort): the same
      elements, ordered. */
  function SortDesc<T>(s: seq<T>, key: T -> int): (r: seq<T>)
    ensures multiset(r) == multiset(s)
    ensures SortedDesc(r, key)
  {
    if |s| == 0 then []
    else
      assert s == [s[0]] + s[1..];
      InsertDesc(s[0], SortDesc(s[1..], key), key)
  }
}
