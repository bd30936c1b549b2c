/** `Array.prototype.filter` and `Array.prototype.sort` as functions on
    sequences, with the facts the pages rely on: a filter keeps exactly the
    matching elements in their original order, and a sort is a permutation
    that is ordered whenever the comparator is consistent. */
module Seqs {

  /** `s.filter(p)`. */
  function Filter<T>(p: T -> bool, s: seq<T>): (r: seq<T>)
    ensures |r| <= |s|
    ensures forall i :: 0 <= i < |r| ==> r[i] in s && p(r[i])
    ensures forall i :: 0 <= i < |s| && p(s[i]) ==> s[i] in r
  {
    if s == [] then []
    else if p(s[0]) then [s[0]] + Filter(p, s[1..])
    else Filter(p, s[1..])
  }

  /** `a` is obtained from `b` by deleting elements: an order-preserving subsequence. */
  ghost predicate IsSubseq<T>(a: seq<T>, b: seq<T>)
    decreases |b|
  {
    a == [] || (b != [] && ((a[0] == b[0] && IsSubseq(a[1..], b[1..])) || IsSubseq(a, b[1..])))
  }

  /** A non-empty sequence is its front followed by its last element. */
  lemma SplitLast<T>(s: seq<T>)
    requires s != []
    ensures s == s[..|s| - 1] + [s[|s| - 1]]
  {
  }

  /** Splitting a concatenation after the first element of its non-empty front. */
  lemma HeadTail<T>(x: seq<T>, s: seq<T>)
    requires x != []
    ensures (x + s)[0] == x[0] && (x + s)[1..] == x[1..] + s
    ensures [x[0]] + x[1..] == x
  {
  }

  /** The same split when a single element follows the front. */
  lemma HeadTailAround<T>(x: seq<T>, c: T, s: seq<T>)
    requires x != []
    ensures (x + [c] + s)[0] == x[0] && (x + [c] + s)[1..] == x[1..] + [c] + s
  {
  }

  /** Every element of a suffix of the tail is an element of the sequence. */
  lemma TailSuffixIn<T>(s: seq<T>, r: seq<T>)
    requires s != [] && |r| <= |s| - 1 && r == s[1..][|s| - 1 - |r|..]
    ensures forall c :: c in r ==> c in s
  {
    assert r == s[|s| - |r|..];
  }

  lemma {:induction false} FilterIsSubseq<T>(p: T -> bool, s: seq<T>)
    ensures IsSubseq(Filter(p, s), s)
    decreases |s|
  {
    if s != [] {
      FilterIsSubseq(p, s[1..]);
    }
  }

  /** An element that fails the test does not occur in the result. */
  lemma FilterNoOthers<T(!new)>(p: T -> bool, s: seq<T>)
    ensures forall x :: !p(x) ==> multiset(Filter(p, s))[x] == 0
  {
    var r := Filter(p, s);
    forall x | !p(x)
      ensures multiset(r)[x] == 0
    {
      assert x !in r;
    }
  }

  /** Filtering keeps the multiset of matching elements. */
  lemma {:induction false} FilterMultiset<T(!new)>(p: T -> bool, s: seq<T>)
    ensures multiset(Filter(p, s)) <= multiset(s)
    ensures forall x :: p(x) ==> multiset(Filter(p, s))[x] == multiset(s)[x]
    decreases |s|
  {
    if s != [] {
      FilterMultiset(p, s[1..]);
      assert s == [s[0]] + s[1..];
    }
  }

  /** The filter's count of each element: all its copies when it passes the
      test, none when it fails. */
  lemma FilterCounts<T(!new)>(p: T -> bool, s: seq<T>)
    ensures forall x :: multiset(Filter(p, s))[x] == if p(x) then multiset(s)[x] else 0
  {
    FilterMultiset(p, s);
    FilterNoOthers(p, s);
  }

  /** A filter that every element passes returns the sequence unchanged. */
  lemma {:induction false} FilterAllPass<T(!new)>(p: T -> bool, s: seq<T>)
    requires forall x :: x in s ==> p(x)
    ensures Filter(p, s) == s
    decreases |s|
  {
    if s != [] {
      FilterAllPass(p, s[1..]);
    }
  }

  /** A property of every element of three sequences holds of every element
      of their concatenation. */
  lemma AllIn3<T>(p: T -> bool, x: seq<T>, y: seq<T>, z: seq<T>)
    requires forall c :: c in x ==> p(c)
    requires forall c :: c in y ==> p(c)
    requires forall c :: c in z ==> p(c)
    ensures forall c :: c in x + y + z ==> p(c)
  {
  }

  /** A filter that rejects some element returns a shorter sequence. */
  lemma {:induction false} FilterShorter<T>(p: T -> bool, s: seq<T>, i: nat)
    requires i < |s| && !p(s[i])
    ensures |Filter(p, s)| < |s|
    decreases |s|
  {
    if i > 0 {
      FilterShorter(p, s[1..], i - 1);
    }
  }

  /** Filtering distributes over concatenation. */
  lemma {:induction false} FilterAppend<T>(p: T -> bool, a: seq<T>, b: seq<T>)
    ensures Filter(p, a + b) == Filter(p, a) + Filter(p, b)
    decreases |a|
  {
    if a == [] {
      assert a + b == b;
    } else {
      assert (a + b)[0] == a[0] && (a + b)[1..] == a[1..] + b;
      FilterAppend(p, a[1..], b);
    }
  }

  /** Filtering by a predicate and then by a stronger one is filtering by the stronger one. */
  lemma {:induction false} FilterNarrower<T>(p: T -> bool, q: T -> bool, s: seq<T>)
    requires forall x :: q(x) ==> p(x)
    ensures Filter(q, Filter(p, s)) == Filter(q, s)
    decreases |s|
  {
    if s != [] {
      FilterNarrower(p, q, s[1..]);
    }
  }

  /** Filtering twice by the same predicate is filtering once. */
  lemma {:induction false} FilterIdempotent<T(!new)>(p: T -> bool, s: seq<T>)
    ensures Filter(p, Filter(p, s)) == Filter(p, s)
  {
    FilterAllPass(p, Filter(p, s));
  }

  // ---- sorting ----

  /** A JavaScript comparator: a positive result puts `a` after `b`. */
  type Comparator<!T> = (T, T) -> real

  /** Insert `x` into `s` before the first element it does not sort after. */
  function Insert<T>(x: T, s: seq<T>, cmp: Comparator<T>): (r: seq<T>)
    ensures |r| == |s| + 1
    ensures multiset(r) == multiset(s) + multiset{x}
  {
    if s == [] then [x]
    else if cmp(x, s[0]) <= 0.0 then [x] + s
    else
      assert s == [s[0]] + s[1..];
      [s[0]] + Insert(x, s[1..], cmp)
  }

  /** `[...s].sort(cmp)` as a stable insertion sort: an element is moved only
      past elements it must follow, so equal elements keep their order. */
  function SortBy<T>(s: seq<T>, cmp: Comparator<T>): (r: seq<T>)
    ensures |r| == |s|
  {
    if s == [] then [] else Insert(s[0], SortBy(s[1..], cmp), cmp)
  }

  /** Every comparison inside `s` asks for no reordering. */
  ghost predicate Ordered<T>(s: seq<T>, cmp: Comparator<T>) {
    forall i, j :: 0 <= i < j < |s| ==> cmp(s[i], s[j]) <= 0.0
  }

  /** If `a` must follow `b` then `b` may precede `a`. */
  ghost predicate Antisymmetric<T(!new)>(cmp: Comparator<T>) {
    forall a, b :: cmp(a, b) > 0.0 ==> cmp(b, a) <= 0.0
  }

  /** "May precede" is transitive. */
  ghost predicate Transitive<T(!new)>(cmp: Comparator<T>) {
    forall a, b, c :: cmp(a, b) <= 0.0 && cmp(b, c) <= 0.0 ==> cmp(a, c) <= 0.0
  }

  /** A comparator that is a total preorder. */
  ghost predicate Consistent<T(!new)>(cmp: Comparator<T>) {
    Antisymmetric(cmp) && Transitive(cmp)
  }

  lemma {:induction false} SortByPermutation<T>(s: seq<T>, cmp: Comparator<T>)
    ensures multiset(SortBy(s, cmp)) == multiset(s)
    decreases |s|
  {
    if s != [] {
      SortByPermutation(s[1..], cmp);
      assert s == [s[0]] + s[1..];
    }
  }

  /** Every element of the insertion result is `x` or an element of `s`. */
  lemma {:induction false} InsertMembers<T>(x: T, s: seq<T>, cmp: Comparator<T>)
    ensures forall j :: 0 <= j < |Insert(x, s, cmp)| ==> Insert(x, s, cmp)[j] == x || Insert(x, s, cmp)[j] in s
    decreases |s|
  {
    var r := Insert(x, s, cmp);
    if s == [] {
    } else if cmp(x, s[0]) <= 0.0 {
      assert r == [x] + s;
      forall j | 1 <= j < |r| ensures r[j] in s {
        assert r[j] == s[j - 1];
      }
    } else {
      var t := Insert(x, s[1..], cmp);
      InsertMembers(x, s[1..], cmp);
      assert r == [s[0]] + t;
      forall j | 1 <= j < |r| ensures r[j] == x || r[j] in s {
        assert r[j] == t[j - 1];
        if t[j - 1] != x {
          var k :| 0 <= k < |s[1..]| && s[1..][k] == t[j - 1];
          assert s[k + 1] == r[j];
        }
      }
    }
  }

  lemma {:induction false} InsertOrdered<T(!new)>(x: T, s: seq<T>, cmp: Comparator<T>)
    requires Consistent(cmp) && Ordered(s, cmp)
    ensures Ordered(Insert(x, s, cmp), cmp)
    decreases |s|
  {
    if s != [] && cmp(x, s[0]) > 0.0 {
      OrderedTail(s, cmp);
      InsertOrdered(x, s[1..], cmp);
      InsertPastHead(x, s, cmp);
      assert Insert(x, s, cmp) == [s[0]] + Insert(x, s[1..], cmp);
    } else {
      PrependOrdered(x, s, cmp);
      assert Insert(x, s, cmp) == [x] + s;
    }
  }

  lemma OrderedTail<T>(s: seq<T>, cmp: Comparator<T>)
    requires s != [] && Ordered(s, cmp)
    ensures Ordered(s[1..], cmp)
  {
    forall i, j | 0 <= i < j < |s[1..]| ensures cmp(s[1..][i], s[1..][j]) <= 0.0 {
      assert s[1..][i] == s[i + 1] && s[1..][j] == s[j + 1];
    }
  }

  /** An element that may precede the head of an ordered sequence may precede all of it. */
  lemma PrependOrdered<T(!new)>(x: T, s: seq<T>, cmp: Comparator<T>)
    requires Transitive(cmp) && Ordered(s, cmp)
    requires s == [] || cmp(x, s[0]) <= 0.0
    ensures Ordered([x] + s, cmp)
  {
    var r := [x] + s;
    forall i, j | 0 <= i < j < |r| ensures cmp(r[i], r[j]) <= 0.0 {
      assert r[j] == s[j - 1];
      if i == 0 {
        if j > 1 {
          assert cmp(s[0], s[j - 1]) <= 0.0;
        }
      } else {
        assert r[i] == s[i - 1];
      }
    }
  }

  /** Inserting past the head keeps the head first, and the head may precede everything after it. */
  lemma InsertPastHead<T(!new)>(x: T, s: seq<T>, cmp: Comparator<T>)
    requires Antisymmetric(cmp) && Ordered(s, cmp)
    requires s != [] && cmp(x, s[0]) > 0.0
    requires Ordered(Insert(x, s[1..], cmp), cmp)
    ensures Ordered([s[0]] + Insert(x, s[1..], cmp), cmp)
  {
    var t := Insert(x, s[1..], cmp);
    InsertMembers(x, s[1..], cmp);
    var r := [s[0]] + t;
    forall i, j | 0 <= i < j < |r|
      ensures cmp(r[i], r[j]) <= 0.0
    {
      assert r[j] == t[j - 1];
      if i == 0 {
        if t[j - 1] != x {
          assert t[j - 1] in s[1..];
          var k :| 0 <= k < |s[1..]| && s[1..][k] == t[j - 1];
          assert s[1..][k] == s[k + 1];
        }
      } else {
        assert r[i] == t[i - 1];
      }
    }
  }

  /** With a consistent comparator the sort result needs no further reordering. */
  lemma {:induction false} SortByOrdered<T(!new)>(s: seq<T>, cmp: Comparator<T>)
    requires Consistent(cmp)
    ensures Ordered(SortBy(s, cmp), cmp)
    decreases |s|
  {
    if s != [] {
      SortByOrdered(s[1..], cmp);
      InsertOrdered(s[0], SortBy(s[1..], cmp), cmp);
    }
  }

  /** A comparator that answers 0 for every pair leaves the order unchanged. */
  lemma {:induction false} SortByNeutral<T(!new)>(s: seq<T>, cmp: Comparator<T>)
    requires forall a, b :: cmp(a, b) == 0.0
    ensures SortBy(s, cmp) == s
    decreases |s|
  {
    if s != [] {
      SortByNeutral(s[1..], cmp);
    }
  }

  /** Comparing by a consistent order on a projection `key` is consistent,
      and so is comparing by it in reverse. */
  lemma ProjectedConsistent<K(!new), T(!new)>(
    order: Comparator<K>, key: T -> K, cmp: Comparator<T>, reversed: bool)
    requires Consistent(order)
    requires forall a, b :: cmp(a, b) == if reversed then order(key(b), key(a)) else order(key(a), key(b))
    ensures Consistent(cmp)
  {
    forall a, b | cmp(a, b) > 0.0 ensures cmp(b, a) <= 0.0 {
      if reversed {
        assert order(key(b), key(a)) > 0.0;
      } else {
        assert order(key(a), key(b)) > 0.0;
      }
    }
    forall a, b, c | cmp(a, b) <= 0.0 && cmp(b, c) <= 0.0 ensures cmp(a, c) <= 0.0 {
      if reversed {
        assert order(key(c), key(b)) <= 0.0 && order(key(b), key(a)) <= 0.0;
      } else {
        assert order(key(a), key(b)) <= 0.0 && order(key(b), key(c)) <= 0.0;
      }
    }
  }

  /** A comparator that subtracts keys, `key(a) - key(b)`, is consistent. */
  lemma KeyComparatorConsistent<T(!new)>(key: T -> real, cmp: Comparator<T>)
    requires forall a, b :: cmp(a, b) == key(a) - key(b)
    ensures Consistent(cmp)
  {
  }
}
