/** The line items shared by the cart and checkout pages, and the subtotal
    both pages compute with `items.reduce((total, item) => total + item.price * item.quantity, 0)`.
    Amounts are exact reals; the pages' floating point and `toFixed(2)`
    display rounding are not modelled. */
module Pricing {

  datatype LineItem = LineItem(
    id: int,
    name: string,
    price: real,
    color: string,
    size: string,
    quantity: int,
    image: string)

  /** The amount one line contributes: `item.price * item.quantity`. */
  function Extended(item: LineItem): real {
    item.price * item.quantity as real
  }

  /** The reduce as the source runs it: left to right, with an accumulator. */
  function Reduce(acc: real, items: seq<LineItem>): real
    decreases |items|
  {
    if items == [] then acc else Reduce(acc + Extended(items[0]), items[1..])
  }

  /** The reference definition: the sum of the extended amounts. */
  function Sum(items: seq<LineItem>): real
    decreases |items|
  {
    if items == [] then 0.0 else Extended(items[0]) + Sum(items[1..])
  }

  /** Folding from any starting total adds exactly the sum of the lines. */
  lemma {:induction false} ReduceIsSum(acc: real, items: seq<LineItem>)
    ensures Reduce(acc, items) == acc + Sum(items)
    decreases |items|
  {
    if items != [] {
      ReduceIsSum(acc + Extended(items[0]), items[1..]);
    }
  }

  /** The subtotal of a list of line items. */
  function Subtotal(items: seq<LineItem>): (r: real)
    ensures r == Sum(items)
  {
    ReduceIsSum(0.0, items);
    Reduce(0.0, items)
  }

  /** Taking out the line at position `i` takes out exactly its amount. */
  lemma {:induction false} SumRemoveAt(items: seq<LineItem>, i: nat)
    requires i < |items|
    ensures Sum(items) == Extended(items[i]) + Sum(items[..i] + items[i + 1..])
    decreases |items|
  {
    if i > 0 {
      SumRemoveAt(items[1..], i - 1);
      assert items[1..][..i - 1] + items[1..][i..] == (items[..i] + items[i + 1..])[1..];
    } else {
      assert items[..i] + items[i + 1..] == items[1..];
    }
  }

  /** Taking out the element at position `i` takes exactly one copy of it out of the multiset. */
  lemma MultisetRemoveAt<T>(s: seq<T>, i: nat)
    requires i < |s|
    ensures multiset(s[..i] + s[i + 1..]) == multiset(s) - multiset{s[i]}
  {
    assert s == s[..i] + [s[i]] + s[i + 1..];
  }

  /** Taking the first element out of `a` and an equal one out of `b` keeps the multisets equal. */
  lemma RemoveMatching<T>(a: seq<T>, b: seq<T>, i: nat)
    requires multiset(a) == multiset(b) && a != [] && i < |b| && b[i] == a[0]
    ensures multiset(a[1..]) == multiset(b[..i] + b[i + 1..])
  {
    MultisetRemoveAt(a, 0);
    assert a[..0] + a[1..] == a[1..];
    MultisetRemoveAt(b, i);
  }

  /** The sum does not depend on the order of the lines. */
  lemma {:induction false} SumOrderIndependent(a: seq<LineItem>, b: seq<LineItem>)
    requires multiset(a) == multiset(b)
    ensures Sum(a) == Sum(b)
    decreases |a|
  {
    if a == [] {
      assert |b| == |multiset(b)| == 0;
    } else {
      var x := a[0];
      assert x in multiset(a) by {
        assert a == [x] + a[1..];
      }
      assert x in b;
      var i :| 0 <= i < |b| && b[i] == x;
      var rest := b[..i] + b[i + 1..];
      RemoveMatching(a, b, i);
      SumOrderIndependent(a[1..], rest);
      SumRemoveAt(b, i);
      assert Sum(a) == Extended(x) + Sum(a[1..]);
    }
  }

  /** The subtotal does not depend on the order of the lines. */
  lemma SubtotalOrderIndependent(a: seq<LineItem>, b: seq<LineItem>)
    requires multiset(a) == multiset(b)
    ensures Subtotal(a) == Subtotal(b)
  {
    SumOrderIndependent(a, b);
  }

  /** A line is well formed when its price is not negative and its quantity is at least one. */
  predicate WellFormed(item: LineItem) {
    item.price >= 0.0 && item.quantity >= 1
  }

  /** Well-formed lines never give a negative subtotal. */
  lemma {:induction false} SubtotalNonNegative(items: seq<LineItem>)
    requires forall i :: 0 <= i < |items| ==> WellFormed(items[i])
    ensures Subtotal(items) >= 0.0
    decreases |items|
  {
    if items != [] {
      SubtotalNonNegative(items[1..]);
      var it := items[0];
      assert it.price * it.quantity as real >= 0.0;
    }
  }
}
