/**
 * The price sort of the view: `filtered.sort((a, b) => a.price - b.price)`
 * and `filtered.sort((a, b) => b.price - a.price)`. `Array.prototype.sort`
 * is required to be stable, so with a consistent comparator its result is
 * fully determined: the ordered arrangement that keeps equal-priced products
 * in their previous relative order. `SortByPrice` is that arrangement,
 * defined as a stable insertion sort; `InsertionSort` computes it in place on
 * an array, as the source does.
 */
module PriceSort {
  import opened Catalog
  import opened Seqs

  datatype Direction = Ascending | Descending

  /** The two comparators of the view, literally: negative means `a` goes first. */
  function Compare(d: Direction, a: Product, b: Product): (c: int)
    ensures c == 0 <==> a.price == b.price
    ensures d.Ascending? ==> (c < 0 <==> a.price < b.price)
    ensures d.Descending? ==> (c < 0 <==> a.price > b.price)
  {
    match d
    case Ascending => a.price - b.price
    case Descending => b.price - a.price
  }

  /**
   * Both comparators are consistent in the sense `Array.prototype.sort`
   * requires: swapping the arguments negates the result, and the order they
   * allow is total and transitive.
   */
  lemma CompareConsistent(d: Direction, a: Product, b: Product, c: Product)
    ensures Compare(d, a, b) == -Compare(d, b, a)
    ensures Compare(d, a, b) <= 0 || Compare(d, b, a) <= 0
    ensures Compare(d, a, b) <= 0 && Compare(d, b, c) <= 0 ==> Compare(d, a, c) <= 0
  {
  }

  /** The comparator allows `a` before `b`. */
  predicate InOrder(d: Direction, a: Product, b: Product)
  {
    Compare(d, a, b) <= 0
  }

  ghost predicate Sorted(d: Direction, s: seq<Product>)
  {
    forall i, j :: 0 <= i < j < |s| ==> InOrder(d, s[i], s[j])
  }

  /** The products of `s` priced exactly `p`, in their order in `s`. */
  function PriceGroup(s: seq<Product>, p: int): seq<Product>
  {
    Filter(s, (x: Product) => x.price == p)
  }

  /** Stable insertion of `x` into `s`: after every element the comparator lets precede it. */
  function Insert(d: Direction, s: seq<Product>, x: Product): (r: seq<Product>)
    ensures |r| == |s| + 1
  {
    if s == [] then [x]
    else if InOrder(d, s[|s| - 1], x) then s + [x]
    else Insert(d, s[..|s| - 1], x) + [s[|s| - 1]]
  }

  /** The stable sort of `s` under the comparator of `d`. */
  function SortByPrice(d: Direction, s: seq<Product>): (r: seq<Product>)
    ensures |r| == |s|
  {
    if s == [] then []
    else Insert(d, SortByPrice(d, s[..|s| - 1]), s[|s| - 1])
  }

  lemma {:induction false} InsertPermutes(d: Direction, s: seq<Product>, x: Product)
    ensures multiset(Insert(d, s, x)) == multiset(s) + multiset{x}
  {
    if s != [] && !InOrder(d, s[|s| - 1], x) {
      var prefix, last := s[..|s| - 1], s[|s| - 1];
      assert s == prefix + [last];
      InsertPermutes(d, prefix, x);
    }
  }

  /** The price sort only rearranges: its result is a permutation of its input. */
  lemma {:induction false} SortByPricePermutes(d: Direction, s: seq<Product>)
    ensures multiset(SortByPrice(d, s)) == multiset(s)
  {
    if s != [] {
      var prefix, last := s[..|s| - 1], s[|s| - 1];
      assert s == prefix + [last];
      SortByPricePermutes(d, prefix);
      InsertPermutes(d, SortByPrice(d, prefix), last);
    }
  }

  lemma {:induction false} InsertSorted(d: Direction, s: seq<Product>, x: Product)
    requires Sorted(d, s)
    ensures Sorted(d, Insert(d, s, x))
  {
    if s != [] && !InOrder(d, s[|s| - 1], x) {
      var prefix, last := s[..|s| - 1], s[|s| - 1];
      var t := Insert(d, prefix, x);
      assert Insert(d, s, x) == t + [last];
      InsertSorted(d, prefix, x);
      forall y | y in prefix ensures InOrder(d, y, last) {
        var k :| 0 <= k < |prefix| && prefix[k] == y;
        assert s[k] == y;
      }
      InsertBelow(d, prefix, last, x);
      AppendSorted(d, t, last);
    }
  }

  /** If `x` and every element of `prefix` may precede `last`, so may all of their insertion. */
  lemma InsertBelow(d: Direction, prefix: seq<Product>, last: Product, x: Product)
    requires forall y | y in prefix :: InOrder(d, y, last)
    requires !InOrder(d, last, x)
    ensures forall y | y in Insert(d, prefix, x) :: InOrder(d, y, last)
  {
    var t := Insert(d, prefix, x);
    InsertPermutes(d, prefix, x);
    forall y | y in t ensures InOrder(d, y, last) {
      assert y in multiset(t);
      if y != x {
        assert y in multiset(prefix);
      }
    }
  }

  /** Appending an element every earlier one may precede keeps a sequence sorted. */
  lemma AppendSorted(d: Direction, t: seq<Product>, last: Product)
    requires Sorted(d, t)
    requires forall y | y in t :: InOrder(d, y, last)
    ensures Sorted(d, t + [last])
  {
    forall i, j | 0 <= i < j < |t| + 1 ensures InOrder(d, (t + [last])[i], (t + [last])[j]) {
      if j == |t| {
        assert (t + [last])[i] == t[i] && t[i] in t;
      }
    }
  }


  /** The price sort puts its result in comparator order. */
  lemma {:induction false} SortByPriceSorted(d: Direction, s: seq<Product>)
    ensures Sorted(d, SortByPrice(d, s))
  {
    if s != [] {
      assert SortByPrice(d, s) == Insert(d, SortByPrice(d, s[..|s| - 1]), s[|s| - 1]);
      SortByPriceSorted(d, s[..|s| - 1]);
      InsertSorted(d, SortByPrice(d, s[..|s| - 1]), s[|s| - 1]);
    }
  }

  lemma GroupAppend(a: seq<Product>, b: seq<Product>, p: int)
    ensures PriceGroup(a + b, p) == PriceGroup(a, p) + PriceGroup(b, p)
  {
    FilterAppend(a, b, (y: Product) => y.price == p);
  }

  lemma GroupSingleton(x: Product, p: int)
    ensures PriceGroup([x], p) == if x.price == p then [x] else []
  {
    assert [x][1..] == [];
  }

  lemma {:induction false} InsertGroups(d: Direction, s: seq<Product>, x: Product, p: int)
    ensures PriceGroup(Insert(d, s, x), p) == PriceGroup(s, p) + PriceGroup([x], p)
  {
    if s == [] {
      assert Insert(d, s, x) == [x] && s + [x] == [x];
      GroupAppend(s, [x], p);
    } else if InOrder(d, s[|s| - 1], x) {
      GroupAppend(s, [x], p);
    } else {
      var prefix, last := s[..|s| - 1], s[|s| - 1];
      assert s == prefix + [last];
      assert Insert(d, s, x) == Insert(d, prefix, x) + [last];
      InsertGroups(d, prefix, x, p);
      GroupAppend(Insert(d, prefix, x), [last], p);
      GroupAppend(prefix, [last], p);
      GroupSingleton(x, p);
      GroupSingleton(last, p);
      assert x.price != last.price;
    }
  }

  /** Stability: products of equal price keep their relative order. */
  lemma {:induction false} SortByPriceStable(d: Direction, s: seq<Product>)
    ensures forall p :: PriceGroup(SortByPrice(d, s), p) == PriceGroup(s, p)
  {
    if s != [] {
      var prefix, last := s[..|s| - 1], s[|s| - 1];
      assert s == prefix + [last];
      SortByPriceStable(d, prefix);
      assert SortByPrice(d, s) == Insert(d, SortByPrice(d, prefix), last);
      forall p ensures PriceGroup(SortByPrice(d, s), p) == PriceGroup(s, p) {
        InsertGroups(d, SortByPrice(d, prefix), last, p);
        GroupAppend(prefix, [last], p);
      }
    }
  }

  lemma {:induction false} GroupHead(s: seq<Product>, p: int)
    requires s != []
    ensures PriceGroup(s, p) == if s[0].price == p then [s[0]] + PriceGroup(s[1..], p) else PriceGroup(s[1..], p)
  {
  }

  /** The head of a sorted sequence may precede every product of the same price groups. */
  lemma HeadPrecedes(d: Direction, t: seq<Product>, u: seq<Product>)
    requires Sorted(d, t) && t != [] && u != []
    requires forall p :: PriceGroup(t, p) == PriceGroup(u, p)
    ensures InOrder(d, t[0], u[0])
  {
    var k := u[0].price;
    GroupHead(u, k);
    var r := PriceGroup(t, k);
    assert r == PriceGroup(u, k) && r != [];
    assert r[0] in multiset(r);
    FilterCount(t, (y: Product) => y.price == k);
    assert r[0] in multiset(t);
    var i :| 0 <= i < |t| && t[i] == r[0];
    assert t[i].price == k;
    if i > 0 { assert InOrder(d, t[0], t[i]); }
  }

  /**
   * A sorted arrangement is determined by its price groups: two sorted
   * sequences with the same products, in the same order within each price,
   * are equal. With SortByPriceSorted and SortByPriceStable this makes
   * SortByPrice the only result a stable sort can give.
   */
  lemma {:induction false} SortedGroupsDetermine(d: Direction, t: seq<Product>, u: seq<Product>)
    requires Sorted(d, t) && Sorted(d, u)
    requires forall p :: PriceGroup(t, p) == PriceGroup(u, p)
    ensures t == u
    decreases |t|
  {
    if t == [] || u == [] {
      // a non-empty sequence has a non-empty price group, so both are empty
      if t != [] {
        GroupHead(t, t[0].price);
        assert false;
      } else if u != [] {
        GroupHead(u, u[0].price);
        assert false;
      }
    } else {
      HeadPrecedes(d, t, u);
      HeadPrecedes(d, u, t);
      var k := t[0].price;
      assert u[0].price == k;
      GroupHead(t, k);
      GroupHead(u, k);
      assert PriceGroup(t, k) == PriceGroup(u, k);
      assert PriceGroup(t, k)[0] == t[0] && PriceGroup(u, k)[0] == u[0];
      forall p ensures PriceGroup(t[1..], p) == PriceGroup(u[1..], p) {
        GroupHead(t, p);
        GroupHead(u, p);
        assert PriceGroup(t, p) == PriceGroup(u, p);
        if k == p {
          assert ([t[0]] + PriceGroup(t[1..], p))[1..] == PriceGroup(t[1..], p);
          assert ([u[0]] + PriceGroup(u[1..], p))[1..] == PriceGroup(u[1..], p);
        }
      }
      SortedGroupsDetermine(d, t[1..], u[1..]);
      assert t == [t[0]] + t[1..] && u == [u[0]] + u[1..];
    }
  }

  /**
   * Where stable insertion puts `key`: after the last product the comparator
   * lets precede it, when every product after that one must follow it.
   */
  lemma {:induction false} InsertPosition(d: Direction, prefix: seq<Product>, key: Product, j: nat)
    requires j <= |prefix| && (j == 0 || InOrder(d, prefix[j - 1], key))
    requires forall k :: j <= k < |prefix| ==> !InOrder(d, prefix[k], key)
    ensures Insert(d, prefix, key) == prefix[..j] + [key] + prefix[j..]
    decreases |prefix|
  {
    if j == |prefix| {
      assert prefix[..j] == prefix && prefix[j..] == [];
      assert Insert(d, prefix, key) == prefix + [key];
    } else {
      InsertPositionStep(d, prefix, key, j);
    }
  }

  lemma InsertPositionStep(d: Direction, prefix: seq<Product>, key: Product, j: nat)
    requires j < |prefix| && (j == 0 || InOrder(d, prefix[j - 1], key))
    requires forall k :: j <= k < |prefix| ==> !InOrder(d, prefix[k], key)
    ensures Insert(d, prefix, key) == prefix[..j] + [key] + prefix[j..]
    decreases |prefix|, 0
  {
    var init, last := prefix[..|prefix| - 1], prefix[|prefix| - 1];
    assert init[..j] == prefix[..j];
    assert j > 0 ==> init[j - 1] == prefix[j - 1];
    assert Insert(d, prefix, key) == Insert(d, init, key) + [last];
    InsertPosition(d, init, key, j);
    var front, back := prefix[..j] + [key], init[j..];
    assert prefix[j..] == back + [last];
    assert (front + back) + [last] == front + (back + [last]);
  }

  /** A sequence that is `prefix` with `key` inserted at `j`, stated index by index. */
  lemma Splice(s: seq<Product>, prefix: seq<Product>, key: Product, j: nat)
    requires j <= |prefix| && |s| == |prefix| + 1 && s[j] == key
    requires forall k :: 0 <= k < j ==> s[k] == prefix[k]
    requires forall k :: j < k < |s| ==> s[k] == prefix[k - 1]
    ensures s == prefix[..j] + [key] + prefix[j..]
  {
    var left := prefix[..j] + [key];
    assert |left| == j + 1;
    forall k | 0 <= k < |s| ensures s[k] == (left + prefix[j..])[k] {
      if k > j {
        assert (left + prefix[j..])[k] == prefix[j..][k - j - 1];
      }
    }
  }

  lemma SortStep(d: Direction, input: seq<Product>, i: nat)
    requires i < |input|
    ensures SortByPrice(d, input[..i + 1]) == Insert(d, SortByPrice(d, input[..i]), input[i])
  {
    assert input[..i + 1][..i] == input[..i];
  }

  /**
   * The inner loop of the insertion sort: moves the products of `a[..i]` that
   * must follow `key` one place right, and returns the gap left for `key`.
   */
  method ShiftAfter(d: Direction, a: array<Product>, i: nat, key: Product) returns (j: nat)
    requires i < a.Length
    modifies a
    ensures j <= i && (j == 0 || InOrder(d, old(a[j - 1]), key))
    ensures forall k :: 0 <= k < j ==> a[k] == old(a[k])
    ensures forall k :: j < k <= i ==> a[k] == old(a[k - 1])
    ensures forall k :: i < k < a.Length ==> a[k] == old(a[k])
    ensures forall k :: j <= k < i ==> !InOrder(d, old(a[k]), key)
  {
    j := i;
    while j > 0 && Compare(d, a[j - 1], key) > 0
      invariant 0 <= j <= i
      invariant forall k :: 0 <= k < j ==> a[k] == old(a[k])
      invariant forall k :: j < k <= i ==> a[k] == old(a[k - 1])
      invariant forall k :: i < k < a.Length ==> a[k] == old(a[k])
      invariant forall k :: j <= k < i ==> !InOrder(d, old(a[k]), key)
    {
      a[j] := a[j - 1];
      j := j - 1;
    }
  }

  /**
   * One pass of the insertion sort: the sorted prefix `a[..i]` absorbs `a[i]`,
   * shifting the products the comparator puts after it one place to the right.
   */
  method InsertNext(d: Direction, a: array<Product>, i: nat)
    requires i < a.Length
    modifies a
    ensures a[..i + 1] == Insert(d, old(a[..i]), old(a[i]))
    ensures forall k :: i < k < a.Length ==> a[k] == old(a[k])
  {
    var key := a[i];
    ghost var prefix := a[..i];
    var j := ShiftAfter(d, a, i, key);
    a[j] := key;
    InsertPosition(d, prefix, key, j);
    Splice(a[..i + 1], prefix, key, j);
  }

  /** `a.sort(comparator)` on an array, as a stable in-place insertion sort. */
  method InsertionSort(d: Direction, a: array<Product>)
    modifies a
    ensures a[..] == SortByPrice(d, old(a[..]))
  {
    ghost var input := a[..];
    var i := 0;
    while i < a.Length
      invariant 0 <= i <= a.Length
      invariant a[..i] == SortByPrice(d, input[..i])
      invariant forall k :: i <= k < a.Length ==> a[k] == input[k]
    {
      InsertNext(d, a, i);
      SortStep(d, input, i);
      i := i + 1;
    }
    assert input[..a.Length] == input;
  }
}
