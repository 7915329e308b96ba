/** `rows.sort(key=lambda x: x[2])` (newsletter.py:71): a stable sort of the
    route rows by price, done in place. */
module Ranking {
  import opened Routes

  predicate SortedByPrice(s: seq<Row>)
  {
    forall i, j :: 0 <= i < j < |s| ==> s[i].price <= s[j].price
  }

  /** The rows of `s` priced `k`, in the order `s` has them. */
  function WithPrice(s: seq<Row>, k: int): (r: seq<Row>)
    ensures |r| <= |s|
  {
    if s == [] then []
    else WithPrice(s[..|s| - 1], k) + (if s[|s| - 1].price == k then [s[|s| - 1]] else [])
  }

  /** Places `x` after every row of `s` that is not dearer than it. */
  function Insert(s: seq<Row>, x: Row): (r: seq<Row>)
    ensures |r| == |s| + 1
  {
    if s == [] || s[|s| - 1].price <= x.price then s + [x]
    else Insert(s[..|s| - 1], x) + [s[|s| - 1]]
  }

  /** Insertion sort by price (the left fold of `Insert`). */
  function SortByPrice(s: seq<Row>): (r: seq<Row>)
    ensures |r| == |s|
  {
    if s == [] then [] else Insert(SortByPrice(s[..|s| - 1]), s[|s| - 1])
  }

  /** Inserting adds exactly `x`. */
  lemma {:induction false} InsertPermutes(s: seq<Row>, x: Row)
    ensures multiset(Insert(s, x)) == multiset(s) + multiset{x}
  {
    if !(s == [] || s[|s| - 1].price <= x.price) {
      var init, last := s[..|s| - 1], s[|s| - 1];
      assert s == init + [last];
      InsertPermutes(init, x);
    }
  }

  /** Every row of the result is `x` or a row of `s`. */
  lemma {:induction false} InsertMembers(s: seq<Row>, x: Row)
    ensures forall y :: y in Insert(s, x) ==> y == x || y in s
  {
    if !(s == [] || s[|s| - 1].price <= x.price) {
      var init := s[..|s| - 1];
      InsertMembers(init, x);
      assert forall y :: y in init ==> y in s;
    }
  }

  /** Inserting into a sorted list keeps it sorted. */
  lemma {:induction false} InsertSorted(s: seq<Row>, x: Row)
    requires SortedByPrice(s)
    ensures SortedByPrice(Insert(s, x))
  {
    if !(s == [] || s[|s| - 1].price <= x.price) {
      var init, last := s[..|s| - 1], s[|s| - 1];
      assert SortedByPrice(init);
      InsertSorted(init, x);
      InsertMembers(init, x);
      var t := Insert(init, x);
      forall i | 0 <= i < |t|
        ensures t[i].price <= last.price
      {
        assert t[i] in t;
        if t[i] != x {
          var j :| 0 <= j < |init| && init[j] == t[i];
          assert s[j] == t[i];
        }
      }
      assert Insert(s, x) == t + [last];
    }
  }

  /** `SortByPrice` returns its rows in ascending price order. */
  lemma {:induction false} SortByPriceSorts(s: seq<Row>)
    ensures SortedByPrice(SortByPrice(s))
  {
    if s != [] {
      SortByPriceSorts(s[..|s| - 1]);
      InsertSorted(SortByPrice(s[..|s| - 1]), s[|s| - 1]);
    }
  }

  /** `SortByPrice` returns the same rows. */
  lemma {:induction false} SortByPricePermutes(s: seq<Row>)
    ensures multiset(SortByPrice(s)) == multiset(s)
  {
    if s != [] {
      var init, last := s[..|s| - 1], s[|s| - 1];
      calc {
        multiset(SortByPrice(s));
        multiset(Insert(SortByPrice(init), last));
        { InsertPermutes(SortByPrice(init), last); }
        multiset(SortByPrice(init)) + multiset{last};
        { SortByPricePermutes(init); }
        multiset(init) + multiset{last};
        { assert s == init + [last]; }
        multiset(s);
      }
    }
  }

  /** `SortByPrice` returns the same rows, in ascending price order. */
  lemma SortByPriceSortsAndPermutes(s: seq<Row>)
    ensures SortedByPrice(SortByPrice(s))
    ensures multiset(SortByPrice(s)) == multiset(s)
  {
    SortByPriceSorts(s);
    SortByPricePermutes(s);
  }

  lemma {:induction false} WithPriceAppend(a: seq<Row>, b: seq<Row>, k: int)
    ensures WithPrice(a + b, k) == WithPrice(a, k) + WithPrice(b, k)
  {
    if b != [] {
      var b' := b[..|b| - 1];
      assert (a + b)[..|a + b| - 1] == a + b';
      WithPriceAppend(a, b', k);
    } else {
      assert a + b == a;
    }
  }

  /** Inserting into a sorted list keeps the rows of each price in order and
      puts `x` after the rows that share its price. */
  lemma {:induction false} InsertStable(s: seq<Row>, x: Row, k: int)
    requires SortedByPrice(s)
    ensures WithPrice(Insert(s, x), k) == WithPrice(s, k) + WithPrice([x], k)
  {
    if s == [] || s[|s| - 1].price <= x.price {
      WithPriceAppend(s, [x], k);
    } else {
      var init, last := s[..|s| - 1], s[|s| - 1];
      assert s == init + [last];
      InsertStable(init, x, k);
      WithPriceAppend(Insert(init, x), [last], k);
      WithPriceAppend(init, [last], k);
      assert [last][..0] == [] && [x][..0] == [];
    }
  }

  /** The sort is stable: for every price, the rows of that price appear in
      the same order before and after sorting. */
  lemma {:induction false} SortStable(s: seq<Row>, k: int)
    ensures WithPrice(SortByPrice(s), k) == WithPrice(s, k)
  {
    if s != [] {
      var init, last := s[..|s| - 1], s[|s| - 1];
      var sorted := SortByPrice(init);
      SortByPriceSorts(init);
      calc {
        WithPrice(SortByPrice(s), k);
        WithPrice(Insert(sorted, last), k);
        { InsertStable(sorted, last, k); }
        WithPrice(sorted, k) + WithPrice([last], k);
        { SortStable(init, k); }
        WithPrice(init, k) + WithPrice([last], k);
        { WithPriceAppend(init, [last], k); }
        WithPrice(init + [last], k);
        { assert init + [last] == s; }
        WithPrice(s, k);
      }
    }
  }

  /** The rows of a non-empty list priced like its last row end with that row. */
  lemma WithPriceOfLast(s: seq<Row>)
    requires s != []
    ensures WithPrice(s, s[|s| - 1].price) == WithPrice(s[..|s| - 1], s[|s| - 1].price) + [s[|s| - 1]]
  {
  }

  /** In a sorted list, every row priced `k` costs no more than the last row. */
  lemma PricedNoDearerThanLast(s: seq<Row>, k: int)
    requires SortedByPrice(s) && WithPrice(s, k) != []
    ensures s != [] && k <= s[|s| - 1].price
  {
  }

  /** A list with a row priced like the last row of a non-empty list is not
      empty. */
  lemma NotEmptyAlike(a: seq<Row>, b: seq<Row>)
    requires a != [] && WithPrice(a, a[|a| - 1].price) == WithPrice(b, a[|a| - 1].price)
    ensures b != []
  {
  }

  /** Two sorted lists that agree on the rows priced like either last row end
      on the same price. */
  lemma LastPricesAgree(a: seq<Row>, b: seq<Row>)
    requires SortedByPrice(a) && SortedByPrice(b) && a != [] && b != []
    requires WithPrice(a, a[|a| - 1].price) == WithPrice(b, a[|a| - 1].price)
    requires WithPrice(a, b[|b| - 1].price) == WithPrice(b, b[|b| - 1].price)
    ensures a[|a| - 1].price == b[|b| - 1].price
  {
    WithPriceOfLast(a);
    PricedNoDearerThanLast(b, a[|a| - 1].price);
    WithPriceOfLast(b);
    PricedNoDearerThanLast(a, b[|b| - 1].price);
  }

  /** Two lists ending on the same price, with the same rows of that price,
      end with the same row. */
  lemma LastRowsAgree(a: seq<Row>, b: seq<Row>)
    requires a != [] && b != [] && a[|a| - 1].price == b[|b| - 1].price
    requires WithPrice(a, a[|a| - 1].price) == WithPrice(b, a[|a| - 1].price)
    ensures a[|a| - 1] == b[|b| - 1]
  {
  }

  /** Dropping the same last row from both lists keeps the rows of each price
      equal. */
  lemma DropLastRow(a: seq<Row>, b: seq<Row>, k: int)
    requires a != [] && b != [] && a[|a| - 1] == b[|b| - 1]
    requires WithPrice(a, k) == WithPrice(b, k)
    ensures WithPrice(a[..|a| - 1], k) == WithPrice(b[..|b| - 1], k)
  {
    var x := a[|a| - 1];
    var e := if x.price == k then [x] else [];
    var pa, pb := WithPrice(a[..|a| - 1], k), WithPrice(b[..|b| - 1], k);
    assert WithPrice(a, k) == pa + e && WithPrice(b, k) == pb + e;
    assert pa == (pa + e)[..|pa|] && pb == (pb + e)[..|pb|];
  }

  /** Two sorted lists with the same rows of each price, in the same order,
      are one list: whatever stable algorithm sorts the rows, the result is
      `SortByPrice`'s. */
  lemma {:induction false} StableSortUnique(a: seq<Row>, b: seq<Row>)
    requires SortedByPrice(a) && SortedByPrice(b)
    requires forall k :: WithPrice(a, k) == WithPrice(b, k)
    ensures a == b
    decreases |a|
  {
    if a != [] {
      assert WithPrice(a, a[|a| - 1].price) == WithPrice(b, a[|a| - 1].price);
      NotEmptyAlike(a, b);
      assert WithPrice(a, b[|b| - 1].price) == WithPrice(b, b[|b| - 1].price);
      LastPricesAgree(a, b);
      LastRowsAgree(a, b);
      var a', b' := a[..|a| - 1], b[..|b| - 1];
      forall k
        ensures WithPrice(a', k) == WithPrice(b', k)
      {
        DropLastRow(a, b, k);
      }
      assert SortedByPrice(a') && SortedByPrice(b');
      StableSortUnique(a', b');
      assert a == a' + [a[|a| - 1]] && b == b' + [b[|b| - 1]];
    } else if b != [] {
      NotEmptyAlike(b, a);
      assert false;
    }
  }

  /** The result of `SortByPrice` is the only stable sorted rearrangement. */
  lemma SortByPriceIsTheStableSort(s: seq<Row>, t: seq<Row>)
    requires SortedByPrice(t)
    requires forall k :: WithPrice(t, k) == WithPrice(s, k)
    ensures t == SortByPrice(s)
  {
    forall k
      ensures WithPrice(t, k) == WithPrice(SortByPrice(s), k)
    {
      SortStable(s, k);
    }
    SortByPriceSortsAndPermutes(s);
    StableSortUnique(t, SortByPrice(s));
  }

  /** Where `Insert` puts `x`: behind the last row that is not dearer, ahead
      of the dearer rows after it. */
  lemma {:induction false} InsertAt(sorted: seq<Row>, x: Row, j: nat)
    requires j <= |sorted|
    requires j == 0 || sorted[j - 1].price <= x.price
    requires forall k :: j <= k < |sorted| ==> sorted[k].price > x.price
    ensures Insert(sorted, x) == sorted[..j] + [x] + sorted[j..]
    decreases |sorted| - j
  {
    if j < |sorted| {
      var init := sorted[..|sorted| - 1];
      assert init[..j] == sorted[..j];
      InsertAt(init, x, j);
      assert sorted[j..] == init[j..] + [sorted[|sorted| - 1]];
    } else {
      assert sorted[..j] == sorted;
    }
  }

  /** A list that agrees with `sorted` before `j`, holds `x` at `j` and
      agrees with `sorted` shifted by one after `j` is `sorted` with `x`
      inserted at `j`. */
  lemma Placed(s: seq<Row>, sorted: seq<Row>, x: Row, j: nat)
    requires |s| == |sorted| + 1 && j <= |sorted|
    requires forall k :: 0 <= k < j ==> s[k] == sorted[k]
    requires s[j] == x
    requires forall k :: j < k < |s| ==> s[k] == sorted[k - 1]
    ensures s == sorted[..j] + [x] + sorted[j..]
  {
  }

  /** One pass of insertion sort: `a[i]` moves back into the sorted `a[..i]`. */
  method InsertIntoPrefix(a: array<Row>, i: int)
    requires 0 <= i < a.Length
    modifies a
    ensures a[..i + 1] == Insert(old(a[..i]), old(a[i]))
    ensures a[i + 1..] == old(a[i + 1..])
  {
    var x := a[i];
    ghost var sorted := a[..i];
    var j := i;
    while j > 0 && a[j - 1].price > x.price
      invariant 0 <= j <= i
      invariant forall k :: 0 <= k < j ==> a[k] == sorted[k]
      invariant forall k :: j < k <= i ==> a[k] == sorted[k - 1]
      invariant forall k :: i < k < a.Length ==> a[k] == old(a[k])
      invariant forall k :: j <= k < i ==> sorted[k].price > x.price
    {
      a[j] := a[j - 1];
      j := j - 1;
    }
    a[j] := x;
    InsertAt(sorted, x, j);
    Placed(a[..i + 1], sorted, x, j);
  }

  /** The in-place sort: insertion sort on the array of rows. */
  method SortRowsByPrice(a: array<Row>)
    modifies a
    ensures a[..] == SortByPrice(old(a[..]))
  {
    ghost var input := a[..];
    var i := 0;
    while i < a.Length
      invariant 0 <= i <= a.Length
      invariant a[..i] == SortByPrice(input[..i])
      invariant a[i..] == input[i..]
    {
      ghost var prefix, x := a[..i], a[i];
      assert x == input[i] && input[..i + 1][..i] == input[..i];
      assert SortByPrice(input[..i + 1]) == Insert(prefix, x);
      InsertIntoPrefix(a, i);
      assert a[..i + 1] == Insert(prefix, x);
      assert a[i + 1..] == input[i + 1..];
      i := i + 1;
    }
    assert input[..a.Length] == input;
  }
}
