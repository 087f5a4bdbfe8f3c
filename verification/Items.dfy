/** Item lists: per-product totals, canonical order, duplicate rejection and aggregation. */
module Items {
  import opened Domain
  import opened Sums

  /** Total quantity of product `p` in a list. */
  function QtyOf(items: seq<Item>, p: int): int {
    if items == [] then 0
    else
      var last := items[|items| - 1];
      QtyOf(items[..|items| - 1], p) + (if last.productId == p then last.quantity else 0)
  }

  predicate Mentions(items: seq<Item>, p: int) {
    exists i :: 0 <= i < |items| && items[i].productId == p
  }

  predicate Distinct(items: seq<Item>) {
    forall i, j :: 0 <= i < j < |items| ==> items[i].productId != items[j].productId
  }

  predicate Ascending(items: seq<Item>) {
    forall i, j :: 0 <= i < j < |items| ==> items[i].productId < items[j].productId
  }

  /** What request binding guarantees of every line. */
  predicate Bound(items: seq<Item>) {
    forall i :: 0 <= i < |items| ==> items[i].productId > 0 && items[i].quantity > 0
  }

  lemma QtyOfSnoc(items: seq<Item>, x: Item, p: int)
    ensures QtyOf(items + [x], p) == QtyOf(items, p) + (if x.productId == p then x.quantity else 0)
  {
    assert (items + [x])[..|items|] == items;
  }

  lemma QtyOfPrefix(items: seq<Item>, k: nat, p: int)
    requires k < |items|
    ensures QtyOf(items[..k + 1], p) == QtyOf(items[..k], p) + (if items[k].productId == p then items[k].quantity else 0)
  {
    assert items[..k + 1] == items[..k] + [items[k]];
    QtyOfSnoc(items[..k], items[k], p);
  }

  lemma {:induction false} QtyOfAbsent(items: seq<Item>, p: int)
    requires !Mentions(items, p)
    ensures QtyOf(items, p) == 0
  {
    if items != [] {
      var init := items[..|items| - 1];
      assert forall i :: 0 <= i < |init| ==> init[i] == items[i];
      assert items[|items| - 1].productId != p;
      QtyOfAbsent(init, p);
    }
  }

  lemma {:induction false} QtyOfNonNegative(items: seq<Item>, p: int)
    requires Bound(items)
    ensures QtyOf(items, p) >= 0
    ensures Mentions(items, p) <==> QtyOf(items, p) > 0
  {
    if items != [] {
      var init := items[..|items| - 1];
      QtyOfNonNegative(init, p);
      if Mentions(init, p) {
        var i :| 0 <= i < |init| && init[i].productId == p;
        assert items[i].productId == p;
      }
      if Mentions(items, p) && items[|items| - 1].productId != p {
        var i :| 0 <= i < |items| && items[i].productId == p;
        assert init[i].productId == p;
      }
    }
  }

  /** With distinct products a line carries the whole quantity of its product. */
  lemma {:induction false} QtyOfLine(items: seq<Item>, k: nat)
    requires Distinct(items) && k < |items|
    ensures QtyOf(items, items[k].productId) == items[k].quantity
  {
    var n := |items| - 1;
    var init := items[..n];
    if k == n {
      QtyOfAbsent(init, items[n].productId);
    } else {
      QtyOfLine(init, k);
    }
  }

  /** Before its own line, a product with distinct lines has been seen zero times. */
  lemma QtyOfBefore(items: seq<Item>, k: nat)
    requires Distinct(items) && k < |items|
    ensures QtyOf(items[..k], items[k].productId) == 0
  {
    QtyOfAbsent(items[..k], items[k].productId);
  }

  // ---- sortedOrderItems ----

  predicate LineLeq(a: Item, b: Item) {
    a.productId < b.productId || (a.productId == b.productId && a.quantity <= b.quantity)
  }

  predicate InOrder(items: seq<Item>) {
    forall i, j :: 0 <= i < j < |items| ==> LineLeq(items[i], items[j])
  }

  lemma InOrderSnoc(items: seq<Item>, x: Item)
    requires InOrder(items) && forall y :: y in items ==> LineLeq(y, x)
    ensures InOrder(items + [x])
  {
  }

  lemma InOrderAppend(items: seq<Item>, x: Item)
    requires InOrder(items) && items != [] && LineLeq(items[|items| - 1], x)
    ensures InOrder(items + [x])
  {
    forall y | y in items ensures LineLeq(y, x) {
      var i :| 0 <= i < |items| && items[i] == y;
      assert i < |items| - 1 ==> LineLeq(items[i], items[|items| - 1]);
    }
    InOrderSnoc(items, x);
  }

  function Insert(x: Item, items: seq<Item>): (r: seq<Item>)
    requires InOrder(items)
    ensures InOrder(r)
    ensures multiset(r) == multiset(items) + multiset{x}
  {
    if items == [] then [x]
    else
      var n := |items| - 1;
      assert items == items[..n] + [items[n]];
      if LineLeq(items[n], x) then
        InOrderAppend(items, x);
        items + [x]
      else
        var rest := Insert(x, items[..n]);
        assert forall y :: y in rest ==> LineLeq(y, items[n]) by {
          forall y | y in rest ensures LineLeq(y, items[n]) {
            assert y in multiset(items[..n]) + multiset{x};
          }
        }
        InOrderSnoc(rest, items[n]);
        rest + [items[n]]
  }

  /** A sorted copy by product id, then quantity. */
  function SortedItems(items: seq<Item>): (r: seq<Item>)
    ensures InOrder(r)
    ensures multiset(r) == multiset(items)
  {
    if items == [] then []
    else
      var n := |items| - 1;
      assert items == items[..n] + [items[n]];
      Insert(items[n], SortedItems(items[..n]))
  }

  /** Sorted lists with the same lines are the same list. */
  lemma {:induction false} InOrderUnique(a: seq<Item>, b: seq<Item>)
    requires InOrder(a) && InOrder(b)
    requires multiset(a) == multiset(b)
    ensures a == b
  {
    assert |multiset(a)| == |a| && |multiset(b)| == |b|;
    if a != [] {
      var n := |a| - 1;
      LastLeq(a, b);
      LastLeq(b, a);
      assert a[n] == b[n];
      DropLast(a);
      DropLast(b);
      InOrderUnique(a[..n], b[..n]);
    }
  }

  lemma DropLast(a: seq<Item>)
    requires a != []
    ensures a == a[..|a| - 1] + [a[|a| - 1]]
    ensures multiset(a[..|a| - 1]) == multiset(a) - multiset{a[|a| - 1]}
  {
    assert a == a[..|a| - 1] + [a[|a| - 1]];
  }

  lemma LastLeq(a: seq<Item>, b: seq<Item>)
    requires a != [] && b != [] && InOrder(b)
    requires multiset(a) == multiset(b)
    ensures LineLeq(a[|a| - 1], b[|b| - 1])
  {
    assert a[|a| - 1] in multiset(b);
    var i :| 0 <= i < |b| && b[i] == a[|a| - 1];
  }

  /** Canonical form: whatever algorithm sorts, equal digests mean equal line multisets and conversely. */
  lemma CanonicalForm(a: seq<Item>, b: seq<Item>)
    ensures SortedItems(a) == SortedItems(b) <==> multiset(a) == multiset(b)
  {
    if multiset(a) == multiset(b) {
      InOrderUnique(SortedItems(a), SortedItems(b));
    }
  }

  lemma {:induction false} SortedOfDistinct(items: seq<Item>)
    requires Distinct(items)
    ensures Ascending(SortedItems(items))
  {
    if items != [] {
      var n := |items| - 1;
      var init := items[..n];
      SortedOfDistinct(init);
      forall y | y in SortedItems(init) ensures y.productId != items[n].productId {
        assert y in multiset(init);
      }
      InsertAscending(items[n], SortedItems(init));
    }
  }

  lemma AscendingSnoc(items: seq<Item>, x: Item)
    requires Ascending(items) && items != [] && items[|items| - 1].productId < x.productId
    ensures Ascending(items + [x])
  {
  }

  lemma AscendingBelow(items: seq<Item>, x: Item)
    requires Ascending(items) && forall y :: y in items ==> y.productId < x.productId
    ensures Ascending(items + [x])
  {
  }

  lemma {:induction false} InsertAscending(x: Item, items: seq<Item>)
    requires InOrder(items) && Ascending(items)
    requires forall y :: y in items ==> y.productId != x.productId
    ensures Ascending(Insert(x, items))
  {
    if items != [] {
      var n := |items| - 1;
      if LineLeq(items[n], x) {
        assert items[n] in items;
        AscendingSnoc(items, x);
      } else {
        InsertAscending(x, items[..n]);
        var r := Insert(x, items[..n]);
        forall y | y in r ensures y.productId < items[n].productId {
          assert y in multiset(items[..n]) + multiset{x};
          assert items[n] in items;
        }
        AscendingBelow(r, items[n]);
      }
    }
  }

  /** Sorting keeps every line, hence bounds and per-product totals. */
  lemma SortedKeeps(items: seq<Item>)
    ensures Bound(items) ==> Bound(SortedItems(items))
    ensures |SortedItems(items)| == |items|
    ensures forall p :: QtyOf(SortedItems(items), p) == QtyOf(items, p)
  {
    var s := SortedItems(items);
    assert |multiset(s)| == |s| && |multiset(items)| == |items|;
    if Bound(items) {
      forall i | 0 <= i < |s| ensures s[i].productId > 0 && s[i].quantity > 0 {
        assert s[i] in multiset(items);
      }
    }
    forall p ensures QtyOf(s, p) == QtyOf(items, p) {
      QtyOfPermutation(s, items, p);
    }
  }

  lemma {:induction false} QtyOfPermutation(a: seq<Item>, b: seq<Item>, p: int)
    requires multiset(a) == multiset(b)
    ensures QtyOf(a, p) == QtyOf(b, p)
  {
    assert |multiset(a)| == |a| && |multiset(b)| == |b|;
    if a != [] {
      var n := |a| - 1;
      assert a == a[..n] + [a[n]];
      assert a[n] in multiset(b);
      var i :| 0 <= i < |b| && b[i] == a[n];
      assert b == b[..i] + [b[i]] + b[i + 1..];
      assert multiset(b[..i] + b[i + 1..]) == multiset(b) - multiset{a[n]};
      assert multiset(a[..n]) == multiset(a) - multiset{a[n]};
      QtyOfPermutation(a[..n], b[..i] + b[i + 1..], p);
      QtyOfConcat(b[..i], b[i + 1..], p);
      QtyOfConcat(b[..i] + [b[i]], b[i + 1..], p);
      QtyOfSnoc(b[..i], b[i], p);
    }
  }

  lemma {:induction false} QtyOfConcat(a: seq<Item>, b: seq<Item>, p: int)
    ensures QtyOf(a + b, p) == QtyOf(a, p) + QtyOf(b, p)
  {
    if b == [] {
      assert a + b == a;
    } else {
      var n := |b| - 1;
      assert a + b == (a + b[..n]) + [b[n]];
      QtyOfSnoc(a + b[..n], b[n], p);
      QtyOfConcat(a, b[..n], p);
    }
  }

  // ---- validateDuplicateItems ----

  method ValidateDuplicateItems(items: seq<Item>) returns (ok: bool)
    ensures ok <==> Distinct(items)
  {
    var seen: set<int> := {};
    for k := 0 to |items|
      invariant forall p :: p in seen <==> Mentions(items[..k], p)
      invariant Distinct(items[..k])
    {
      if items[k].productId in seen {
        var i :| 0 <= i < k && items[..k][i].productId == items[k].productId;
        assert items[i].productId == items[k].productId;
        return false;
      }
      forall i | 0 <= i < k ensures items[i].productId != items[k].productId {
        assert items[..k][i].productId == items[i].productId;
      }
      assert items[..k + 1] == items[..k] + [items[k]];
      seen := seen + {items[k].productId};
      forall p ensures p in seen <==> Mentions(items[..k + 1], p) {
        if Mentions(items[..k], p) {
          var i :| 0 <= i < k && items[..k][i].productId == p;
          assert items[..k + 1][i].productId == p;
        }
        if Mentions(items[..k + 1], p) && p != items[k].productId {
          var i :| 0 <= i < k + 1 && items[..k + 1][i].productId == p;
          assert items[..k][i].productId == p;
        }
        assert items[..k + 1][k] == items[k];
      }
    }
    assert items[..|items|] == items;
    return true;
  }

  // ---- aggregateAndSortOrderItems ----

  /** Rows with a non-positive product id are dropped before aggregation. */
  function Valid(items: seq<Item>): (r: seq<Item>) {
    if items == [] then []
    else
      var n := |items| - 1;
      Valid(items[..n]) + (if items[n].productId > 0 then [items[n]] else [])
  }

  lemma {:induction false} ValidOfBound(items: seq<Item>)
    requires forall i :: 0 <= i < |items| ==> items[i].productId > 0
    ensures Valid(items) == items
  {
    if items != [] {
      var n := |items| - 1;
      ValidOfBound(items[..n]);
      assert items == items[..n] + [items[n]];
    }
  }

  /** `r` is the aggregate of `items`: ascending products, exactly those mentioned, totals preserved. */
  ghost predicate Aggregates(items: seq<Item>, r: seq<Item>) {
    Ascending(r) && SameTotals(r, items)
  }

  /** The aggregate as a value: each line joins the line of its product or takes its place in order. */
  function AddLine(x: Item, items: seq<Item>): (r: seq<Item>)
    requires Ascending(items)
    ensures Ascending(r)
    ensures forall y :: y in r ==> y.productId == x.productId || y in items
  {
    if items == [] then [x]
    else
      var n := |items| - 1;
      var last := items[n];
      if last.productId < x.productId then items + [x]
      else if last.productId == x.productId then items[..n] + [Item(x.productId, last.quantity + x.quantity)]
      else AddLine(x, items[..n]) + [last]
  }

  function Aggregate(items: seq<Item>): (r: seq<Item>)
    ensures Ascending(r)
  {
    if items == [] then []
    else
      var n := |items| - 1;
      var rest := Aggregate(items[..n]);
      if items[n].productId > 0 then AddLine(items[n], rest) else rest
  }

  /** The three shapes of an insertion, each as a list with one known last line. */
  lemma AddLineShape(x: Item, items: seq<Item>)
    requires Ascending(items) && items != []
    ensures var n := |items| - 1;
      AddLine(x, items) ==
        if items[n].productId < x.productId then items + [x]
        else if items[n].productId == x.productId then items[..n] + [Item(x.productId, items[n].quantity + x.quantity)]
        else AddLine(x, items[..n]) + [items[n]]
  {
  }

  lemma {:induction false} AddLineQty(x: Item, items: seq<Item>, p: int)
    requires Ascending(items)
    ensures QtyOf(AddLine(x, items), p) == QtyOf(items, p) + (if x.productId == p then x.quantity else 0)
  {
    if items == [] {
      assert AddLine(x, items) == items + [x];
      QtyOfSnoc(items, x, p);
    } else {
      var init, last := items[..|items| - 1], items[|items| - 1];
      var before := QtyOf(init, p);
      assert QtyOf(items, p) == before + (if last.productId == p then last.quantity else 0);
      var added := AddLine(x, init);
      AddLineQty(x, init, p);
      AddLineShape(x, items);
      QtyOfSnoc(items, x, p);
      QtyOfSnoc(init, Item(x.productId, last.quantity + x.quantity), p);
      QtyOfSnoc(added, last, p);
    }
  }

  lemma AscendingInit(items: seq<Item>)
    requires Ascending(items) && items != []
    ensures Ascending(items[..|items| - 1])
  {
  }

  lemma {:induction false} AddLineMentions(x: Item, items: seq<Item>, p: int)
    requires Ascending(items)
    ensures Mentions(AddLine(x, items), p) <==> Mentions(items, p) || x.productId == p
  {
    if items == [] {
      assert AddLine(x, items) == items + [x];
      MentionsSnoc(items, x, p);
    } else {
      var init, last := items[..|items| - 1], items[|items| - 1];
      assert items == init + [last];
      hide Mentions, Ascending;
      MentionsSnoc(init, last, p);
      if last.productId < x.productId {
        MentionsSnoc(items, x, p);
      } else if last.productId == x.productId {
        MentionsSnoc(init, Item(x.productId, last.quantity + x.quantity), p);
      } else {
        AscendingInit(items);
        AddLineMentions(x, init, p);
        MentionsSnoc(AddLine(x, init), last, p);
      }
    }
  }

  lemma {:induction false} AggregateAggregates(items: seq<Item>)
    ensures Aggregates(Valid(items), Aggregate(items))
  {
    if items != [] {
      var init, last := items[..|items| - 1], items[|items| - 1];
      AggregateAggregates(init);
      if last.productId > 0 {
        AggregateSnoc(Valid(init), Aggregate(init), last);
      } else {
        assert Valid(items) == Valid(init);
      }
    }
  }

  lemma AggregateSnoc(items: seq<Item>, r: seq<Item>, x: Item)
    requires Aggregates(items, r)
    ensures Aggregates(items + [x], AddLine(x, r))
  {
    var more, grown := items + [x], AddLine(x, r);
    forall p ensures (Mentions(grown, p) <==> Mentions(more, p)) && QtyOf(grown, p) == QtyOf(more, p) {
      AddLineQty(x, r, p);
      AddLineMentions(x, r, p);
      MentionsSnoc(items, x, p);
      QtyOfSnoc(items, x, p);
    }
  }

  /** There is at most one aggregate, so the map iteration order cannot matter. */
  lemma AggregateUnique(items: seq<Item>, a: seq<Item>, b: seq<Item>)
    requires Aggregates(items, a) && Aggregates(items, b)
    ensures a == b
  {
    AscendingUnique(a, b);
  }

  ghost predicate SameTotals(a: seq<Item>, b: seq<Item>) {
    forall p :: (Mentions(a, p) <==> Mentions(b, p)) && QtyOf(a, p) == QtyOf(b, p)
  }

  lemma {:induction false} AscendingUnique(a: seq<Item>, b: seq<Item>)
    requires Ascending(a) && Ascending(b) && SameTotals(a, b)
    ensures a == b
  {
    if b != [] {
      assert Mentions(b, b[0].productId);
    }
    if a != [] {
      assert Mentions(a, a[0].productId);
      LastLinesAgree(a, b);
      InitsAgree(a, b);
      AscendingUnique(a[..|a| - 1], b[..|b| - 1]);
      assert a == a[..|a| - 1] + [a[|a| - 1]] && b == b[..|b| - 1] + [b[|b| - 1]];
    }
  }

  lemma LastLinesAgree(a: seq<Item>, b: seq<Item>)
    requires Ascending(a) && Ascending(b) && SameTotals(a, b)
    requires a != [] && b != []
    ensures a[|a| - 1] == b[|b| - 1]
  {
    var n, m := |a| - 1, |b| - 1;
    assert Mentions(a, a[n].productId);
    assert Mentions(b, b[m].productId);
    var i :| 0 <= i < |b| && b[i].productId == a[n].productId;
    var j :| 0 <= j < |a| && a[j].productId == b[m].productId;
    assert a[n].productId == b[m].productId;
    QtyOfLine(a, n);
    QtyOfLine(b, m);
  }

  lemma InitsAgree(a: seq<Item>, b: seq<Item>)
    requires Ascending(a) && Ascending(b) && SameTotals(a, b)
    requires a != [] && b != [] && a[|a| - 1] == b[|b| - 1]
    ensures SameTotals(a[..|a| - 1], b[..|b| - 1])
  {
    var c, d := a[..|a| - 1], b[..|b| - 1];
    forall p ensures (Mentions(c, p) <==> Mentions(d, p)) && QtyOf(c, p) == QtyOf(d, p) {
      MentionsInit(a, p);
      MentionsInit(b, p);
      assert QtyOf(a, p) == QtyOf(b, p);
    }
  }

  lemma MentionsInit(a: seq<Item>, p: int)
    requires Ascending(a) && a != []
    ensures Mentions(a[..|a| - 1], p) <==> Mentions(a, p) && p != a[|a| - 1].productId
  {
    var n := |a| - 1;
    if Mentions(a[..n], p) {
      var i :| 0 <= i < n && a[..n][i].productId == p;
      assert a[i].productId == p;
    }
    if Mentions(a, p) && p != a[n].productId {
      var i :| 0 <= i < |a| && a[i].productId == p;
      assert a[..n][i].productId == p;
    }
  }

  lemma MentionsSnoc(items: seq<Item>, x: Item, p: int)
    ensures Mentions(items + [x], p) <==> Mentions(items, p) || x.productId == p
  {
    var all := items + [x];
    assert all[|items|] == x;
    if Mentions(items, p) {
      var i :| 0 <= i < |items| && items[i].productId == p;
      assert all[i].productId == p;
    }
    if Mentions(all, p) && x.productId != p {
      var i :| 0 <= i < |all| && all[i].productId == p;
      assert items[i].productId == p;
    }
  }

  /** Sums quantities per product in a map, then lists the map in any order and sorts. */
  method AggregateAndSort(items: seq<Item>) returns (r: seq<Item>)
    ensures Aggregates(Valid(items), r)
    ensures r == Aggregate(items)
  {
    var qty: map<int, int> := map[];
    for k := 0 to |items|
      invariant forall p :: p in qty <==> Mentions(Valid(items[..k]), p)
      invariant forall p :: p in qty ==> qty[p] == QtyOf(Valid(items[..k]), p)
    {
      assert items[..k + 1][..k] == items[..k];
      var x := items[k];
      if x.productId > 0 {
        forall p ensures (Mentions(Valid(items[..k + 1]), p) <==> Mentions(Valid(items[..k]), p) || x.productId == p)
                      && QtyOf(Valid(items[..k + 1]), p) == QtyOf(Valid(items[..k]), p) + (if x.productId == p then x.quantity else 0) {
          MentionsSnoc(Valid(items[..k]), x, p);
          QtyOfSnoc(Valid(items[..k]), x, p);
        }
        if x.productId !in qty {
          QtyOfAbsent(Valid(items[..k]), x.productId);
        }
        qty := qty[x.productId := (if x.productId in qty then qty[x.productId] else 0) + x.quantity];
      } else {
        assert Valid(items[..k + 1]) == Valid(items[..k]);
      }
    }
    assert items[..|items|] == items;
    r := ListByProduct(qty);
    forall p ensures (Mentions(r, p) <==> Mentions(Valid(items), p)) && QtyOf(r, p) == QtyOf(Valid(items), p) {
      if p in qty {
        var i :| 0 <= i < |r| && r[i].productId == p;
        QtyOfLine(r, i);
      } else {
        QtyOfAbsent(r, p);
        QtyOfAbsent(Valid(items), p);
      }
    }
    AggregateAggregates(items);
    AggregateUnique(Valid(items), r, Aggregate(items));
  }

  /** Lists the entries of a quantity map in an arbitrary order, then sorts by product. */
  method ListByProduct(qty: map<int, int>) returns (r: seq<Item>)
    ensures Ascending(r)
    ensures forall p :: Mentions(r, p) <==> p in qty
    ensures forall i :: 0 <= i < |r| ==> r[i].productId in qty && r[i].quantity == qty[r[i].productId]
  {
    var rest := qty.Keys;
    var listed: seq<Item> := [];
    while rest != {}
      invariant rest <= qty.Keys
      invariant forall p :: p in qty && p !in rest <==> Mentions(listed, p)
      invariant Distinct(listed)
      invariant forall x :: x in listed ==> x.productId in qty && x.quantity == qty[x.productId]
      decreases rest
    {
      NonEmpty(rest);
      var p :| p in rest;
      forall q ensures Mentions(listed + [Item(p, qty[p])], q) <==> Mentions(listed, q) || q == p {
        MentionsSnoc(listed, Item(p, qty[p]), q);
      }
      listed := listed + [Item(p, qty[p])];
      rest := rest - {p};
    }
    r := SortedItems(listed);
    SortedOfDistinct(listed);
    forall x | x in r ensures x in listed { assert x in multiset(listed); }
    forall x | x in listed ensures x in r { assert x in multiset(r); }
    forall p ensures Mentions(r, p) <==> p in qty {
      if Mentions(listed, p) {
        var i :| 0 <= i < |listed| && listed[i].productId == p;
        assert listed[i] in r;
      }
    }
  }

  /** An already canonical list is its own aggregate. */
  lemma AggregateOfAscending(items: seq<Item>)
    requires Ascending(items) && Bound(items)
    ensures Aggregate(items) == items
  {
    ValidOfBound(items);
    AggregateAggregates(items);
    AscendingUnique(items, Aggregate(items));
  }
}
