/** The location-sorted copy of an order's items that both the picking screen and
    the history detail display. The order's own item list is a value and is never
    reordered. Locations are compared character by character. */
module ItemOrder {
  import opened Types

  /** Lexicographic "not after" on location strings. */
  predicate LocLeq(a: string, b: string)
    decreases |a|
  {
    |a| == 0 || (|b| > 0 && (a[0] < b[0] || (a[0] == b[0] && LocLeq(a[1..], b[1..]))))
  }

  /** Any two locations are comparable, so the sort can always place an item. */
  lemma {:induction false} LocLeqTotal(a: string, b: string)
    ensures LocLeq(a, b) || LocLeq(b, a)
    decreases |a|
  {
    if |a| > 0 && |b| > 0 && a[0] == b[0] {
      LocLeqTotal(a[1..], b[1..]);
    }
  }

  /** Each item's location is not after the next one's. */
  predicate SortedByLocation(s: seq<OrderItem>)
  {
    forall i :: 0 < i < |s| ==> LocLeq(s[i - 1].location, s[i].location)
  }

  /** Places `x` before the first item whose location is not before it. */
  function Insert(x: OrderItem, t: seq<OrderItem>): (r: seq<OrderItem>)
    ensures |r| == |t| + 1
    ensures multiset(r) == multiset(t) + multiset{x}
    ensures r[0] == x || (|t| > 0 && r[0] == t[0])
  {
    if t == [] then [x]
    else if LocLeq(x.location, t[0].location) then [x] + t
    else
      var rest := Insert(x, t[1..]);
      assert t == [t[0]] + t[1..];
      [t[0]] + rest
  }

  /** Inserting into a location-sorted list keeps it sorted. */
  lemma {:induction false} InsertKeepsSorted(x: OrderItem, t: seq<OrderItem>)
    requires SortedByLocation(t)
    ensures SortedByLocation(Insert(x, t))
    decreases |t|
  {
    if t != [] && !LocLeq(x.location, t[0].location) {
      LocLeqTotal(x.location, t[0].location);
      var rest := Insert(x, t[1..]);
      InsertKeepsSorted(x, t[1..]);
      assert Insert(x, t) == [t[0]] + rest;
      assert LocLeq(t[0].location, rest[0].location);
    }
  }

  /** The displayed item list: the same items, sorted by location. */
  function SortByLocation(items: seq<OrderItem>): (r: seq<OrderItem>)
    ensures |r| == |items|
    ensures multiset(r) == multiset(items)
    ensures SortedByLocation(r)
  {
    if items == [] then []
    else
      assert items == [items[0]] + items[1..];
      InsertKeepsSorted(items[0], SortByLocation(items[1..]));
      Insert(items[0], SortByLocation(items[1..]))
  }

  /** The sorted copy shows exactly the items of the order, each item number included. */
  lemma SortedCopyHasSameItemNos(items: seq<OrderItem>)
    ensures ItemNos(SortByLocation(items)) == ItemNos(items)
  {
    var r := SortByLocation(items);
    forall x | x in ItemNos(r) ensures x in ItemNos(items) {
      var i :| 0 <= i < |r| && r[i].itemNo == x;
      assert r[i] in multiset(items);
      var j :| 0 <= j < |items| && items[j] == r[i];
    }
    forall x | x in ItemNos(items) ensures x in ItemNos(r) {
      var i :| 0 <= i < |items| && items[i].itemNo == x;
      assert items[i] in multiset(r);
      var j :| 0 <= j < |r| && r[j] == items[i];
    }
  }
}
