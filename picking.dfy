/** The picking screen of one order: a ledger of picked item numbers seeded from
    the order's persisted picks, toggled item by item, with its progress and the
    two finishing actions (cancel, complete) that hand the ledger on unchanged.
    A JavaScript Set iterates in insertion order, so the ledger is a sequence
    without repetitions: adding appends, deleting removes in place. */
module Picking {
  import opened Types
  import opened ItemOrder

  /** The distinct elements of `s` in order of first occurrence (`new Set(s)`). */
  function Distinct(s: seq<string>): (r: seq<string>)
    ensures NoDups(r)
    ensures forall x :: x in r <==> x in s
    ensures |r| <= |s|
    ensures NoDups(s) ==> r == s
  {
    if s == [] then []
    else
      var d := Distinct(s[..|s| - 1]);
      assert s == s[..|s| - 1] + [s[|s| - 1]];
      if s[|s| - 1] in d then d else d + [s[|s| - 1]]
  }

  /** The ledger a picking session starts from: the order's persisted picks, so a
      reopened order resumes where it stopped; none when the order has none. */
  function SeedLedger(o: Order): (r: seq<string>)
    ensures NoDups(r)
    ensures forall x :: x in r <==> x in PickedOrEmpty(o)
    ensures o.pickedItems.None? ==> r == []
  {
    Distinct(PickedOrEmpty(o))
  }

  /** `s` without the element `x`, the others kept in order. */
  function Without(s: seq<string>, x: string): (r: seq<string>)
    ensures x !in r
    ensures forall y :: y != x ==> (y in r <==> y in s)
    ensures NoDups(s) ==> NoDups(r)
    ensures x !in s ==> r == s
    ensures NoDups(s) && x in s ==> |r| == |s| - 1
  {
    if s == [] then []
    else if s[0] == x then Without(s[1..], x)
    else
      assert s == [s[0]] + s[1..];
      var rest := Without(s[1..], x);
      assert NoDups(s) ==> s[0] !in s[1..] && s[0] !in rest;
      [s[0]] + rest
  }

  /** The ledger after one toggle of `x`: deleted if present, else appended. */
  function Toggled(s: seq<string>, x: string): (r: seq<string>)
    requires NoDups(s)
    ensures NoDups(r)
    ensures x in r <==> x !in s
    ensures forall y :: y != x ==> (y in r <==> y in s)
    ensures x in s ==> |r| == |s| - 1
    ensures x !in s ==> |r| == |s| + 1
  {
    if x in s then Without(s, x) else s + [x]
  }

  lemma {:induction false} WithoutAppended(s: seq<string>, x: string)
    requires x !in s
    ensures Without(s + [x], x) == s
    decreases |s|
  {
    if s == [] {
      assert [x][1..] == [];
    } else {
      assert (s + [x])[1..] == s[1..] + [x];
      WithoutAppended(s[1..], x);
      assert s == [s[0]] + s[1..];
    }
  }

  /** Toggling the same item twice gives back the same picked set; when the item was
      not picked, it gives back the very same ledger. (When it was picked, the item
      comes back at the end of the ledger.) */
  lemma ToggleTwice(s: seq<string>, x: string)
    requires NoDups(s)
    ensures forall y :: y in Toggled(Toggled(s, x), x) <==> y in s
    ensures x !in s ==> Toggled(Toggled(s, x), x) == s
    ensures x in s ==> Toggled(Toggled(s, x), x) == Without(s, x) + [x]
  {
    if x !in s {
      WithoutAppended(s, x);
    }
  }

  /** Progress in percent of `picked` items out of `total`; an empty order is 100. */
  function Progress(picked: nat, total: nat): (r: real)
    ensures total == 0 ==> r == 100.0
    ensures r >= 0.0
  {
    if total == 0 then 100.0 else (picked as real / total as real) * 100.0
  }

  /** Progress reads 100 exactly when every item is counted as picked or there are none;
      it never exceeds 100 while the count does not exceed the items. */
  lemma ProgressFull(picked: nat, total: nat)
    ensures Progress(picked, total) == 100.0 <==> (total == 0 || picked == total)
    ensures picked <= total ==> Progress(picked, total) <= 100.0
  {
    if total > 0 {
      var q := picked as real / total as real;
      assert q * total as real == picked as real;
      if q * 100.0 == 100.0 {
        assert q == 1.0;
      }
      assert (q - 1.0) * total as real == picked as real - total as real;
    }
  }

  /** The item numbers of `items` are pairwise distinct. */
  predicate UniqueItemNos(items: seq<OrderItem>)
  {
    forall i, j :: 0 <= i < j < |items| ==> items[i].itemNo != items[j].itemNo
  }

  lemma {:induction false} DistinctSeqCard(s: seq<string>)
    requires NoDups(s)
    ensures |set x | x in s| == |s|
    decreases |s|
  {
    if s != [] {
      var t := s[1..];
      assert NoDups(t);
      DistinctSeqCard(t);
      assert (set x | x in s) == (set x | x in t) + {s[0]};
      assert s[0] !in (set x | x in t);
    }
  }

  lemma {:induction false} UniqueItemNosCard(items: seq<OrderItem>)
    requires UniqueItemNos(items)
    ensures |ItemNos(items)| == |items|
    decreases |items|
  {
    if items != [] {
      var t := items[1..];
      UniqueItemNosCard(t);
      assert ItemNos(items) == ItemNos(t) + {items[0].itemNo};
      assert forall i :: 0 <= i < |t| ==> t[i].itemNo != items[0].itemNo by {
        forall i | 0 <= i < |t| ensures t[i].itemNo != items[0].itemNo {
          assert t[i] == items[i + 1];
        }
      }
      assert UniqueItemNos(t);
    }
  }

  /** `picked` mentions only item numbers of `items`. */
  predicate Contained(picked: seq<string>, items: seq<OrderItem>)
  {
    forall x :: x in picked ==> x in ItemNos(items)
  }

  /** "All items picked" (progress at 100) means that every item of the order is in
      the ledger, for a ledger holding only this order's distinct item numbers. */
  lemma AllPickedMeansEveryItem(picked: seq<string>, items: seq<OrderItem>)
    requires NoDups(picked) && UniqueItemNos(items) && Contained(picked, items)
    ensures Progress(|picked|, |items|) == 100.0 <==> forall i :: 0 <= i < |items| ==> items[i].itemNo in picked
  {
    ProgressFull(|picked|, |items|);
    var p := set x | x in picked;
    DistinctSeqCard(picked);
    UniqueItemNosCard(items);
    assert p <= ItemNos(items);
    if |picked| == |items| {
      assert |p| == |ItemNos(items)|;
      assert ItemNos(items) - p == {} by {
        assert |ItemNos(items) - p| == |ItemNos(items)| - |p|;
      }
      forall i | 0 <= i < |items| ensures items[i].itemNo in picked {
        assert items[i].itemNo in ItemNos(items);
      }
    }
    if forall i :: 0 <= i < |items| ==> items[i].itemNo in picked {
      assert ItemNos(items) <= p;
      assert p == ItemNos(items);
    }
  }

  /** An order has at most as many distinct item numbers as items. */
  lemma {:induction false} ItemNosCardBound(items: seq<OrderItem>)
    ensures |ItemNos(items)| <= |items|
    decreases |items|
  {
    if items != [] {
      var t := items[1..];
      ItemNosCardBound(t);
      assert ItemNos(items) == ItemNos(t) + {items[0].itemNo} by {
        forall x | x in ItemNos(items) ensures x in ItemNos(t) + {items[0].itemNo} {
          var i :| 0 <= i < |items| && items[i].itemNo == x;
          if i > 0 {
            assert t[i - 1] == items[i];
          }
        }
      }
    }
  }

  /** A ledger without repeats that names only the order's own item numbers is
      no longer than the item list, so the bar never passes 100. */
  lemma ContainedProgressAtMostFull(picked: seq<string>, items: seq<OrderItem>)
    requires NoDups(picked) && Contained(picked, items)
    ensures |picked| <= |items|
    ensures Progress(|picked|, |items|) <= 100.0
  {
    var p := set x | x in picked;
    DistinctSeqCard(picked);
    ItemNosCardBound(items);
    var rest := ItemNos(items) - p;
    assert ItemNos(items) == p + rest;
    assert |ItemNos(items)| == |p| + |rest|;
    ProgressFull(|picked|, |items|);
  }

  /** The ledger kept over another order, as the open screen does: two items
      ticked on an order with items "1" and "2", then shown over an order whose
      only item is "3", names item numbers that order lacks and reads 200 percent. */
  lemma StaleLedgerOvershoots(a: Order, b: Order)
    requires a.pickedItems.None? && |a.items| == 2 && a.items[0].itemNo == "1" && a.items[1].itemNo == "2"
    requires |b.items| == 1 && b.items[0].itemNo == "3"
    ensures var ledger := Toggled(Toggled(SeedLedger(a), "1"), "2");
      ledger == ["1", "2"] && Contained(ledger, a.items) &&
      !Contained(ledger, b.items) && Progress(|ledger|, |b.items|) == 200.0
  {
    var l1 := Toggled(SeedLedger(a), "1");
    assert l1 == ["1"];
    assert "2" !in l1;
    assert Toggled(l1, "2") == ["1", "2"];
    assert a.items[0].itemNo in ItemNos(a.items) && a.items[1].itemNo in ItemNos(a.items);
    assert ItemNos(b.items) == {"3"};
    assert "1" != "3";
  }

  /** What the two buttons hand to the finishing handler. */
  type FinalStatus = s: Status | s != Picking witness Completed

  datatype FinishRequest = FinishRequest(status: FinalStatus, picked: seq<string>)

  /** The picking screen's state for one order. */
  class PickingSession {
    var order: Order
    var picked: seq<string>

    ghost predicate Valid()
      reads this
    {
      NoDups(picked)
    }

    /** Opening the screen seeds the ledger from the order's persisted picks. */
    constructor (order: Order)
      ensures Valid()
      ensures this.order == order && picked == SeedLedger(order)
    {
      this.order := order;
      picked := Distinct(PickedOrEmpty(order));
    }

    /** Another order is shown while the screen stays open (a queued order
        promoted over the open one). The ledger was seeded only when the screen
        opened, so it is kept: it may now name item numbers of the earlier order. */
    method ShowOrder(o: Order)
      requires Valid()
      modifies this`order
      ensures Valid()
      ensures order == o && picked == old(picked)
    {
      order := o;
    }

    /** Opening the screen afresh for `o`, as a screen keyed by the order would:
        the ledger is seeded from `o`'s own persisted picks, so it names only
        `o`'s item numbers when those picks do, and the bar stays within 100. */
    method Remount(o: Order)
      modifies this
      ensures Valid()
      ensures order == o && picked == SeedLedger(o)
      ensures Contained(PickedOrEmpty(o), o.items) ==>
        Contained(picked, order.items) && CurrentProgress() <= 100.0
    {
      order := o;
      picked := Distinct(PickedOrEmpty(o));
      if Contained(PickedOrEmpty(o), o.items) {
        ContainedProgressAtMostFull(picked, o.items);
      }
    }

    /** Flips `itemNo` in the ledger and leaves every other entry as it was. */
    method TogglePicked(itemNo: string)
      requires Valid()
      modifies this`picked
      ensures Valid()
      ensures picked == Toggled(old(picked), itemNo)
      ensures old(Contained(picked, order.items)) && itemNo in ItemNos(order.items) ==> Contained(picked, order.items)
    {
      var next := picked;
      if itemNo in next {
        next := Without(next, itemNo);
      } else {
        next := next + [itemNo];
      }
      picked := next;
    }

    /** The progress bar's value. */
    function CurrentProgress(): (r: real)
      reads this
      ensures r == Progress(|picked|, |order.items|)
    {
      Progress(|picked|, |order.items|)
    }

    /** Whether the complete button reads "finish" rather than "finish with pending
        items": only the title changes; completing is always allowed. */
    function AllItemsPicked(): (r: bool)
      reads this
      requires Valid()
      ensures r <==> |order.items| == 0 || |picked| == |order.items|
    {
      ProgressFull(|picked|, |order.items|);
      CurrentProgress() == 100.0
    }

    /** The cards shown, sorted by location; the order's own list is untouched. */
    function SortedItems(): (r: seq<OrderItem>)
      reads this
      ensures multiset(r) == multiset(order.items) && SortedByLocation(r)
    {
      SortByLocation(order.items)
    }

    /** Either button passes the current ledger as it stands, whatever the progress. */
    method Finish(status: FinalStatus) returns (req: FinishRequest)
      requires Valid()
      ensures req.status == status && req.picked == picked
      ensures NoDups(req.picked)
    {
      req := FinishRequest(status, picked);
    }
  }
}
