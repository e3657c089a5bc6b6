/** The value-level rules behind the application's handlers: how fetched orders are
    split into history and queue, how an incoming draft is classified against them,
    how a finished order record is built, and how history and queue are edited by
    finishing, canceling from history and reopening. */
module Lifecycle {
  import opened Types
  import Picking

  // ---------------------------------------------------------------------------
  // History / queue partition

  /** The fetched orders that are completed or canceled, in fetched order. */
  function HistoryOf(orders: seq<Order>): (r: seq<Order>)
    ensures forall o :: o in r <==> o in orders && IsTerminal(o.status)
    ensures |r| <= |orders|
  {
    if orders == [] then []
    else
      var rest := HistoryOf(orders[1..]);
      assert orders == [orders[0]] + orders[1..];
      if IsTerminal(orders[0].status) then [orders[0]] + rest else rest
  }

  /** The fetched orders still being picked, in fetched order. */
  function QueueOf(orders: seq<Order>): (r: seq<Order>)
    ensures forall o :: o in r <==> o in orders && o.status == Picking
    ensures |r| <= |orders|
  {
    if orders == [] then []
    else
      var rest := QueueOf(orders[1..]);
      assert orders == [orders[0]] + orders[1..];
      if orders[0].status == Picking then [orders[0]] + rest else rest
  }

  /** Every fetched order lands in exactly one of the two lists, as many times as
      it was fetched. */
  lemma {:induction false} PartitionIsExact(orders: seq<Order>)
    ensures multiset(HistoryOf(orders)) + multiset(QueueOf(orders)) == multiset(orders)
    ensures |HistoryOf(orders)| + |QueueOf(orders)| == |orders|
    decreases |orders|
  {
    if orders != [] {
      PartitionIsExact(orders[1..]);
      assert orders == [orders[0]] + orders[1..];
    }
  }

  /** Splitting a longer fetch splits each part on its own: fetched orders keep
      their relative order in history. */
  lemma {:induction false} HistoryOfAppend(a: seq<Order>, b: seq<Order>)
    ensures HistoryOf(a + b) == HistoryOf(a) + HistoryOf(b)
    decreases |a|
  {
    if a == [] {
      assert a + b == b;
    } else {
      var ab := a + b;
      assert ab[0] == a[0] && ab[1..] == a[1..] + b;
      HistoryOfAppend(a[1..], b);
      var head := if IsTerminal(a[0].status) then [a[0]] else [];
      assert HistoryOf(ab) == head + HistoryOf(ab[1..]);
      assert HistoryOf(a) == head + HistoryOf(a[1..]);
      assert head + (HistoryOf(a[1..]) + HistoryOf(b)) == (head + HistoryOf(a[1..])) + HistoryOf(b);
    }
  }

  /** The same for the queue. */
  lemma {:induction false} QueueOfAppend(a: seq<Order>, b: seq<Order>)
    ensures QueueOf(a + b) == QueueOf(a) + QueueOf(b)
    decreases |a|
  {
    if a == [] {
      assert a + b == b;
    } else {
      var ab := a + b;
      assert ab[0] == a[0] && ab[1..] == a[1..] + b;
      QueueOfAppend(a[1..], b);
      var head := if a[0].status == Picking then [a[0]] else [];
      assert QueueOf(ab) == head + QueueOf(ab[1..]);
      assert QueueOf(a) == head + QueueOf(a[1..]);
      assert head + (QueueOf(a[1..]) + QueueOf(b)) == (head + QueueOf(a[1..])) + QueueOf(b);
    }
  }

  /** History holds only finished orders and the queue only orders being picked. */
  predicate Partitioned(history: seq<Order>, queue: seq<Order>)
  {
    (forall o :: o in history ==> IsTerminal(o.status)) &&
    (forall o :: o in queue ==> o.status == Picking)
  }

  lemma FetchedIsPartitioned(orders: seq<Order>)
    ensures Partitioned(HistoryOf(orders), QueueOf(orders))
    ensures forall o :: o in orders ==> (o in HistoryOf(orders) <==> o !in QueueOf(orders))
  {
  }

  // ---------------------------------------------------------------------------
  // Ingestion

  /** The first order of `list` with this orderId, if any (`Array.find`). */
  function FindByOrderId(list: seq<Order>, id: string): (r: Option<Order>)
    ensures r.None? <==> forall i :: 0 <= i < |list| ==> list[i].orderId != id
    ensures r.Some? ==> r.value in list && r.value.orderId == id
    ensures r.Some? ==> exists i :: 0 <= i < |list| && list[i] == r.value &&
                                  forall j :: 0 <= j < i ==> list[j].orderId != id
  {
    if list == [] then None
    else if list[0].orderId == id then Some(list[0])
    else
      var r := FindByOrderId(list[1..], id);
      assert forall i :: 0 < i < |list| ==> list[i] == list[1..][i - 1];
      if r.Some? then
        var i :| 0 <= i < |list[1..]| && list[1..][i] == r.value &&
                 forall j :: 0 <= j < i ==> list[1..][j].orderId != id;
        assert list[i + 1] == r.value;
        r
      else r
  }

  /** A queued order built from an extracted draft: status picking, the given
      creation time, nothing picked yet and no lifecycle fields. */
  function NewOrder(d: Draft, now: string): (o: Order)
    ensures o.orderId == d.orderId && o.requester == d.requester
    ensures o.destinationSector == d.destinationSector && o.items == d.items
    ensures o.status == Picking && o.timestamp == now
    ensures o.pickedItems.None? && o.completionTimestamp.None? && o.completionStatus.None?
    ensures o.separator.None? && o.confirmer.None? && o.cancellationReason.None?
  {
    Order(d.orderId, d.requester, d.destinationSector, d.items, Picking, now,
          None, None, None, None, None, None)
  }

  /** The three outcomes of ingesting a draft. */
  datatype Ingestion =
    | DuplicateInHistory(newOrder: Order, existing: Order)
    | AlreadyQueued(orderId: string)
    | Accepted(newOrder: Order)

  /** History is checked first, then the queue; only an orderId unknown to both is
      accepted outright. */
  function ClassifyIngestion(history: seq<Order>, queue: seq<Order>, d: Draft, now: string): (r: Ingestion)
    ensures r.DuplicateInHistory? <==> exists i :: 0 <= i < |history| && history[i].orderId == d.orderId
    ensures r.AlreadyQueued? <==>
      (forall i :: 0 <= i < |history| ==> history[i].orderId != d.orderId) &&
      (exists i :: 0 <= i < |queue| && queue[i].orderId == d.orderId)
    ensures r.Accepted? <==>
      (forall i :: 0 <= i < |history| ==> history[i].orderId != d.orderId) &&
      (forall i :: 0 <= i < |queue| ==> queue[i].orderId != d.orderId)
    ensures r.DuplicateInHistory? ==> r.existing in history && r.existing.orderId == d.orderId && r.newOrder == NewOrder(d, now)
    ensures r.AlreadyQueued? ==> r.orderId == d.orderId
    ensures r.Accepted? ==> r.newOrder == NewOrder(d, now)
  {
    var inHistory := FindByOrderId(history, d.orderId);
    var inQueue := FindByOrderId(queue, d.orderId);
    if inHistory.Some? then DuplicateInHistory(NewOrder(d, now), inHistory.value)
    else if inQueue.Some? then AlreadyQueued(d.orderId)
    else Accepted(NewOrder(d, now))
  }

  /** The message shown when the draft's order is already waiting in the queue. */
  function QueuedMessage(orderId: string): (m: string)
    ensures |m| > 9 + |orderId|
    ensures m[..9] == "O pedido " && m[9..9 + |orderId|] == orderId
  {
    "O pedido " + orderId + " já está na fila de espera."
  }

  // ---------------------------------------------------------------------------
  // Finishing an order

  /** "complete" exactly when as many items were picked as the order has; only a
      completed order is classified. */
  function CompletionFor(status: Picking.FinalStatus, pickedCount: nat, itemCount: nat): (r: Option<CompletionStatus>)
    ensures status == Canceled ==> r.None?
    ensures status == Completed ==> r.Some?
    ensures r == Some(Complete) <==> status == Completed && pickedCount == itemCount
    ensures r == Some(Incomplete) <==> status == Completed && pickedCount != itemCount
  {
    if status == Completed then
      Some(if pickedCount == itemCount then Complete else Incomplete)
    else None
  }

  function NameOf(u: Option<User>): Option<string>
  {
    match u
    case None => None
    case Some(user) => Some(user.name)
  }

  /** The record written when the current order is finished. */
  function Finalized(current: Order, status: Picking.FinalStatus, picked: seq<string>,
                     separator: Option<User>, confirmer: Option<User>,
                     currentUser: User, now: string): (f: Order)
    ensures SameInstance(f, current) && f.items == current.items
    ensures f.requester == current.requester && f.destinationSector == current.destinationSector
    ensures f.status == status && f.pickedItems == Some(picked) && f.completionTimestamp == Some(now)
    ensures f.completionStatus == CompletionFor(status, |picked|, |current.items|)
    ensures status == Completed ==> f.separator == NameOf(separator) && f.confirmer == NameOf(confirmer)
    ensures status == Canceled ==> f.separator == Some(currentUser.name) && f.confirmer.None?
    ensures f.cancellationReason == current.cancellationReason
  {
    current.(status := status,
             pickedItems := Some(picked),
             completionStatus := CompletionFor(status, |picked|, |current.items|),
             separator := if status == Completed then NameOf(separator) else Some(currentUser.name),
             confirmer := if status == Completed then NameOf(confirmer) else None,
             completionTimestamp := Some(now))
  }

  /** With a ledger that holds only the order's own distinct item numbers, a
      completed order is classified complete exactly when every one of its items
      is in the ledger. */
  lemma CompleteMeansEveryItemPicked(current: Order, picked: seq<string>,
                                     separator: Option<User>, confirmer: Option<User>,
                                     currentUser: User, now: string)
    requires NoDups(picked) && Picking.UniqueItemNos(current.items)
    requires Picking.Contained(picked, current.items)
    ensures Finalized(current, Completed, picked, separator, confirmer, currentUser, now).completionStatus == Some(Complete)
      <==> forall i :: 0 <= i < |current.items| ==> current.items[i].itemNo in picked
  {
    Picking.AllPickedMeansEveryItem(picked, current.items);
    Picking.ProgressFull(|picked|, |current.items|);
    Picking.ContainedProgressAtMostFull(picked, current.items);
    assert CompletionFor(Completed, |picked|, |current.items|) == Some(Complete)
      <==> |picked| == |current.items|;
  }

  /** Completing an order with a ledger kept from another order, as the open
      screen allows: item "1" ticked on the earlier order, then the order whose
      only item is "3" completed. It is classified complete and records "1",
      although its own item was never picked. */
  lemma StaleLedgerCompletesUnpickedOrder(b: Order, separator: Option<User>, confirmer: Option<User>,
                                          currentUser: User, now: string)
    requires |b.items| == 1 && b.items[0].itemNo == "3"
    ensures var f := Finalized(b, Completed, ["1"], separator, confirmer, currentUser, now);
      f.completionStatus == Some(Complete) && f.pickedItems == Some(["1"]) &&
      b.items[0].itemNo !in f.pickedItems.value
  {
  }

  /** The first position of the instance (orderId, timestamp) of `f` in `h`, or -1. */
  function IndexOfInstance(h: seq<Order>, f: Order): (i: int)
    ensures -1 <= i < |h|
    ensures i >= 0 ==> SameInstance(h[i], f) && forall j :: 0 <= j < i ==> !SameInstance(h[j], f)
    ensures i == -1 <==> forall j :: 0 <= j < |h| ==> !SameInstance(h[j], f)
  {
    if h == [] then -1
    else if SameInstance(h[0], f) then 0
    else
      var k := IndexOfInstance(h[1..], f);
      assert forall j :: 0 < j < |h| ==> h[j] == h[1..][j - 1];
      if k == -1 then -1 else k + 1
  }

  /** History after finishing `f`: the entry of the same instance is replaced in
      place, or `f` is put in front when the instance is new to history. */
  function Upserted(h: seq<Order>, f: Order): (r: seq<Order>)
    ensures IndexOfInstance(h, f) >= 0 ==> |r| == |h| && r[IndexOfInstance(h, f)] == f
    ensures IndexOfInstance(h, f) >= 0 ==>
      forall j :: 0 <= j < |h| && j != IndexOfInstance(h, f) ==> r[j] == h[j]
    ensures IndexOfInstance(h, f) == -1 ==> |r| == |h| + 1 && r[0] == f && r[1..] == h
  {
    var i := IndexOfInstance(h, f);
    if i >= 0 then h[i := f] else [f] + h
  }

  /** Finishing changes one history entry at most and keeps every other instance:
      a known instance is replaced where it stood (length kept); a new one is
      prepended. */
  lemma UpsertedReplacesOnlyThatInstance(h: seq<Order>, f: Order)
    ensures f in Upserted(h, f)
    ensures (exists j :: 0 <= j < |h| && SameInstance(h[j], f)) ==>
      |Upserted(h, f)| == |h| &&
      forall j :: 0 <= j < |h| && j != IndexOfInstance(h, f) ==> Upserted(h, f)[j] == h[j]
    ensures (forall j :: 0 <= j < |h| ==> !SameInstance(h[j], f)) ==> Upserted(h, f) == [f] + h
    ensures forall o :: o in h && !SameInstance(o, f) ==> o in Upserted(h, f)
  {
    var i := IndexOfInstance(h, f);
    if i >= 0 {
      assert Upserted(h, f)[i] == f;
      forall o | o in h && !SameInstance(o, f) ensures o in Upserted(h, f) {
        var j :| 0 <= j < |h| && h[j] == o;
        assert j != i;
        assert Upserted(h, f)[j] == o;
      }
    }
  }

  /** The queue after finishing an order: every entry with that orderId goes,
      whatever its timestamp. */
  function WithoutOrderId(q: seq<Order>, id: string): (r: seq<Order>)
    ensures forall o :: o in r <==> o in q && o.orderId != id
    ensures |r| <= |q|
  {
    if q == [] then []
    else
      var rest := WithoutOrderId(q[1..], id);
      assert q == [q[0]] + q[1..];
      if q[0].orderId != id then [q[0]] + rest else rest
  }

  /** Removing by orderId alone also drops a second picking instance of the same
      orderId (one imported "as new" while another was still queued). */
  lemma FinishDropsSiblingInstances(q: seq<Order>, f: Order, sibling: Order)
    requires sibling in q && sibling.orderId == f.orderId && sibling.timestamp != f.timestamp
    ensures sibling !in WithoutOrderId(q, f.orderId)
  {
  }

  // ---------------------------------------------------------------------------
  // Canceling from history and reopening

  const ManualCancellationReason: string := "Cancelado manualmente via painel de histórico"

  /** The canceled copy of a history order: no completion classification, the
      fixed reason, a new completion time; everything else kept. */
  function CanceledCopy(o: Order, now: string): (c: Order)
    ensures SameInstance(c, o) && c.items == o.items && c.pickedItems == o.pickedItems
    ensures c.status == Canceled && c.completionStatus.None?
    ensures c.cancellationReason == Some(ManualCancellationReason) && c.completionTimestamp == Some(now)
    ensures c.separator == o.separator && c.confirmer == o.confirmer
  {
    o.(status := Canceled, completionStatus := None,
       cancellationReason := Some(ManualCancellationReason),
       completionTimestamp := Some(now))
  }

  /** History after canceling the instance of `target`: entries of that instance
      become its canceled copy; all others are kept as they were. */
  function CancelInHistory(h: seq<Order>, target: Order, now: string): (r: seq<Order>)
    ensures |r| == |h|
    ensures forall i :: 0 <= i < |h| ==>
      if SameInstance(h[i], target) then r[i] == CanceledCopy(target, now) else r[i] == h[i]
  {
    seq(|h|, i requires 0 <= i < |h| =>
      if SameInstance(h[i], target) then CanceledCopy(target, now) else h[i])
  }

  /** The order made current by "continue picking": the same record back in
      picking, its persisted picks kept so the ledger resumes from them. */
  function Reopened(o: Order): (c: Order)
    ensures SameInstance(c, o) && c.status == Picking
    ensures c.pickedItems == o.pickedItems && c.items == o.items
    ensures Picking.SeedLedger(c) == Picking.SeedLedger(o)
  {
    o.(status := Picking)
  }

  // ---------------------------------------------------------------------------
  // The partition survives every local edit

  /** Queuing a new draft keeps the partition. */
  lemma QueuingKeepsPartition(h: seq<Order>, q: seq<Order>, d: Draft, now: string)
    ensures Partitioned(h, q) ==> Partitioned(h, q + [NewOrder(d, now)])
  {
  }

  /** Finishing an order keeps the partition: the finished record goes to history
      and its orderId leaves the queue. */
  lemma FinishingKeepsPartition(h: seq<Order>, q: seq<Order>, f: Order)
    requires IsTerminal(f.status)
    ensures Partitioned(h, q) ==> Partitioned(Upserted(h, f), WithoutOrderId(q, f.orderId))
  {
    if Partitioned(h, q) {
      var u := Upserted(h, f);
      var i := IndexOfInstance(h, f);
      forall o | o in u ensures IsTerminal(o.status) {
        var j :| 0 <= j < |u| && u[j] == o;
        if i >= 0 {
          assert j == i || u[j] == h[j];
        } else {
          assert j == 0 || u[j] == h[j - 1];
        }
      }
    }
  }

  /** Canceling from history keeps the partition. */
  lemma CancelingKeepsPartition(h: seq<Order>, q: seq<Order>, target: Order, now: string)
    ensures Partitioned(h, q) ==> Partitioned(CancelInHistory(h, target, now), q)
  {
    if Partitioned(h, q) {
      var c := CancelInHistory(h, target, now);
      forall o | o in c ensures IsTerminal(o.status) {
        var j :| 0 <= j < |c| && c[j] == o;
        assert c[j] == CanceledCopy(target, now) || c[j] == h[j];
      }
    }
  }
}
