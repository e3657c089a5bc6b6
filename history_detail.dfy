/** The read-only detail view of a finished order: its picked set and progress,
    the status badge, the cancellation-reason panel and the gate that offers to
    continue picking an incompletely completed order. */
module HistoryDetail {
  import opened Types
  import Picking
  import opened ItemOrder

  /** The badge shown at the top of the detail view. */
  datatype Badge = CompleteBadge | IncompleteBadge | CanceledBadge

  /** The set of picked item numbers the view marks, from the persisted list. */
  function PickedSet(o: Order): (r: set<string>)
    ensures forall x :: x in r <==> x in PickedOrEmpty(o)
    ensures o.pickedItems.None? ==> r == {}
  {
    set x | x in PickedOrEmpty(o)
  }

  /** The progress shown: picked distinct item numbers out of the order's items. */
  function HistoryProgress(o: Order): (r: real)
    ensures |o.items| == 0 ==> r == 100.0
    ensures r == 100.0 <==> |o.items| == 0 || |PickedSet(o)| == |o.items|
  {
    Picking.ProgressFull(|PickedSet(o)|, |o.items|);
    Picking.Progress(|PickedSet(o)|, |o.items|)
  }

  /** The badge: every status other than completed reads as canceled, and a completed
      order without a "complete" classification reads as incomplete. */
  function StatusBadge(o: Order): (b: Badge)
    ensures b == CompleteBadge <==> o.status == Completed && o.completionStatus == Some(Complete)
    ensures b == IncompleteBadge <==> o.status == Completed && o.completionStatus != Some(Complete)
    ensures b == CanceledBadge <==> o.status != Completed
  {
    if o.status == Completed then
      if o.completionStatus == Some(Complete) then CompleteBadge else IncompleteBadge
    else CanceledBadge
  }

  /** "Continue picking" is offered only for a completed, incomplete order. */
  function CanContinuePicking(o: Order): (r: bool)
    ensures r <==> o.status == Completed && o.completionStatus == Some(Incomplete)
    ensures r ==> StatusBadge(o) == IncompleteBadge
  {
    o.status == Completed && o.completionStatus == Some(Incomplete)
  }

  /** The cancellation reason shown, if any: only for a canceled order with a
      non-empty reason. */
  function ShownCancellationReason(o: Order): (r: Option<string>)
    ensures r.Some? <==> o.status == Canceled && o.cancellationReason.Some? && o.cancellationReason.value != ""
    ensures r.Some? ==> r == o.cancellationReason
  {
    if o.status == Canceled && o.cancellationReason.Some? && o.cancellationReason.value != "" then
      o.cancellationReason
    else None
  }

  /** The item cards shown, in location order; all of them read-only. */
  function DetailItems(o: Order): (r: seq<OrderItem>)
    ensures multiset(r) == multiset(o.items) && SortedByLocation(r)
  {
    SortByLocation(o.items)
  }

  /** Whether a card is marked as picked; a read-only card ignores clicks, so
      the view never changes the order. */
  function CardIsPicked(o: Order, item: OrderItem): (r: bool)
    ensures r <==> item.itemNo in PickedOrEmpty(o)
  {
    item.itemNo in PickedSet(o)
  }

  /** The history progress equals the picking screen's for the same picks: both
      count the distinct item numbers of the persisted list. */
  lemma HistoryProgressMatchesPicking(o: Order)
    ensures HistoryProgress(o) == Picking.Progress(|Picking.SeedLedger(o)|, |o.items|)
  {
    var seed := Picking.SeedLedger(o);
    assert (set x | x in seed) == PickedSet(o);
    Picking.DistinctSeqCard(seed);
  }
}
