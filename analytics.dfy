/** The report screen over the order history: one row per order instance keyed
    by order id and timestamp, row selection and expansion sets that toggle, a
    select-all box, a print guard and the summary figures. */
module Analytics {
  import opened Types
  import HistoryDetail

  /** The row key of an order instance: its id, a dash and its timestamp. */
  function OrderKey(o: Order): (k: string)
    ensures |k| == |o.orderId| + 1 + |o.timestamp|
    ensures k[..|o.orderId|] == o.orderId && k[|o.orderId|] == '-' && k[|o.orderId| + 1..] == o.timestamp
  {
    o.orderId + "-" + o.timestamp
  }

  /** Two instances of the same order id taken at different times are different rows. */
  lemma KeysSeparateInstances(a: Order, b: Order)
    requires a.orderId == b.orderId && a.timestamp != b.timestamp
    ensures OrderKey(a) != OrderKey(b)
  {
  }

  /** With timestamps of one length (as the fixed-width ISO stamps are), equal
      keys mean the same instance: same id and same timestamp. */
  lemma KeyDeterminesInstance(a: Order, b: Order)
    requires |a.timestamp| == |b.timestamp|
    ensures OrderKey(a) == OrderKey(b) <==> SameInstance(a, b)
  {
    if OrderKey(a) == OrderKey(b) {
      var ka, kb := OrderKey(a), OrderKey(b);
      assert |a.orderId| == |b.orderId|;
      assert a.orderId == ka[..|a.orderId|] == kb[..|b.orderId|] == b.orderId;
      assert a.timestamp == ka[|a.orderId| + 1..] == kb[|b.orderId| + 1..] == b.timestamp;
    }
  }

  /** The set with that key's membership flipped and every other key kept. */
  function Flipped(s: set<string>, k: string): (r: set<string>)
    ensures k in r <==> k !in s
    ensures forall x :: x != k ==> (x in r <==> x in s)
  {
    if k in s then s - {k} else s + {k}
  }

  /** Toggling a row twice restores the selection. */
  lemma FlippedTwice(s: set<string>, k: string)
    ensures Flipped(Flipped(s, k), k) == s
  {
  }

  /** The keys of every order in the history. */
  function AllKeys(h: seq<Order>): (r: set<string>)
    ensures forall i :: 0 <= i < |h| ==> OrderKey(h[i]) in r
    ensures forall k :: k in r ==> exists i :: 0 <= i < |h| && OrderKey(h[i]) == k
  {
    set i | 0 <= i < |h| :: OrderKey(h[i])
  }

  /** The orders of the history whose row is selected, in history order. */
  function PrintedOf(h: seq<Order>, selected: set<string>): (r: seq<Order>)
    ensures |r| <= |h|
    ensures forall o :: o in r <==> o in h && OrderKey(o) in selected
  {
    if h == [] then []
    else if OrderKey(h[0]) in selected then [h[0]] + PrintedOf(h[1..], selected)
    else PrintedOf(h[1..], selected)
  }

  /** When every row is selected the report prints the whole history, in order. */
  lemma {:induction false} PrintedAllIsHistory(h: seq<Order>, selected: set<string>)
    requires forall i :: 0 <= i < |h| ==> OrderKey(h[i]) in selected
    ensures PrintedOf(h, selected) == h
  {
    if h != [] {
      var t := h[1..];
      forall i | 0 <= i < |t|
        ensures OrderKey(t[i]) in selected
      {
        assert t[i] == h[i + 1];
      }
      PrintedAllIsHistory(t, selected);
      assert OrderKey(h[0]) in selected;
      assert h == [h[0]] + t;
    }
  }

  /** With nothing selected the report prints nothing. */
  lemma {:induction false} PrintedNoneIsEmpty(h: seq<Order>)
    ensures PrintedOf(h, {}) == []
  {
    if h != [] {
      PrintedNoneIsEmpty(h[1..]);
    }
  }

  /** The completion rate: not applicable, or the picked count over the item count. */
  datatype Rate = NotApplicable | Ratio(picked: nat, items: nat)

  /** The summary figures of the report. */
  datatype Stats = Stats(totalOrders: nat, completedOrders: nat, canceledOrders: int,
                         totalPickedItems: nat, completionRate: Rate)

  /** The completed orders of the history, in order. */
  function CompletedOf(h: seq<Order>): (r: seq<Order>)
    ensures |r| <= |h|
    ensures forall o :: o in r <==> o in h && o.status == Completed
  {
    if h == [] then []
    else if h[0].status == Completed then [h[0]] + CompletedOf(h[1..])
    else CompletedOf(h[1..])
  }

  /** The orders of the history that are not completed, in order. */
  function NotCompletedOf(h: seq<Order>): (r: seq<Order>)
    ensures |r| <= |h|
    ensures forall o :: o in r <==> o in h && o.status != Completed
  {
    if h == [] then []
    else if h[0].status != Completed then [h[0]] + NotCompletedOf(h[1..])
    else NotCompletedOf(h[1..])
  }

  /** The total number of items of the orders. */
  function SumItems(h: seq<Order>): (n: nat)
    ensures h == [] ==> n == 0
    ensures (forall i :: 0 <= i < |h| ==> h[i].items == []) ==> n == 0
    ensures forall i :: 0 <= i < |h| ==> |h[i].items| <= n
  {
    if h == [] then 0 else |h[0].items| + SumItems(h[1..])
  }

  /** The total length of the picked lists, a missing list counting as empty. */
  function SumPicked(h: seq<Order>): (n: nat)
    ensures h == [] ==> n == 0
    ensures (forall i :: 0 <= i < |h| ==> PickedOrEmpty(h[i]) == []) ==> n == 0
    ensures forall i :: 0 <= i < |h| ==> |PickedOrEmpty(h[i])| <= n
  {
    if h == [] then 0 else |PickedOrEmpty(h[0])| + SumPicked(h[1..])
  }

  /** The item total of two histories together is the sum of their totals. */
  lemma {:induction false} SumItemsAppend(a: seq<Order>, b: seq<Order>)
    ensures SumItems(a + b) == SumItems(a) + SumItems(b)
    decreases |a|
  {
    if a == [] {
      assert a + b == b;
    } else {
      assert (a + b)[0] == a[0] && (a + b)[1..] == a[1..] + b;
      SumItemsAppend(a[1..], b);
    }
  }

  /** The picked total of two histories together is the sum of their totals. */
  lemma {:induction false} SumPickedAppend(a: seq<Order>, b: seq<Order>)
    ensures SumPicked(a + b) == SumPicked(a) + SumPicked(b)
    decreases |a|
  {
    if a == [] {
      assert a + b == b;
    } else {
      assert (a + b)[0] == a[0] && (a + b)[1..] == a[1..] + b;
      SumPickedAppend(a[1..], b);
    }
  }

  /** The completed orders of two histories together, in order. */
  lemma {:induction false} CompletedOfAppend(a: seq<Order>, b: seq<Order>)
    ensures CompletedOf(a + b) == CompletedOf(a) + CompletedOf(b)
    decreases |a|
  {
    if a == [] {
      assert a + b == b;
    } else {
      var ab := a + b;
      assert ab[0] == a[0] && ab[1..] == a[1..] + b;
      CompletedOfAppend(a[1..], b);
      var head := if a[0].status == Completed then [a[0]] else [];
      assert CompletedOf(ab) == head + CompletedOf(ab[1..]);
      assert CompletedOf(a) == head + CompletedOf(a[1..]);
    }
  }

  /** The report's figures: orders, completed orders, the rest counted as
      canceled, picked entries over the whole history, and the rate over the
      completed orders only, not applicable when they hold no items. */
  function ComputeStats(h: seq<Order>): (s: Stats)
    ensures s.totalOrders == |h| && s.completedOrders <= s.totalOrders
    ensures s.canceledOrders == s.totalOrders - s.completedOrders >= 0
    ensures s.totalPickedItems == SumPicked(h)
    ensures s.completionRate.NotApplicable? <==> SumItems(CompletedOf(h)) == 0
    ensures s.completionRate.Ratio? ==>
      s.completionRate.picked == SumPicked(CompletedOf(h)) && s.completionRate.items == SumItems(CompletedOf(h))
  {
    var completed := CompletedOf(h);
    var items := SumItems(completed);
    Stats(|h|, |completed|, |h| - |completed|, SumPicked(h),
          if items > 0 then Ratio(SumPicked(completed), items) else NotApplicable)
  }

  /** The counting figures of the report add up over two histories: orders,
      completed, canceled and picked entries of the joined history are the sums
      of the parts' figures. */
  lemma StatsAdditive(a: seq<Order>, b: seq<Order>)
    ensures ComputeStats(a + b).totalOrders == ComputeStats(a).totalOrders + ComputeStats(b).totalOrders
    ensures ComputeStats(a + b).completedOrders == ComputeStats(a).completedOrders + ComputeStats(b).completedOrders
    ensures ComputeStats(a + b).canceledOrders == ComputeStats(a).canceledOrders + ComputeStats(b).canceledOrders
    ensures ComputeStats(a + b).totalPickedItems == ComputeStats(a).totalPickedItems + ComputeStats(b).totalPickedItems
  {
    CompletedOfAppend(a, b);
    SumPickedAppend(a, b);
  }

  /** The completed and the other orders together are the whole history. */
  lemma {:induction false} CompletedSplit(h: seq<Order>)
    ensures |CompletedOf(h)| + |NotCompletedOf(h)| == |h|
    ensures SumPicked(CompletedOf(h)) + SumPicked(NotCompletedOf(h)) == SumPicked(h)
  {
    if h != [] {
      CompletedSplit(h[1..]);
    }
  }

  /** The canceled figure counts the orders that are not completed; on a history
      of finished orders only (as the status split keeps it) that is exactly the
      canceled ones. */
  lemma CanceledFigureCountsCanceled(h: seq<Order>)
    ensures ComputeStats(h).canceledOrders == |NotCompletedOf(h)|
    ensures (forall i :: 0 <= i < |h| ==> IsTerminal(h[i].status)) ==>
      forall o :: o in NotCompletedOf(h) <==> o in h && o.status == Canceled
  {
    CompletedSplit(h);
  }

  /** The picked entries of completed orders never exceed the history's total. */
  lemma CompletedPickedWithinTotal(h: seq<Order>)
    ensures SumPicked(CompletedOf(h)) <= ComputeStats(h).totalPickedItems
  {
    CompletedSplit(h);
  }

  /** When no completed order lists more picked entries than it has items, the
      rate is at most one hundred percent. */
  lemma {:induction false} RateAtMostFull(h: seq<Order>)
    requires forall o :: o in h && o.status == Completed ==> |PickedOrEmpty(o)| <= |o.items|
    ensures SumPicked(CompletedOf(h)) <= SumItems(CompletedOf(h))
    ensures ComputeStats(h).completionRate.Ratio? ==>
      ComputeStats(h).completionRate.picked <= ComputeStats(h).completionRate.items
  {
    if h != [] {
      assert forall o :: o in h[1..] ==> o in h;
      RateAtMostFull(h[1..]);
    }
  }

  /** The status text of a report row. */
  function RenderStatus(o: Order): (t: string)
    ensures t == "Completo" <==> o.status == Completed && o.completionStatus == Some(Complete)
    ensures t == "Incompleto" <==> o.status == Completed && o.completionStatus != Some(Complete)
    ensures t == "Cancelado" <==> o.status != Completed
  {
    if o.status == Completed then
      if o.completionStatus == Some(Complete) then "Completo" else "Incompleto"
    else "Cancelado"
  }

  /** The text that goes with each badge of the detail view. */
  function BadgeText(b: HistoryDetail.Badge): string
  {
    match b
    case CompleteBadge => "Completo"
    case IncompleteBadge => "Incompleto"
    case CanceledBadge => "Cancelado"
  }

  /** The report row and the detail view classify every order alike. */
  lemma RenderStatusAgreesWithDetail(o: Order)
    ensures RenderStatus(o) == BadgeText(HistoryDetail.StatusBadge(o))
  {
  }

  /** The report screen's own state over a fixed history. */
  class ReportView {
    const history: seq<Order>
    var selected: set<string>
    var expanded: set<string>
    var printing: bool
    /** Whether the last action was refused with a message to the operator. */
    var alerted: bool

    constructor (history: seq<Order>)
      ensures this.history == history
      ensures selected == {} && expanded == {} && !printing && !alerted
    {
      this.history := history;
      selected := {};
      expanded := {};
      printing := false;
      alerted := false;
    }

    /** Flips the selection of one row. */
    method ToggleSelect(k: string)
      modifies this`selected
      ensures selected == Flipped(old(selected), k)
    {
      var next := selected;
      if k in next {
        next := next - {k};
      } else {
        next := next + {k};
      }
      selected := next;
    }

    /** Flips the expansion of one row. */
    method ToggleExpand(k: string)
      modifies this`expanded
      ensures expanded == Flipped(old(expanded), k)
    {
      var next := expanded;
      if k in next {
        next := next - {k};
      } else {
        next := next + {k};
      }
      expanded := next;
    }

    /** The select-all box: checked selects every row of the history, unchecked none. */
    method SelectAll(checked: bool)
      modifies this`selected
      ensures checked ==> selected == AllKeys(history)
      ensures !checked ==> selected == {}
    {
      if checked {
        selected := AllKeys(history);
      } else {
        selected := {};
      }
    }

    /** Starts printing only when some row is selected; otherwise warns. */
    method Print()
      modifies this`printing, this`alerted
      ensures |selected| > 0 ==> printing && !alerted
      ensures |selected| == 0 ==> printing == old(printing) && alerted
    {
      if |selected| > 0 {
        printing := true;
        alerted := false;
      } else {
        alerted := true;
      }
    }

    /** The orders the printed report shows. */
    function Printed(): (r: seq<Order>)
      reads this
      ensures forall o :: o in r <==> o in history && OrderKey(o) in selected
    {
      PrintedOf(history, selected)
    }
  }
}
