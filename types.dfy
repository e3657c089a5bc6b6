/** The records of the order tracker: line items, orders and team members.
    An order's identity is the pair (orderId, timestamp); orderId alone may repeat
    when a finished order is imported again as a new one. */
module Types {

  datatype Option<+T> = None | Some(value: T)

  /** The three lifecycle states of an order. */
  datatype Status = Picking | Completed | Canceled

  /** How a completed order ended: every item picked or not. */
  datatype CompletionStatus = Complete | Incomplete

  /** Team roles. The declared type lists only the first two; `Viewer` is the role
      given to accounts created through the login screen. */
  datatype Role = Separator | Confirmer | Viewer

  /** One line of a material requisition; `itemNo` is its key within the order. */
  datatype OrderItem = OrderItem(
    itemNo: string,
    code: string,
    description: string,
    location: string,
    quantityOrdered: int,
    unit: string)

  /** An order record. Fields that the source declares optional are `Option`s;
      `cancellationReason` is written and read by the source although its
      declared type omits it. */
  datatype Order = Order(
    orderId: string,
    requester: string,
    destinationSector: string,
    items: seq<OrderItem>,
    status: Status,
    timestamp: string,
    completionTimestamp: Option<string>,
    pickedItems: Option<seq<string>>,
    completionStatus: Option<CompletionStatus>,
    separator: Option<string>,
    confirmer: Option<string>,
    cancellationReason: Option<string>)

  datatype User = User(id: string, name: string, role: Role)

  /** What document extraction yields: the order's header and items, without
      any lifecycle field. */
  datatype Draft = Draft(
    orderId: string,
    requester: string,
    destinationSector: string,
    items: seq<OrderItem>)

  /** Every reader treats a missing picked list as the empty list. */
  function PickedOrEmpty(o: Order): (r: seq<string>)
    ensures o.pickedItems.None? ==> r == []
    ensures o.pickedItems.Some? ==> r == o.pickedItems.value
  {
    match o.pickedItems
    case None => []
    case Some(p) => p
  }

  /** The item numbers of an order. */
  function ItemNos(items: seq<OrderItem>): (r: set<string>)
    ensures forall i :: 0 <= i < |items| ==> items[i].itemNo in r
    ensures forall x :: x in r ==> exists i :: 0 <= i < |items| && items[i].itemNo == x
  {
    set i | 0 <= i < |items| :: items[i].itemNo
  }

  /** True when the order is in history: completed or canceled. */
  predicate IsTerminal(s: Status)
  {
    s == Completed || s == Canceled
  }

  /** The two orders are the same instance: same orderId and same timestamp. */
  predicate SameInstance(a: Order, b: Order)
  {
    a.orderId == b.orderId && a.timestamp == b.timestamp
  }

  /** A sequence with no repeated element (the shape of a JavaScript Set's contents). */
  predicate NoDups<T(==)>(s: seq<T>)
  {
    forall i, j :: 0 <= i < j < |s| ==> s[i] != s[j]
  }
}
