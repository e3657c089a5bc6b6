/** The remote store adapter: rows with snake_case columns, the mapping of a row and
    its item rows to an order record, the payloads written by order creation and
    update, the team-member query, and an in-memory stand-in for the remote tables
    on which creation, update and deletion act. When the store is not configured
    every operation does nothing and every query returns nothing. */
module Backend {
  import opened Types

  /** A row of the `orders` table. `id` is the row's own key, distinct from the
      business `order_id`. */
  datatype OrderRow = OrderRow(
    id: nat,
    order_id: string,
    requester: string,
    destination_sector: string,
    status: Status,
    timestamp: string,
    completion_timestamp: Option<string>,
    picked_items: Option<seq<string>>,
    completion_status: Option<CompletionStatus>,
    separator_name: Option<string>,
    confirmer_name: Option<string>,
    cancellation_reason: Option<string>)

  /** A row of the `order_items` table, linked to its order row by `order_record_id`. */
  datatype ItemRow = ItemRow(
    order_record_id: nat,
    item_no: string,
    code: string,
    description: string,
    location: string,
    quantity_ordered: int,
    unit: string)

  function MapItemFromDB(r: ItemRow): (it: OrderItem)
  {
    OrderItem(r.item_no, r.code, r.description, r.location, r.quantity_ordered, r.unit)
  }

  /** An order row and its item rows as an order record; a missing picked list
      reads as empty. */
  function MapOrderFromDB(row: OrderRow, items: seq<ItemRow>): (o: Order)
    ensures o.orderId == row.order_id && o.requester == row.requester
    ensures o.destinationSector == row.destination_sector
    ensures o.status == row.status && o.timestamp == row.timestamp
    ensures o.completionTimestamp == row.completion_timestamp
    ensures row.picked_items.None? ==> o.pickedItems == Some([])
    ensures row.picked_items.Some? ==> o.pickedItems == row.picked_items
    ensures o.completionStatus == row.completion_status
    ensures o.separator == row.separator_name && o.confirmer == row.confirmer_name
    ensures o.cancellationReason == row.cancellation_reason
    ensures |o.items| == |items|
    ensures forall i :: 0 <= i < |items| ==> o.items[i] == MapItemFromDB(items[i])
  {
    Order(row.order_id, row.requester, row.destination_sector,
          seq(|items|, i requires 0 <= i < |items| => MapItemFromDB(items[i])),
          row.status, row.timestamp, row.completion_timestamp,
          Some(match row.picked_items case None => [] case Some(p) => p),
          row.completion_status, row.separator_name, row.confirmer_name,
          row.cancellation_reason)
  }

  /** The row inserted for a new order, under the row key `id`. Only the header,
      status, time and picks are written; lifecycle columns stay empty. */
  function InsertRow(o: Order, id: nat): (r: OrderRow)
    ensures r.id == id && r.order_id == o.orderId && r.requester == o.requester
    ensures r.destination_sector == o.destinationSector
    ensures r.status == o.status && r.timestamp == o.timestamp
    ensures r.picked_items == Some(PickedOrEmpty(o))
    ensures r.completion_timestamp.None? && r.completion_status.None?
    ensures r.separator_name.None? && r.confirmer_name.None? && r.cancellation_reason.None?
  {
    OrderRow(id, o.orderId, o.requester, o.destinationSector, o.status, o.timestamp,
             None, Some(PickedOrEmpty(o)), None, None, None, None)
  }

  function ItemToRow(it: OrderItem, id: nat): (r: ItemRow)
  {
    ItemRow(id, it.itemNo, it.code, it.description, it.location, it.quantityOrdered, it.unit)
  }

  /** The item rows inserted for a new order, one per item, in order. */
  function ItemRowsOf(o: Order, id: nat): (rs: seq<ItemRow>)
    ensures |rs| == |o.items|
    ensures forall i :: 0 <= i < |rs| ==> rs[i].order_record_id == id && MapItemFromDB(rs[i]) == o.items[i]
  {
    seq(|o.items|, i requires 0 <= i < |o.items| => ItemToRow(o.items[i], id))
  }

  /** Reading back a freshly created order gives the same header, status, time,
      items and picks (a missing pick list becomes empty); the lifecycle fields
      are absent. */
  lemma CreateThenReadBack(o: Order, id: nat)
    ensures var back := MapOrderFromDB(InsertRow(o, id), ItemRowsOf(o, id));
      back.orderId == o.orderId && back.requester == o.requester &&
      back.destinationSector == o.destinationSector && back.status == o.status &&
      back.timestamp == o.timestamp && back.items == o.items &&
      back.pickedItems == Some(PickedOrEmpty(o)) &&
      back.completionStatus.None? && back.completionTimestamp.None? &&
      back.separator.None? && back.confirmer.None? && back.cancellationReason.None?
  {
    var back := MapOrderFromDB(InsertRow(o, id), ItemRowsOf(o, id));
    assert |back.items| == |o.items|;
    forall i | 0 <= i < |o.items| ensures back.items[i] == o.items[i] {
      assert ItemRowsOf(o, id)[i] == ItemToRow(o.items[i], id);
    }
  }

  /** The lifecycle columns an update sends. An absent value is left out of the
      request body, so that column keeps what it held. */
  datatype UpdatePayload = UpdatePayload(
    status: Status,
    picked_items: Option<seq<string>>,
    completion_status: Option<CompletionStatus>,
    separator_name: Option<string>,
    confirmer_name: Option<string>,
    completion_timestamp: Option<string>,
    cancellation_reason: Option<string>)

  function UpdatePayloadOf(o: Order): (p: UpdatePayload)
    ensures p.status == o.status && p.picked_items == o.pickedItems
    ensures p.completion_status == o.completionStatus
    ensures p.separator_name == o.separator && p.confirmer_name == o.confirmer
    ensures p.completion_timestamp == o.completionTimestamp
    ensures p.cancellation_reason == o.cancellationReason
  {
    UpdatePayload(o.status, o.pickedItems, o.completionStatus, o.separator, o.confirmer,
                  o.completionTimestamp, o.cancellationReason)
  }

  function Keep<T>(sent: Option<T>, held: Option<T>): Option<T>
  {
    if sent.Some? then sent else held
  }

  /** One row after an update: the sent lifecycle columns replaced, the rest kept. */
  function ApplyUpdate(row: OrderRow, p: UpdatePayload): (r: OrderRow)
    ensures r.id == row.id && r.order_id == row.order_id && r.timestamp == row.timestamp
    ensures r.requester == row.requester && r.destination_sector == row.destination_sector
    ensures r.status == p.status
    ensures p.picked_items.Some? ==> r.picked_items == p.picked_items
    ensures p.picked_items.None? ==> r.picked_items == row.picked_items
    ensures p.completion_status.Some? ==> r.completion_status == p.completion_status
    ensures p.completion_status.None? ==> r.completion_status == row.completion_status
    ensures p.separator_name.Some? ==> r.separator_name == p.separator_name
    ensures p.separator_name.None? ==> r.separator_name == row.separator_name
    ensures p.confirmer_name.Some? ==> r.confirmer_name == p.confirmer_name
    ensures p.confirmer_name.None? ==> r.confirmer_name == row.confirmer_name
    ensures p.completion_timestamp.Some? ==> r.completion_timestamp == p.completion_timestamp
    ensures p.completion_timestamp.None? ==> r.completion_timestamp == row.completion_timestamp
    ensures p.cancellation_reason.Some? ==> r.cancellation_reason == p.cancellation_reason
    ensures p.cancellation_reason.None? ==> r.cancellation_reason == row.cancellation_reason
  {
    row.(status := p.status,
         picked_items := Keep(p.picked_items, row.picked_items),
         completion_status := Keep(p.completion_status, row.completion_status),
         separator_name := Keep(p.separator_name, row.separator_name),
         confirmer_name := Keep(p.confirmer_name, row.confirmer_name),
         completion_timestamp := Keep(p.completion_timestamp, row.completion_timestamp),
         cancellation_reason := Keep(p.cancellation_reason, row.cancellation_reason))
  }

  predicate RowIsInstance(row: OrderRow, o: Order)
  {
    row.order_id == o.orderId && row.timestamp == o.timestamp
  }

  /** The orders table after `updateOrder(o)`: every row of the instance
      (order_id, timestamp) of `o` is updated; rows of other instances, including
      other instances of the same order_id, are untouched. */
  function UpdatedRows(rows: seq<OrderRow>, o: Order): (r: seq<OrderRow>)
    ensures |r| == |rows|
    ensures forall i :: 0 <= i < |rows| ==>
      r[i] == if RowIsInstance(rows[i], o) then ApplyUpdate(rows[i], UpdatePayloadOf(o)) else rows[i]
  {
    seq(|rows|, i requires 0 <= i < |rows| =>
      if RowIsInstance(rows[i], o) then ApplyUpdate(rows[i], UpdatePayloadOf(o)) else rows[i])
  }

  /** The item rows that belong to the order row with key `id`, in table order. */
  function ItemsOfRow(itemRows: seq<ItemRow>, id: nat): (r: seq<ItemRow>)
    ensures forall x :: x in r <==> x in itemRows && x.order_record_id == id
  {
    if itemRows == [] then []
    else
      var rest := ItemsOfRow(itemRows[1..], id);
      assert itemRows == [itemRows[0]] + itemRows[1..];
      if itemRows[0].order_record_id == id then [itemRows[0]] + rest else rest
  }

  lemma {:induction false} ItemsOfNoMatch(s: seq<ItemRow>, id: nat)
    requires forall x :: x in s ==> x.order_record_id != id
    ensures ItemsOfRow(s, id) == []
  {
    if ItemsOfRow(s, id) != [] {
      assert ItemsOfRow(s, id)[0] in ItemsOfRow(s, id);
    }
  }

  lemma {:induction false} ItemsOfAllMatch(s: seq<ItemRow>, id: nat)
    requires forall x :: x in s ==> x.order_record_id == id
    ensures ItemsOfRow(s, id) == s
    decreases |s|
  {
    if s != [] {
      assert s[0] in s;
      ItemsOfAllMatch(s[1..], id);
    }
  }

  lemma {:induction false} ItemsOfOtherRow(itemRows: seq<ItemRow>, added: seq<ItemRow>, id: nat)
    requires forall x :: x in added ==> x.order_record_id != id
    ensures ItemsOfRow(itemRows + added, id) == ItemsOfRow(itemRows, id)
    decreases |itemRows|
  {
    if itemRows == [] {
      assert itemRows + added == added;
      ItemsOfNoMatch(added, id);
    } else {
      assert (itemRows + added)[1..] == itemRows[1..] + added;
      ItemsOfOtherRow(itemRows[1..], added, id);
    }
  }

  lemma {:induction false} ItemsOfNewRow(itemRows: seq<ItemRow>, added: seq<ItemRow>, id: nat)
    requires forall x :: x in itemRows ==> x.order_record_id != id
    requires forall x :: x in added ==> x.order_record_id == id
    ensures ItemsOfRow(itemRows + added, id) == added
    decreases |itemRows|
  {
    if itemRows == [] {
      assert itemRows + added == added;
      ItemsOfAllMatch(added, id);
    } else {
      assert itemRows[0] in itemRows;
      assert (itemRows + added)[0] == itemRows[0];
      assert (itemRows + added)[1..] == itemRows[1..] + added;
      ItemsOfNewRow(itemRows[1..], added, id);
    }
  }

  /** Only the operational team: separators and confirmers, never viewers. */
  function OperationalUsers(rows: seq<User>): (r: seq<User>)
    ensures forall u :: u in r <==> u in rows && (u.role == Separator || u.role == Confirmer)
  {
    if rows == [] then []
    else
      var rest := OperationalUsers(rows[1..]);
      assert rows == [rows[0]] + rows[1..];
      if rows[0].role == Separator || rows[0].role == Confirmer then [rows[0]] + rest else rest
  }

  /** What `saveUser` sends: the id only when it is longer than 10 characters (a
      locally generated short id is left for the store to assign). */
  datatype UserPayload = UserPayload(id: Option<string>, name: string, role: Role)

  function SaveUserPayload(u: User): (p: UserPayload)
    ensures p.id.Some? <==> |u.id| > 10
    ensures p.id.Some? ==> p.id.value == u.id
    ensures p.name == u.name && p.role == u.role
  {
    UserPayload(if |u.id| > 10 then Some(u.id) else None, u.name, u.role)
  }

  /** The contents of the remote tables. `nextId` is the next order-row key the
      store hands out. */
  datatype Tables = Tables(rows: seq<OrderRow>, itemRows: seq<ItemRow>, userRows: seq<User>, nextId: nat)

  /** Every order-row key, and every key an item row points to, was handed out. */
  predicate KeysBelow(t: Tables)
  {
    (forall r :: r in t.rows ==> r.id < t.nextId) &&
    (forall x :: x in t.itemRows ==> x.order_record_id < t.nextId)
  }

  /** The orders the tables hold, one per order row, each with its own item rows. */
  function OrdersOf(t: Tables): (os: seq<Order>)
    ensures |os| == |t.rows|
    ensures forall i :: 0 <= i < |t.rows| ==>
      os[i] == MapOrderFromDB(t.rows[i], ItemsOfRow(t.itemRows, t.rows[i].id))
  {
    seq(|t.rows|, i requires 0 <= i < |t.rows| =>
      MapOrderFromDB(t.rows[i], ItemsOfRow(t.itemRows, t.rows[i].id)))
  }

  /** The tables after `createOrder(o)`: one order row under a fresh key, then
      its item rows (none for an order without items). */
  function AfterCreate(t: Tables, o: Order): (t': Tables)
    ensures t'.rows == t.rows + [InsertRow(o, t.nextId)]
    ensures t'.itemRows == t.itemRows + ItemRowsOf(o, t.nextId)
    ensures t'.userRows == t.userRows && t'.nextId == t.nextId + 1
    ensures KeysBelow(t) ==> KeysBelow(t')
  {
    var t' := Tables(t.rows + [InsertRow(o, t.nextId)], t.itemRows + ItemRowsOf(o, t.nextId),
                     t.userRows, t.nextId + 1);
    assert forall x :: x in ItemRowsOf(o, t.nextId) ==> x.order_record_id == t.nextId;
    t'
  }

  /** The tables after `updateOrder(o)`: only the order rows change. */
  function AfterUpdate(t: Tables, o: Order): (t': Tables)
    ensures t'.rows == UpdatedRows(t.rows, o)
    ensures t'.itemRows == t.itemRows && t'.userRows == t.userRows && t'.nextId == t.nextId
    ensures KeysBelow(t) ==> KeysBelow(t')
  {
    var t' := t.(rows := UpdatedRows(t.rows, o));
    assert forall r :: r in t'.rows ==> exists i :: 0 <= i < |t.rows| && r.id == t.rows[i].id;
    t'
  }

  /** The tables after `deleteUser(id)`: only the user rows change. */
  function AfterDeleteUser(t: Tables, id: string): (t': Tables)
    ensures t'.userRows == UsersWithoutId(t.userRows, id)
    ensures t'.rows == t.rows && t'.itemRows == t.itemRows && t'.nextId == t.nextId
  {
    t.(userRows := UsersWithoutId(t.userRows, id))
  }

  /** The remote store, held in memory. When it is not configured every
      operation leaves it as it is and every query returns nothing. */
  class RemoteStore {
    const configured: bool
    var rows: seq<OrderRow>
    var itemRows: seq<ItemRow>
    var userRows: seq<User>
    var nextId: nat

    function State(): Tables
      reads this
    {
      Tables(rows, itemRows, userRows, nextId)
    }

    ghost predicate Valid()
      reads this
    {
      KeysBelow(State())
    }

    constructor (configured: bool, t: Tables)
      requires KeysBelow(t)
      ensures Valid()
      ensures this.configured == configured && State() == t
    {
      this.configured := configured;
      rows, itemRows, userRows, nextId := t.rows, t.itemRows, t.userRows, t.nextId;
    }

    /** What `getOrders` yields: every stored order when configured and the query
        succeeds, and nothing otherwise (a failed query returns no orders rather
        than raising). */
    function Fetched(readOk: bool): (os: seq<Order>)
      reads this
      ensures configured && readOk ==> os == OrdersOf(State())
      ensures !configured || !readOk ==> os == []
    {
      if configured && readOk then OrdersOf(State()) else []
    }

    /** What `getUsers` yields: the operational team when configured and the
        query succeeds, and nothing otherwise. */
    function FetchedUsers(readOk: bool): (us: seq<User>)
      reads this
      ensures configured && readOk ==> us == OperationalUsers(userRows)
      ensures !configured || !readOk ==> us == []
    {
      if configured && readOk then OperationalUsers(userRows) else []
    }

    method GetOrders(readOk: bool) returns (os: seq<Order>)
      ensures os == Fetched(readOk)
    {
      if !configured || !readOk {
        return [];
      }
      os := OrdersOf(State());
    }

    method GetUsers(readOk: bool) returns (us: seq<User>)
      ensures us == FetchedUsers(readOk)
    {
      if !configured || !readOk {
        return [];
      }
      us := OperationalUsers(userRows);
    }

    /** `createOrder`: the order row, then its item rows when it has items. */
    method CreateOrder(o: Order)
      requires Valid()
      modifies this
      ensures Valid()
      ensures configured ==> State() == AfterCreate(old(State()), o)
      ensures !configured ==> State() == old(State())
    {
      if !configured {
        return;
      }
      var id := nextId;
      rows := rows + [InsertRow(o, id)];
      nextId := nextId + 1;
      if |o.items| > 0 {
        itemRows := itemRows + ItemRowsOf(o, id);
      }
    }

    /** `updateOrder`: the lifecycle columns of the rows of that instance. */
    method UpdateOrder(o: Order)
      requires Valid()
      modifies this
      ensures Valid()
      ensures configured ==> State() == AfterUpdate(old(State()), o)
      ensures !configured ==> State() == old(State())
    {
      if !configured {
        return;
      }
      rows := UpdatedRows(rows, o);
    }

    /** `deleteUser`: every user row with that id goes. */
    method DeleteUser(userId: string)
      requires Valid()
      modifies this
      ensures Valid()
      ensures configured ==> State() == AfterDeleteUser(old(State()), userId)
      ensures !configured ==> State() == old(State())
    {
      if !configured {
        return;
      }
      userRows := UsersWithoutId(userRows, userId);
    }
  }

  /** The list without the users of that id, the others kept in order. */
  function UsersWithoutId(us: seq<User>, id: string): (r: seq<User>)
    ensures forall u :: u in r <==> u in us && u.id != id
    ensures |r| <= |us|
  {
    if us == [] then []
    else
      var rest := UsersWithoutId(us[1..], id);
      assert us == [us[0]] + us[1..];
      if us[0].id != id then [us[0]] + rest else rest
  }

  /** Removal keeps the order of the remaining users: it works piece by piece. */
  lemma {:induction false} UsersWithoutIdAppend(a: seq<User>, b: seq<User>, id: string)
    ensures UsersWithoutId(a + b, id) == UsersWithoutId(a, id) + UsersWithoutId(b, id)
    decreases |a|
  {
    if a != [] {
      assert (a + b)[0] == a[0];
      assert (a + b)[1..] == a[1..] + b;
      UsersWithoutIdAppend(a[1..], b, id);
    } else {
      assert a + b == b;
    }
  }

  /** After creating an order, the store reads back every order it held before,
      unchanged, followed by the new one as created. */
  lemma CreatedOrderIsReadBack(t: Tables, o: Order)
    requires KeysBelow(t)
    ensures OrdersOf(AfterCreate(t, o)) ==
      OrdersOf(t) + [MapOrderFromDB(InsertRow(o, t.nextId), ItemRowsOf(o, t.nextId))]
  {
    var t' := AfterCreate(t, o);
    var added := ItemRowsOf(o, t.nextId);
    forall i | 0 <= i < |t.rows|
      ensures ItemsOfRow(t.itemRows + added, t.rows[i].id) == ItemsOfRow(t.itemRows, t.rows[i].id)
    {
      assert t.rows[i] in t.rows;
      ItemsOfOtherRow(t.itemRows, added, t.rows[i].id);
    }
    ItemsOfNewRow(t.itemRows, added, t.nextId);
    assert t'.rows[|t.rows|] == InsertRow(o, t.nextId);
  }

  /** After an update, each order of the updated instance reads back as that
      instance with the new status and every lifecycle field the update sent;
      a field it left out keeps the stored value, and the items are kept. Orders
      of other instances read back unchanged. */
  lemma UpdateThenReadBack(t: Tables, f: Order)
    ensures |OrdersOf(AfterUpdate(t, f))| == |OrdersOf(t)|
    ensures forall k :: 0 <= k < |t.rows| && !RowIsInstance(t.rows[k], f) ==>
      OrdersOf(AfterUpdate(t, f))[k] == OrdersOf(t)[k]
    ensures forall k :: 0 <= k < |t.rows| && RowIsInstance(t.rows[k], f) ==>
      var o, before := OrdersOf(AfterUpdate(t, f))[k], OrdersOf(t)[k];
      SameInstance(o, f) && o.status == f.status && o.items == before.items &&
      o.requester == before.requester && o.destinationSector == before.destinationSector &&
      (f.pickedItems.Some? ==> o.pickedItems == f.pickedItems) &&
      (f.completionStatus.Some? ==> o.completionStatus == f.completionStatus) &&
      (f.completionStatus.None? ==> o.completionStatus == before.completionStatus) &&
      (f.separator.Some? ==> o.separator == f.separator) &&
      (f.confirmer.Some? ==> o.confirmer == f.confirmer) &&
      (f.completionTimestamp.Some? ==> o.completionTimestamp == f.completionTimestamp) &&
      (f.cancellationReason.Some? ==> o.cancellationReason == f.cancellationReason)
  {
  }
}
