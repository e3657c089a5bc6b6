/** The application's state and its handlers: loading, ingesting a file's draft,
    resolving a duplicate, finishing the current order, promoting, reopening and
    canceling orders, and deleting team members. With a configured remote store
    each handler writes to the store and then re-reads and re-splits it; without
    one, the in-memory lists are the only copy and are edited directly. */
module App {
  import opened Types
  import opened Lifecycle
  import opened Backend
  import Picking

  /** The team shown until one is loaded. */
  const MockUsers: seq<User> := [
    User("user1", "Charles", Confirmer),
    User("user2", "Vicente", Confirmer),
    User("user3", "Diego", Separator),
    User("user4", "Zé Maria", Confirmer),
    User("user5", "Rodrigo", Separator)
  ]

  const LoadErrorMessage: string := "Erro ao conectar com o banco de dados."
  const ReadErrorMessage: string := "Não foi possível ler o arquivo."
  const ExtractionErrorMessage: string :=
    "Falha ao processar o arquivo com a IA. Verifique o formato do arquivo e tente novamente."
  const FinalizeErrorMessage: string := "Erro ao salvar finalização do pedido."

  /** A draft whose orderId is already in history, waiting for the operator: the
      order it would become and the history order it collides with. */
  datatype DuplicateCandidate = DuplicateCandidate(newOrder: Order, existingOrder: Order)

  /** The operator's two answers to a duplicate: reopen the existing record, or
      import the draft as a new order. */
  datatype DuplicateAction = Resume | ImportAsNew

  /** What reading and extracting an uploaded file produced. */
  datatype FileOutcome = ReadFailed | ExtractionFailed | Extracted(draft: Draft)

  /** The first position of the instance (orderId, timestamp) of `f` in `h`, or -1
      (`Array.findIndex`). */
  method FindInstanceIndex(h: seq<Order>, f: Order) returns (idx: int)
    ensures -1 <= idx < |h|
    ensures idx >= 0 ==> SameInstance(h[idx], f) && forall j :: 0 <= j < idx ==> !SameInstance(h[j], f)
    ensures idx == -1 ==> forall j :: 0 <= j < |h| ==> !SameInstance(h[j], f)
    ensures idx == IndexOfInstance(h, f)
  {
    idx := 0;
    while idx < |h|
      invariant 0 <= idx <= |h|
      invariant forall j :: 0 <= j < idx ==> !SameInstance(h[j], f)
    {
      if SameInstance(h[idx], f) {
        return;
      }
      idx := idx + 1;
    }
    idx := -1;
  }

  class AppState {
    const db: RemoteStore
    var history: seq<Order>
    var queue: seq<Order>
    var current: Option<Order>
    var selected: Option<Order>
    var candidate: Option<DuplicateCandidate>
    var error: Option<string>
    var users: seq<User>
    var currentUser: User

    /** The store's keys are consistent, and a pending duplicate always offers an
        order that would enter the queue in picking. */
    ghost predicate Valid()
      reads this, db
    {
      db.Valid() && (candidate.Some? ==> candidate.value.newOrder.status == Picking)
    }

    /** Empty lists, the default team, and the remembered current user (the last
        default member when none is remembered). */
    constructor (db: RemoteStore, rememberedUser: Option<User>)
      requires db.Valid()
      ensures Valid() && this.db == db
      ensures history == [] && queue == [] && users == MockUsers
      ensures current.None? && selected.None? && candidate.None? && error.None?
      ensures currentUser == if rememberedUser.Some? then rememberedUser.value else MockUsers[4]
    {
      this.db := db;
      history, queue := [], [];
      current, selected, candidate, error := None, None, None, None;
      users := MockUsers;
      currentUser := if rememberedUser.Some? then rememberedUser.value else MockUsers[4];
    }

    /** Re-reads the store and splits it into history and queue; a failed read
        yields no orders, so both lists become empty. With no store configured
        the lists are already authoritative and stay as they are. */
    method Refresh(readOk: bool)
      requires Valid()
      modifies this`history, this`queue
      ensures Valid()
      ensures db.configured ==>
        history == HistoryOf(db.Fetched(readOk)) && queue == QueueOf(db.Fetched(readOk))
      ensures db.configured ==> Partitioned(history, queue)
      ensures db.configured && !readOk ==> history == [] && queue == []
      ensures !db.configured ==> history == old(history) && queue == old(queue)
    {
      if !db.configured {
        return;
      }
      var fetched := db.GetOrders(readOk);
      history := HistoryOf(fetched);
      queue := QueueOf(fetched);
      FetchedIsPartitioned(fetched);
    }

    /** The remote half of a creation: the store creates the order and the lists
        are re-read from it. */
    method CreateRemotely(o: Order, readOk: bool)
      requires Valid() && db.configured
      modifies db, this`history, this`queue
      ensures Valid()
      ensures db.State() == AfterCreate(old(db.State()), o)
      ensures history == HistoryOf(db.Fetched(readOk)) && queue == QueueOf(db.Fetched(readOk))
    {
      db.CreateOrder(o);
      Refresh(readOk);
    }

    /** The remote half of an update: the store updates the rows of that
        instance and the lists are re-read from it. */
    method UpdateRemotely(f: Order, readOk: bool)
      requires Valid() && db.configured
      modifies db, this`history, this`queue
      ensures Valid()
      ensures db.State() == AfterUpdate(old(db.State()), f)
      ensures history == HistoryOf(db.Fetched(readOk)) && queue == QueueOf(db.Fetched(readOk))
    {
      db.UpdateOrder(f);
      Refresh(readOk);
    }

    /** Initial load. Without a store, the saved lists where present. With one,
        the fetched orders split by status (none when the order query fails) and
        the fetched team unless it comes back empty; only a raised failure
        (`loadOk` false) sets the connection message and leaves the lists. */
    method LoadData(storedHistory: Option<seq<Order>>, storedQueue: Option<seq<Order>>,
                    storedUsers: Option<seq<User>>, loadOk: bool, ordersOk: bool, usersOk: bool)
      requires Valid()
      modifies this
      ensures Valid()
      ensures current == old(current) && selected == old(selected) && candidate == old(candidate)
      ensures currentUser == old(currentUser)
      ensures !db.configured ==>
        history == (if storedHistory.Some? then storedHistory.value else old(history)) &&
        queue == (if storedQueue.Some? then storedQueue.value else old(queue)) &&
        users == (if storedUsers.Some? then storedUsers.value else old(users)) &&
        error == old(error)
      ensures db.configured && !loadOk ==>
        history == old(history) && queue == old(queue) && users == old(users) &&
        error == Some(LoadErrorMessage)
      ensures db.configured && loadOk ==>
        history == HistoryOf(db.Fetched(ordersOk)) && queue == QueueOf(db.Fetched(ordersOk)) &&
        users == (if db.FetchedUsers(usersOk) != [] then db.FetchedUsers(usersOk) else old(users)) &&
        error == old(error)
    {
      if !db.configured {
        if storedHistory.Some? { history := storedHistory.value; }
        if storedQueue.Some? { queue := storedQueue.value; }
        if storedUsers.Some? { users := storedUsers.value; }
        return;
      }
      if !loadOk {
        error := Some(LoadErrorMessage);
        return;
      }
      var fetchedOrders := db.GetOrders(ordersOk);
      var fetchedUsers := db.GetUsers(usersOk);
      if |fetchedUsers| > 0 {
        users := fetchedUsers;
      }
      history := HistoryOf(fetchedOrders);
      queue := QueueOf(fetchedOrders);
    }

    /** Ingesting an uploaded file. The view is cleared first; then a draft whose
        orderId is in history becomes a pending duplicate, one already queued is
        refused with a message naming it, and any other becomes a new picking
        order: created in the store and re-read, or appended to the queue. A
        failed creation is reported with the extraction message. */
    method FileProcess(input: FileOutcome, now: string, backendOk: bool, readOk: bool)
      requires Valid()
      modifies this, db
      ensures Valid()
      ensures current.None? && selected.None?
      ensures users == old(users) && currentUser == old(currentUser)
      ensures !input.Extracted? ==>
        history == old(history) && queue == old(queue) && candidate.None? &&
        error == Some(if input.ReadFailed? then ReadErrorMessage else ExtractionErrorMessage) &&
        db.State() == old(db.State())
      ensures input.Extracted? ==>
        var c := ClassifyIngestion(old(history), old(queue), input.draft, now);
        (c.DuplicateInHistory? ==>
          candidate == Some(DuplicateCandidate(c.newOrder, c.existing)) && error.None? &&
          history == old(history) && queue == old(queue) && db.State() == old(db.State())) &&
        (c.AlreadyQueued? ==>
          error == Some(QueuedMessage(input.draft.orderId)) && candidate.None? &&
          history == old(history) && queue == old(queue) && db.State() == old(db.State())) &&
        (c.Accepted? && !db.configured ==>
          queue == old(queue) + [NewOrder(input.draft, now)] && history == old(history) &&
          candidate.None? && error.None? && db.State() == old(db.State())) &&
        (c.Accepted? && db.configured && backendOk ==>
          db.State() == AfterCreate(old(db.State()), NewOrder(input.draft, now)) &&
          history == HistoryOf(db.Fetched(readOk)) && queue == QueueOf(db.Fetched(readOk)) &&
          candidate.None? && error.None?) &&
        (c.Accepted? && db.configured && !backendOk ==>
          db.State() == old(db.State()) && history == old(history) && queue == old(queue) &&
          candidate.None? && error == Some(ExtractionErrorMessage))
      ensures !db.configured && old(Partitioned(history, queue)) ==> Partitioned(history, queue)
    {
      error := None;
      current := None;
      selected := None;
      candidate := None;
      match input {
        case ReadFailed =>
          error := Some(ReadErrorMessage);
        case ExtractionFailed =>
          error := Some(ExtractionErrorMessage);
        case Extracted(d) =>
          var existingInHistory := FindByOrderId(history, d.orderId);
          var existingInQueue := FindByOrderId(queue, d.orderId);
          if existingInHistory.Some? {
            candidate := Some(DuplicateCandidate(NewOrder(d, now), existingInHistory.value));
          } else if existingInQueue.Some? {
            error := Some(QueuedMessage(d.orderId));
          } else {
            var newOrder := NewOrder(d, now);
            if db.configured {
              if backendOk {
                CreateRemotely(newOrder, readOk);
              } else {
                error := Some(ExtractionErrorMessage);
              }
            } else {
              QueuingKeepsPartition(history, queue, d, now);
              queue := queue + [newOrder];
            }
          }
      }
    }

    /** The operator's answer to a pending duplicate. Resume makes the existing
        record current and creates nothing; import-as-new queues the draft once.
        Both clear the pending duplicate; with none pending nothing happens. */
    method ConfirmDuplicateAction(action: DuplicateAction, backendOk: bool, readOk: bool)
      requires Valid()
      modifies this, db
      ensures Valid()
      ensures users == old(users) && currentUser == old(currentUser)
      ensures selected == old(selected) && error == old(error)
      ensures old(candidate).None? ==>
        candidate.None? && current == old(current) && history == old(history) &&
        queue == old(queue) && db.State() == old(db.State())
      ensures old(candidate).Some? && action == Resume ==>
        current == Some(old(candidate).value.existingOrder) && candidate.None? &&
        history == old(history) && queue == old(queue) && db.State() == old(db.State())
      ensures old(candidate).Some? && action == ImportAsNew && !db.configured ==>
        queue == old(queue) + [old(candidate).value.newOrder] && history == old(history) &&
        candidate.None? && current == old(current) && db.State() == old(db.State())
      ensures old(candidate).Some? && action == ImportAsNew && db.configured && backendOk ==>
        db.State() == AfterCreate(old(db.State()), old(candidate).value.newOrder) &&
        history == HistoryOf(db.Fetched(readOk)) && queue == QueueOf(db.Fetched(readOk)) &&
        candidate.None? && current == old(current)
      ensures old(candidate).Some? && action == ImportAsNew && db.configured && !backendOk ==>
        db.State() == old(db.State()) && history == old(history) && queue == old(queue) &&
        candidate == old(candidate) && current == old(current)
      ensures !db.configured && old(Partitioned(history, queue)) ==> Partitioned(history, queue)
    {
      if candidate.None? {
        return;
      }
      if action == Resume {
        current := Some(candidate.value.existingOrder);
        candidate := None;
      } else {
        var newOrder := candidate.value.newOrder;
        if db.configured {
          if !backendOk {
            return;
          }
          CreateRemotely(newOrder, readOk);
        } else {
          queue := queue + [newOrder];
        }
        candidate := None;
      }
    }

    /** Finishing the current order as completed or canceled with the ledger the
        picking screen handed over. Without a current order nothing happens.
        Locally, history gets the finished record in place of the same instance
        (or in front), and the queue loses every entry with that orderId.
        Remotely, the instance's rows are updated and the store re-read. */
    method FinalizeOrder(status: Picking.FinalStatus, picked: seq<string>,
                         separator: Option<User>, confirmer: Option<User>,
                         now: string, backendOk: bool, readOk: bool)
      requires Valid() && NoDups(picked)
      modifies this, db
      ensures Valid()
      ensures users == old(users) && currentUser == old(currentUser)
      ensures selected == old(selected) && candidate == old(candidate)
      ensures old(current).None? ==>
        current.None? && history == old(history) && queue == old(queue) &&
        error == old(error) && db.State() == old(db.State())
      ensures old(current).Some? ==> current.None?
      ensures old(current).Some? && !db.configured ==>
        var f := Finalized(old(current).value, status, picked, separator, confirmer, old(currentUser), now);
        history == Upserted(old(history), f) &&
        queue == WithoutOrderId(old(queue), f.orderId) && error == old(error) &&
        db.State() == old(db.State())
      ensures old(current).Some? && db.configured && backendOk ==>
        var f := Finalized(old(current).value, status, picked, separator, confirmer, old(currentUser), now);
        db.State() == AfterUpdate(old(db.State()), f) &&
        history == HistoryOf(db.Fetched(readOk)) && queue == QueueOf(db.Fetched(readOk)) &&
        error == old(error)
      ensures old(current).Some? && db.configured && !backendOk ==>
        db.State() == old(db.State()) && history == old(history) && queue == old(queue) &&
        error == Some(FinalizeErrorMessage)
      ensures !db.configured && old(Partitioned(history, queue)) ==> Partitioned(history, queue)
    {
      if current.None? {
        return;
      }
      var finalized := Finalized(current.value, status, picked, separator, confirmer, currentUser, now);
      if db.configured {
        if backendOk {
          UpdateRemotely(finalized, readOk);
        } else {
          error := Some(FinalizeErrorMessage);
        }
      } else {
        FinishLocally(finalized);
      }
      current := None;
    }

    /** The local half of finishing: the finished record replaces the entry of
        its instance in history (or goes in front), and every queue entry with
        its orderId goes. */
    method FinishLocally(f: Order)
      modifies this`history, this`queue
      ensures history == Upserted(old(history), f)
      ensures queue == WithoutOrderId(old(queue), f.orderId)
      ensures IsTerminal(f.status) && old(Partitioned(history, queue)) ==> Partitioned(history, queue)
    {
      var existingIndex := FindInstanceIndex(history, f);
      var updatedHistory: seq<Order>;
      if existingIndex >= 0 {
        updatedHistory := history;
        updatedHistory := updatedHistory[existingIndex := f];
      } else {
        updatedHistory := [f] + history;
      }
      if IsTerminal(f.status) {
        FinishingKeepsPartition(history, queue, f);
      }
      history := updatedHistory;
      queue := WithoutOrderId(queue, f.orderId);
    }

    /** Taking an order from the queue to the picking screen. */
    method PromoteOrder(o: Order)
      requires Valid()
      modifies this`current, this`selected
      ensures Valid()
      ensures current == Some(o) && selected.None?
    {
      current := Some(o);
      selected := None;
    }

    /** Opening a history order's detail view. */
    method SelectHistoryOrder(o: Order)
      requires Valid()
      modifies this`selected
      ensures Valid()
      ensures selected == Some(o)
    {
      selected := Some(o);
    }

    /** "Continue picking": the order becomes current again in picking, with its
        persisted picks; history is not touched until it is finished again. */
    method ContinuePicking(o: Order)
      requires Valid()
      modifies this`current, this`selected
      ensures Valid()
      ensures current == Some(Reopened(o)) && selected.None?
      ensures current.value.status == Picking && SameInstance(current.value, o)
      ensures Picking.SeedLedger(current.value) == Picking.SeedLedger(o)
    {
      current := Some(o.(status := Picking));
      selected := None;
    }

    /** Canceling a history order: only the entries of that instance change, to
        canceled with the fixed reason and no completion classification. */
    method CancelHistoryOrder(o: Order, now: string, backendOk: bool, readOk: bool)
      requires Valid()
      modifies this, db
      ensures Valid()
      ensures current == old(current) && candidate == old(candidate) && error == old(error)
      ensures users == old(users) && currentUser == old(currentUser)
      ensures !db.configured ==>
        history == CancelInHistory(old(history), o, now) && queue == old(queue) &&
        selected.None? && db.State() == old(db.State())
      ensures db.configured && backendOk ==>
        db.State() == AfterUpdate(old(db.State()), CanceledCopy(o, now)) &&
        history == HistoryOf(db.Fetched(readOk)) && queue == QueueOf(db.Fetched(readOk)) &&
        selected.None?
      ensures db.configured && !backendOk ==>
        db.State() == old(db.State()) && history == old(history) && queue == old(queue) &&
        selected == old(selected)
      ensures !db.configured && old(Partitioned(history, queue)) ==> Partitioned(history, queue)
    {
      var canceledOrder := o.(
        status := Canceled,
        completionStatus := None,
        cancellationReason := Some(ManualCancellationReason),
        completionTimestamp := Some(now));
      if db.configured {
        if !backendOk {
          return;
        }
        UpdateRemotely(canceledOrder, readOk);
      } else {
        CancelingKeepsPartition(history, queue, o, now);
        var prev := history;
        history := seq(|prev|, i requires 0 <= i < |prev| =>
          if SameInstance(prev[i], o) then canceledOrder else prev[i]);
        assert history == CancelInHistory(prev, o, now);
      }
      selected := None;
    }

    /** Back to the upload screen with nothing selected or pending. */
    method ResetToUpload()
      requires Valid()
      modifies this`current, this`selected, this`candidate, this`error
      ensures Valid()
      ensures current.None? && selected.None? && candidate.None? && error.None?
    {
      current, selected, candidate, error := None, None, None, None;
    }

    /** The team list handed back by the team screen replaces the current one. */
    method PersistUsers(updated: seq<User>)
      requires Valid()
      modifies this`users
      ensures Valid()
      ensures users == updated
    {
      users := updated;
    }

    /** Deleting a team member: from the store and then re-read (no one when the
        query fails), or locally from the list, keeping the others in order. A
        raised delete failure ends the handler before the re-read. */
    method DeleteUser(userId: string, backendOk: bool, readOk: bool)
      requires Valid()
      modifies this`users, db
      ensures Valid()
      ensures !db.configured ==>
        users == UsersWithoutId(old(users), userId) && db.State() == old(db.State())
      ensures db.configured && backendOk ==>
        db.State() == AfterDeleteUser(old(db.State()), userId) &&
        users == db.FetchedUsers(readOk)
      ensures db.configured && !backendOk ==>
        users == old(users) && db.State() == old(db.State())
    {
      if db.configured {
        if !backendOk {
          return;
        }
        db.DeleteUser(userId);
        users := db.GetUsers(readOk);
      } else {
        users := UsersWithoutId(users, userId);
      }
    }
  }

  /** A new order created in the store reaches the queue on the next successful
      read: the queue gains exactly the new order read back, an order of the same
      instance in picking, and history is unchanged. */
  lemma CreatedOrderReachesQueue(t: Tables, o: Order)
    requires KeysBelow(t) && o.status == Picking
    ensures var back := MapOrderFromDB(InsertRow(o, t.nextId), ItemRowsOf(o, t.nextId));
      multiset(QueueOf(OrdersOf(AfterCreate(t, o)))) == multiset(QueueOf(OrdersOf(t))) + multiset{back} &&
      SameInstance(back, o) && back.status == Picking
    ensures HistoryOf(OrdersOf(AfterCreate(t, o))) == HistoryOf(OrdersOf(t))
  {
    var back := MapOrderFromDB(InsertRow(o, t.nextId), ItemRowsOf(o, t.nextId));
    var os := OrdersOf(t);
    CreatedOrderIsReadBack(t, o);
    assert back.status == Picking;
    assert [back][1..] == [];
    assert QueueOf([back]) == [back];
    assert HistoryOf([back]) == [];
    QueueOfAppend(os, [back]);
    HistoryOfAppend(os, [back]);
  }

  /** After a remote finish, the re-read places every order of the finished
      instance in history with the new status, and none of it in the queue. */
  lemma FinishedInstanceLeavesQueue(t: Tables, f: Order)
    requires IsTerminal(f.status)
    ensures forall k :: 0 <= k < |t.rows| && RowIsInstance(t.rows[k], f) ==>
      OrdersOf(AfterUpdate(t, f))[k] in HistoryOf(OrdersOf(AfterUpdate(t, f))) &&
      OrdersOf(AfterUpdate(t, f))[k].status == f.status
    ensures forall o :: o in QueueOf(OrdersOf(AfterUpdate(t, f))) ==> !SameInstance(o, f)
  {
    UpdateThenReadBack(t, f);
    var os := OrdersOf(AfterUpdate(t, f));
    forall o | o in QueueOf(os) ensures !SameInstance(o, f) {
      var k :| 0 <= k < |os| && os[k] == o;
    }
  }

  /** Unlike the local path, the remote finish updates only the finished
      instance: another picking instance of the same orderId stays queued. */
  lemma RemoteFinishKeepsSiblingInstances(t: Tables, f: Order, k: int)
    requires 0 <= k < |t.rows| && t.rows[k].order_id == f.orderId
    requires t.rows[k].timestamp != f.timestamp && t.rows[k].status == Picking
    ensures OrdersOf(AfterUpdate(t, f))[k] == OrdersOf(t)[k]
    ensures OrdersOf(t)[k] in QueueOf(OrdersOf(AfterUpdate(t, f)))
  {
    UpdateThenReadBack(t, f);
  }

  /** A failed re-read empties both lists, after which any draft is accepted as
      new: duplicate detection sees neither the history nor the queue. */
  lemma FailedReadBlindsDuplicateCheck(d: Draft, now: string)
    ensures HistoryOf([]) == [] && QueueOf([]) == []
    ensures ClassifyIngestion(HistoryOf([]), QueueOf([]), d, now) == Accepted(NewOrder(d, now))
  {
  }

  /** The store's update leaves out absent fields, so canceling an order whose
      stored row says "incomplete" keeps that classification in the store, while
      the local history entry loses it. Both still read as canceled. */
  lemma RemoteCancelKeepsStoredClassification(row: OrderRow, o: Order, now: string)
    requires RowIsInstance(row, o) && row.completion_status == Some(Incomplete)
    ensures UpdatedRows([row], CanceledCopy(o, now))[0].completion_status == Some(Incomplete)
    ensures UpdatedRows([row], CanceledCopy(o, now))[0].status == Canceled
    ensures CancelInHistory([o], o, now)[0].completionStatus.None?
  {
    assert RowIsInstance(row, CanceledCopy(o, now));
  }
}
