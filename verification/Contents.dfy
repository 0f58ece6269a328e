// What committed calls store and answer, field by field.
module Contents {
  import opened Tables
  import opened Money
  import opened Spec
  import opened History
  import opened Machine
  import opened Refinement
  import opened Ledger
  import opened Guarantees

  // ------------------------------------------------------------ reservations

  // A fresh reservation takes its quantity, records itself, answers with the
  // row it leaves, and touches nothing else.
  lemma ReservationContents(db: Store, c: Call)
    requires Effective(db, Commit(c)) && c.req.Reserve?
    ensures var line, db' := c.req.line, ApplyOp(db, Commit(c));
      && line.cabinetId in db.cabinets && line.quantity <= db.cabinets[line.cabinetId].quantity
      && c.req.key !in db.reservations
      && var left := Cabinet(db.cabinets[line.cabinetId].quantity - line.quantity, db.cabinets[line.cabinetId].price);
      && db' == db.(cabinets := db.cabinets[line.cabinetId := left],
                    reservations := db.reservations[c.req.key := Reservation(line.cabinetId, line.quantity)])
      && Perform(db, c, []).value.reply == Reserved(line.cabinetId, left)
  {
    var line, key := c.req.line, c.req.key;
    PerformWrites(db, c);
    ReserveOnWrites(db, NO_WRITES, line, key);
    ReserveOnVisible(db, NO_WRITES, line, key);
    OverlayNothing(db);
    OnlyStockChanges(db, Perform(db, c, []).value.writes);
  }

  lemma OnlyStockChanges(db: Store, w: Store)
    requires StockOnly(db, w)
    ensures var db' := Overlay(db, w);
      db' == db.(cabinets := db'.cabinets, reservations := db'.reservations)
  {
    OverlayNothing(db);
  }

  // ------------------------------------------------------------------ orders

  // Header and event of a placed order, and the header it answers with.
  lemma OrderContents(db: Store, c: Call)
    requires Effective(db, Commit(c)) && c.req.Place?
    ensures var lines, db', prices := c.req.lines, ApplyOp(db, Commit(c)), Prices(db, c.req.lines);
      var total := Wrap64(Exact(lines, prices, |lines|));
      var order := Order(c.req.userId, PendingPayment, total, c.req.key);
      && db'.orders == db.orders[c.ids.orderId := order] && c.ids.orderId !in db.orders
      && db'.orderKeys == db.orderKeys[c.req.key := c.ids.orderId] && c.req.key !in db.orderKeys
      && db'.outbox == db.outbox[c.ids.eventId := Event(
           c.ids.orderId, "order.created", Payload(c.ids.eventId, c.ids.orderId, c.req.userId, total), c.now, false)]
      && c.ids.eventId !in db.outbox
      && Perform(db, c, []).value.reply.Placed?
      && Perform(db, c, []).value.reply.order == OrderRow(c.ids.orderId, order)
  {
    PerformWrites(db, c);
    FreshOrderRows(db, c);
    TotalIsWrappedSum(c.req.lines, Prices(db, c.req.lines), |c.req.lines|);
  }

  // The k-th line, in the table and in the reply.
  lemma LineContents(db: Store, c: Call, k: nat)
    requires Effective(db, Commit(c)) && c.req.Place? && k < |c.req.lines|
    ensures var db', line := ApplyOp(db, Commit(c)), c.req.lines[k];
      && line.cabinetId in db.cabinets && |c.ids.itemIds| == |c.req.lines|
      && var item := Item(c.ids.orderId, line.cabinetId, line.quantity, db.cabinets[line.cabinetId].price);
      && c.ids.itemIds[k] !in db.items && c.ids.itemIds[k] in db'.items && db'.items[c.ids.itemIds[k]] == item
      && Perform(db, c, []).value.reply.Placed?
      && var rows := Perform(db, c, []).value.reply.rows;
      && |rows| == |c.req.lines| && rows[k] == ItemRow(c.ids.itemIds[k], item)
  {
    PerformWrites(db, c);
    FreshOrderRows(db, c);
    ItemTableAt(c, Prices(db, c.req.lines), |c.req.lines|, k);
  }

  // The reservation of the k-th line, under the key order:<order>:<cabinet>.
  lemma LineReservation(db: Store, c: Call, k: nat)
    requires Effective(db, Commit(c)) && c.req.Place? && k < |c.req.lines|
    ensures var key, reservations' := "order:" + c.ids.orderId + ":" + c.req.lines[k].cabinetId, ApplyOp(db, Commit(c)).reservations;
      key in reservations' && reservations'[key] == Reservation(c.req.lines[k].cabinetId, c.req.lines[k].quantity)
  {
    CommitStock(db, c);
    ReserveLinesRecord(db, c.req.lines, StockKeysOf(c), |c.req.lines|, k);
  }

  // ---------------------------------------------------------------- over runs

  ghost predicate AllPending(db: Store) {
    forall o :: o in db.orders ==> db.orders[o].status == PendingPayment
  }

  lemma ApplyKeepsPending(db: Store, op: Op)
    requires Effective(db, op) && AllPending(db)
    ensures AllPending(ApplyOp(db, op))
  {
    if op.Commit? && op.call.req.Place? {
      OrderContents(db, op.call);
    } else {
      OtherOpsRows(db, op);
    }
  }

  lemma {:induction false} HistoryIsPending(db0: Store, h: seq<Op>)
    requires Initial(db0) && Legal(db0, h)
    ensures AllPending(StateAfter(db0, h))
    decreases |h|
  {
    if h != [] {
      HistoryIsPending(db0, h[..|h| - 1]);
      ApplyKeepsPending(StateAfter(db0, h[..|h| - 1]), h[|h| - 1]);
    }
  }

  lemma PlacedMeansPlace(db: Store, a: Answer)
    requires Explains(db, a)
    ensures a.reply.Placed? <==> a.call.req.Place?
  {
  }

  // In every run every order awaits payment, and so every reply says.
  lemma OrdersAwaitPayment(db0: Store, labels: seq<Label>)
    requires Runs(db0, labels)
    ensures var s := After(db0, labels);
      && (forall o :: o in s.db.orders ==> s.db.orders[o].status == PendingPayment)
      && (forall a :: a in s.answers && a.reply.Placed? ==> a.reply.order.order.status == PendingPayment)
  {
    RunInv(db0, labels);
    var s := After(db0, labels);
    HistoryIsPending(db0, s.history);
    forall a | a in s.answers && a.reply.Placed? ensures a.reply.order.order.status == PendingPayment {
      PlacedMeansPlace(StateAfter(db0, s.history[..a.at]), a);
      AnswerNamesFinalOrder(db0, s.history, a);
    }
  }

  // An order belongs to the user of the call that its key was first used by.
  ghost predicate PlacedBy(h: seq<Op>, i: nat, o: Id)
    requires i < |h|
  {
    h[i].Commit? && h[i].call.req.Place? && h[i].call.ids.orderId == o
  }

  lemma OrderHasCall(db: Store, op: Op, o: Id)
    requires Effective(db, op) && o in ApplyOp(db, op).orders && o !in db.orders
    ensures op.Commit? && op.call.req.Place? && op.call.ids.orderId == o
    ensures ApplyOp(db, op).orders[o].userId == op.call.req.userId && ApplyOp(db, op).orders[o].key == op.call.req.key
  {
    if op.Commit? && op.call.req.Place? {
      OrderContents(db, op.call);
    } else {
      OtherOpsRows(db, op);
      assert false;
    }
  }

  lemma {:induction false} OrderHasItsCall(db0: Store, h: seq<Op>, o: Id) returns (i: nat)
    requires Initial(db0) && Legal(db0, h) && o in StateAfter(db0, h).orders
    ensures i < |h| && PlacedBy(h, i, o)
    ensures var order := StateAfter(db0, h).orders[o];
      order.userId == h[i].call.req.userId && order.key == h[i].call.req.key
    decreases |h|
  {
    var front, op := h[..|h| - 1], h[|h| - 1];
    var db := StateAfter(db0, front);
    ApplyGrows(db, op);
    if o in db.orders {
      i := OrderHasItsCall(db0, front, o);
    } else {
      OrderHasCall(db, op, o);
      i := |h| - 1;
    }
  }

  // In every run every order stores the user and the key of one committed call.
  lemma OrdersBelongToTheirCalls(db0: Store, labels: seq<Label>, o: Id)
    requires Runs(db0, labels) && o in After(db0, labels).db.orders
    ensures var s := After(db0, labels);
      exists i :: 0 <= i < |s.history| && PlacedBy(s.history, i, o)
        && s.db.orders[o].userId == s.history[i].call.req.userId && s.db.orders[o].key == s.history[i].call.req.key
  {
    RunInv(db0, labels);
    var i := OrderHasItsCall(db0, After(db0, labels).history, o);
  }
}
