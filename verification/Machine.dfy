// The catalog service as it runs: any number of transactions at Read Committed
// isolation, interleaved statement by statement, and any number of outbox
// workers. A statement sees the latest committed rows under the transaction's
// own writes; it waits while it needs a row or a unique key that another live
// transaction holds.
module Machine {
  import opened Tables
  import opened Money
  import opened Spec
  import opened History

  type TxId = nat
  type WorkerId = nat

  const BATCH_LIMIT: nat := 25

  // The next SQL statement of a transaction; i counts order lines.
  datatype Pc =
    | Lookup                   // GetOrderByItempotencyKey
    | List(found: OrderRow)    // ListOrderItems and the comparison
    | Price(i: nat)            // GetCabinet for the price snapshot
    | Find(i: nat)             // GetReservation
    | Reload(i: nat)           // GetCabinet for an existing reservation
    | Take(i: nat)             // DecrementStock
    | Record(i: nat)           // CreateReservation
    | InsertHeader             // CreateOrder
    | InsertLine(i: nat)       // CreateOrderItem
    | InsertEvent              // InsertOutboxEvent
    | Finish(answer: Answer)   // Commit

  datatype Tx = Tx(call: Call, pc: Pc, prices: seq<int>, total: int, w: Store)

  // A successful reply. at is the number of operations committed before the
  // point at which the reply is explained; wrote tells a first execution from
  // a replay.
  datatype Answer = Answer(call: Call, rows: seq<ItemRow>, reply: Reply, at: nat, wrote: bool)

  // A refused call, with the committed rows its failing statement saw.
  datatype Refusal = Refusal(call: Call, error: Error, seen: Store)

  datatype EventRow = EventRow(id: Id, event: Event)
  datatype Message = Message(eventType: string, payload: Payload)

  // A worker in ProcessBatch: the listed rows, the one it is at, and whether
  // that one has just been published and must be marked next.
  datatype Worker = Worker(batch: seq<EventRow>, next: nat, sent: bool)

  datatype State = State(
    db: Store,
    txs: map<TxId, Tx>,
    workers: map<WorkerId, Worker>,
    broker: seq<Message>,
    history: seq<Op>,
    answers: seq<Answer>,
    refusals: seq<Refusal>)

  function Start(c: Call): Tx {
    Tx(c, if c.req.Reserve? then Find(0) else Lookup, [], 0, NO_WRITES)
  }

  datatype Outcome =
    | Continue(tx: Tx)
    | Refused(error: Error)
    | Replied(answer: Answer)

  // Where the code goes after line i has been reserved.
  function AfterLine(tx: Tx, i: nat): Pc {
    if i + 1 < |LinesOf(tx.call.req)| then Find(i + 1) else InsertHeader
  }

  ghost predicate AtLine(tx: Tx, i: nat) {
    i < |LinesOf(tx.call.req)|
  }

  // The program counter is inside the program of the call.
  ghost predicate WellPlaced(tx: Tx) {
    && ValidCall(tx.call)
    && match tx.pc
       case Lookup => tx.call.req.Place?
       case List(_) => tx.call.req.Place?
       case Price(i) => tx.call.req.Place? && AtLine(tx, i)
       case Find(i) => AtLine(tx, i)
       case Reload(i) => AtLine(tx, i)
       case Take(i) => AtLine(tx, i)
       case Record(i) => AtLine(tx, i) && LinesOf(tx.call.req)[i].cabinetId in tx.w.cabinets
       case InsertHeader => tx.call.req.Place?
       case InsertLine(i) => tx.call.req.Place? && AtLine(tx, i) && |tx.prices| == |tx.call.req.lines|
       case InsertEvent => tx.call.req.Place? && |tx.prices| == |tx.call.req.lines|
       case Finish(_) => true
  }

  // The transaction after CreateReservation for line i.
  ghost function Recorded(tx: Tx, i: nat, at: nat): Tx
    requires AtLine(tx, i) && LinesOf(tx.call.req)[i].cabinetId in tx.w.cabinets
  {
    var line := LinesOf(tx.call.req)[i];
    var w := tx.w.(reservations := tx.w.reservations[StockKeysOf(tx.call)[i] := Reservation(line.cabinetId, line.quantity)]);
    var reply := Reserved(line.cabinetId, tx.w.cabinets[line.cabinetId]);
    tx.(w := w, pc := if tx.call.req.Reserve? then Finish(Answer(tx.call, [], reply, at, true)) else AfterLine(tx, i))
  }

  // The transaction after CreateOrderItem for line i.
  ghost function LineInserted(tx: Tx, i: nat): Tx
    requires ValidCall(tx.call) && tx.call.req.Place? && AtLine(tx, i) && |tx.prices| == |tx.call.req.lines|
  {
    tx.(w := tx.w.(items := tx.w.items[tx.call.ids.itemIds[i] := NewItem(tx.call, tx.prices, i)]),
        pc := if i + 1 < |tx.call.req.lines| then InsertLine(i + 1) else InsertEvent)
  }

  // One statement and the code up to the next one. rows is the answer of
  // ListOrderItems, at the number of operations committed so far.
  ghost function Execute(db: Store, tx: Tx, rows: seq<ItemRow>, at: nat): Outcome
    requires WellPlaced(tx) && !tx.pc.Finish?
  {
    var c, w := tx.call, tx.w;
    var lines, keys := LinesOf(c.req), StockKeysOf(c);
    match tx.pc
    case Lookup =>
      (match OrderByKey(db, c.req.key)
       case Some(found) => Continue(tx.(pc := List(found)))
       case None => Continue(tx.(pc := Price(0))))
    case List(found) =>
      (match ReplayOf(found, c.req, rows)
       case Ok(done) => Replied(Answer(c, rows, done.reply, at, false))
       case Err(e) => Refused(e))
    case Price(i) =>
      (match Visible(db.cabinets, w.cabinets, lines[i].cabinetId)
       case Some(row) =>
         Continue(tx.(prices := tx.prices + [row.price],
                      total := Wrap64(tx.total + Wrap64(row.price * lines[i].quantity)),
                      pc := if i + 1 < |lines| then Price(i + 1) else Find(0)))
       case None => Refused(NotFound))
    case Find(i) =>
      (match Visible(db.reservations, w.reservations, keys[i])
       case Some(r) =>
         if r != Reservation(lines[i].cabinetId, lines[i].quantity) then Refused(DuplicateReservation)
         else Continue(tx.(pc := Reload(i)))
       case None => Continue(tx.(pc := Take(i))))
    case Reload(i) =>
      (match Visible(db.cabinets, w.cabinets, lines[i].cabinetId)
       case Some(row) =>
         if c.req.Reserve?
         then Continue(tx.(pc := Finish(Answer(c, [], Reserved(lines[i].cabinetId, row), at, false))))
         else Continue(tx.(pc := AfterLine(tx, i)))
       case None => Refused(Internal))
    case Take(i) =>
      (match Visible(db.cabinets, w.cabinets, lines[i].cabinetId)
       case Some(row) =>
         if row.quantity >= lines[i].quantity then
           var left := row.(quantity := row.quantity - lines[i].quantity);
           Continue(tx.(w := w.(cabinets := w.cabinets[lines[i].cabinetId := left]), pc := Record(i)))
         else Refused(InsufficientStock)
       case None => Refused(InsufficientStock))
    case Record(i) =>
      if Visible(db.reservations, w.reservations, keys[i]).Some? then Refused(DuplicateReservation)
      else
        Continue(Recorded(tx, i, at))
    case InsertHeader =>
      if Visible(db.orders, w.orders, c.ids.orderId).Some? || Visible(db.orderKeys, w.orderKeys, c.req.key).Some?
      then Refused(DuplicateOrder)
      else Continue(tx.(w := WithHeader(w, c, tx.total), pc := InsertLine(0)))
    case InsertLine(i) =>
      if Visible(db.items, w.items, c.ids.itemIds[i]).Some? then Refused(Internal)
      else Continue(LineInserted(tx, i))
    case InsertEvent =>
      if Visible(db.outbox, w.outbox, c.ids.eventId).Some? then Refused(Internal)
      else
        var reply := Placed(OrderRow(c.ids.orderId, Header(c.req, tx.total)), NewRows(c, tx.prices, |tx.prices|));
        Continue(tx.(w := w.(outbox := w.outbox[c.ids.eventId := CreatedEvent(c, tx.total)]),
                     pc := Finish(Answer(c, [], reply, at, true))))
  }

  // The statement needs a row lock or a unique key that writes other hold.
  ghost predicate Conflicts(tx: Tx, other: Store)
    requires WellPlaced(tx)
  {
    match tx.pc
    case Take(i) => LinesOf(tx.call.req)[i].cabinetId in other.cabinets
    case Record(i) => StockKeysOf(tx.call)[i] in other.reservations
    case InsertHeader => tx.call.ids.orderId in other.orders || tx.call.req.key in other.orderKeys
    case InsertLine(i) => tx.call.ids.itemIds[i] in other.items
    case InsertEvent => tx.call.ids.eventId in other.outbox
    case _ => false
  }

  // A batch the query may return: unpublished rows, oldest first, at most limit.
  ghost predicate IsBatch(outbox: map<Id, Event>, limit: nat, batch: seq<EventRow>) {
    && |batch| <= limit
    && (forall i :: 0 <= i < |batch| ==>
          batch[i].id in outbox && batch[i].event == outbox[batch[i].id] && !batch[i].event.published)
    && (forall i, j :: 0 <= i < j < |batch| ==>
          batch[i].id != batch[j].id && batch[i].event.createdAt <= batch[j].event.createdAt)
    && (forall id :: id in outbox && !outbox[id].published && EventRow(id, outbox[id]) !in batch ==>
          |batch| == limit && forall row :: row in batch ==> row.event.createdAt <= outbox[id].createdAt)
  }

  datatype Label =
    | Begin(t: TxId, call: Call)
    | Statement(t: TxId, rows: seq<ItemRow>)
    | Abort(t: TxId)                     // any fault before the commit takes effect
    | CommitTx(t: TxId, acked: bool)     // acked false: the acknowledgement is lost
    | ListBatch(v: WorkerId, batch: seq<EventRow>)
    | Publish(v: WorkerId, delivered: bool, ok: bool)
    | Mark(v: WorkerId, applied: bool, ok: bool)
    | Crash(v: WorkerId)

  ghost predicate Busy(s: State, v: WorkerId) {
    v in s.workers && s.workers[v].next < |s.workers[v].batch|
  }

  ghost predicate Enabled(s: State, l: Label) {
    match l
    case Begin(t, c) => t !in s.txs && ValidCall(c)
    case Statement(t, rows) =>
      && t in s.txs && WellPlaced(s.txs[t]) && !s.txs[t].pc.Finish?
      && (s.txs[t].pc.List? ==> Lists(s.db, s.txs[t].pc.found.id, rows))
      && (Execute(s.db, s.txs[t], rows, |s.history|).Continue? ==>
            forall u :: u in s.txs && u != t ==> !Conflicts(s.txs[t], s.txs[u].w))
    case Abort(t) => t in s.txs
    case CommitTx(t, _) => t in s.txs && s.txs[t].pc.Finish?
    case ListBatch(v, batch) => !Busy(s, v) && IsBatch(s.db.outbox, BATCH_LIMIT, batch)
    case Publish(v, delivered, ok) => Busy(s, v) && !s.workers[v].sent && (ok ==> delivered)
    case Mark(v, applied, ok) =>
      && Busy(s, v) && s.workers[v].sent && (ok ==> applied)
      && s.workers[v].batch[s.workers[v].next].id in s.db.outbox
    case Crash(v) => v in s.workers
  }

  function MessageOf(e: Event): Message {
    Message(e.eventType, e.payload)
  }

  ghost function Next(s: State, l: Label): State
    requires Enabled(s, l)
  {
    match l
    case Begin(t, c) => s.(txs := s.txs[t := Start(c)])
    case Statement(t, rows) =>
      (match Execute(s.db, s.txs[t], rows, |s.history|)
       case Continue(tx) => s.(txs := s.txs[t := tx])
       case Refused(e) => s.(txs := s.txs - {t}, refusals := s.refusals + [Refusal(s.txs[t].call, e, s.db)])
       case Replied(a) => s.(txs := s.txs - {t}, answers := s.answers + [a]))
    case Abort(t) => s.(txs := s.txs - {t})
    case CommitTx(t, acked) =>
      var tx := s.txs[t];
      var answer := tx.pc.answer.(at := if tx.pc.answer.wrote then |s.history| else tx.pc.answer.at);
      s.(db := Overlay(s.db, tx.w),
         txs := s.txs - {t},
         history := if tx.pc.answer.wrote then s.history + [Commit(tx.call)] else s.history,
         answers := if acked then s.answers + [answer] else s.answers)
    case ListBatch(v, batch) => s.(workers := s.workers[v := Worker(batch, 0, false)])
    case Publish(v, delivered, ok) =>
      var k := s.workers[v];
      s.(broker := if delivered then s.broker + [MessageOf(k.batch[k.next].event)] else s.broker,
         workers := s.workers[v := if ok then k.(sent := true) else k.(next := k.next + 1)])
    case Mark(v, applied, ok) =>
      var k := s.workers[v];
      s.(db := if applied then Marked(s.db, k.batch[k.next].id) else s.db,
         history := if applied then s.history + [MarkEvent(k.batch[k.next].id)] else s.history,
         workers := s.workers[v := k.(next := k.next + 1, sent := false)])
    case Crash(v) => s.(workers := s.workers - {v})
  }

  ghost function Boot(db: Store): State {
    State(db, map[], map[], [], [], [], [])
  }

  // A run of the system from freshly migrated tables.
  ghost predicate Runs(db0: Store, labels: seq<Label>)
    decreases |labels|, 0
  {
    if labels == [] then Initial(db0)
    else
      var front := labels[..|labels| - 1];
      Runs(db0, front) && Enabled(After(db0, front), labels[|labels| - 1])
  }

  ghost function After(db0: Store, labels: seq<Label>): State
    requires Runs(db0, labels)
    decreases |labels|, 1
  {
    if labels == [] then Boot(db0)
    else Next(After(db0, labels[..|labels| - 1]), labels[|labels| - 1])
  }

  // One step more.
  lemma Extend(db0: Store, labels: seq<Label>, l: Label)
    requires Runs(db0, labels) && Enabled(After(db0, labels), l)
    ensures Runs(db0, labels + [l]) && After(db0, labels + [l]) == Next(After(db0, labels), l)
  {
  }

  // A step leaves the transactions of others alone.
  lemma OthersStand(s: State, l: Label, t: TxId)
    requires Enabled(s, l) && t in Next(s, l).txs && !(l.Begin? && l.t == t) && !(l.Statement? && l.t == t)
    ensures t in s.txs && Next(s, l).txs[t] == s.txs[t]
  {
  }
}
