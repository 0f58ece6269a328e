// The outbox over whole runs, with publish and mark failures, crashes and
// several workers holding stale batches: events are never lost and never made
// up.
module OutboxSafety {
  import opened Tables
  import opened Spec
  import opened History
  import opened Machine
  import opened Refinement
  import opened Ledger
  import opened Guarantees

  // The log holds the event of some committed row.
  ghost predicate Known(db: Store, m: Message) {
    exists e :: e in db.outbox && m == MessageOf(db.outbox[e])
  }

  ghost predicate HoldsRows(db: Store, k: Worker) {
    forall j :: 0 <= j < |k.batch| ==>
      k.batch[j].id in db.outbox && SameEvent(k.batch[j].event, db.outbox[k.batch[j].id])
  }

  ghost predicate WorkerInv(db: Store, broker: seq<Message>, k: Worker) {
    && HoldsRows(db, k)
    && (k.sent ==> k.next < |k.batch| && MessageOf(k.batch[k.next].event) in broker)
  }

  ghost predicate OutboxInv(s: State) {
    && (forall v :: v in s.workers ==> WorkerInv(s.db, s.broker, s.workers[v]))
    && (forall m :: m in s.broker ==> Known(s.db, m))
    && (forall e :: e in s.db.outbox && s.db.outbox[e].published ==> MessageOf(s.db.outbox[e]) in s.broker)
  }

  // New committed rows, all unpublished or already in the log.
  lemma RowsChange(s: State, s': State)
    requires OutboxInv(s) && Grows(s.db, s'.db) && s'.broker == s.broker
    requires s'.workers == s.workers
    requires forall e :: e in s'.db.outbox && s'.db.outbox[e].published ==>
               MessageOf(s'.db.outbox[e]) in s.broker
    ensures OutboxInv(s')
  {
  }

  // Replacing one worker.
  lemma WorkerChange(s: State, v: WorkerId, k: Worker)
    requires OutboxInv(s) && WorkerInv(s.db, s.broker, k)
    ensures OutboxInv(s.(workers := s.workers[v := k]))
  {
  }

  lemma CommitOutbox(db: Store, c: Call)
    requires Effective(db, Commit(c))
    ensures forall e :: e in ApplyOp(db, Commit(c)).outbox && ApplyOp(db, Commit(c)).outbox[e].published ==>
              e in db.outbox && db.outbox[e] == ApplyOp(db, Commit(c)).outbox[e]
  {
    PerformWrites(db, c);
    if c.req.Place? {
      FreshOrderRows(db, c);
    }
  }

  lemma CommitStep(db0: Store, s: State, t: TxId, acked: bool)
    requires Inv(db0, s) && OutboxInv(s) && Enabled(s, CommitTx(t, acked))
    ensures OutboxInv(Next(s, CommitTx(t, acked)))
  {
    var s', tx := Next(s, CommitTx(t, acked)), s.txs[t];
    if tx.pc.answer.wrote {
      CommitJustified(db0, s.history, tx);
      ApplyGrows(s.db, Commit(tx.call));
      CommitOutbox(s.db, tx.call);
      RowsChange(s, s');
    } else {
      ReplayCommitInv(db0, s, t, acked);
    }
  }

  lemma PublishStep(s: State, v: WorkerId, delivered: bool, ok: bool)
    requires OutboxInv(s) && Enabled(s, Publish(v, delivered, ok))
    ensures OutboxInv(Next(s, Publish(v, delivered, ok)))
  {
  }

  lemma MarkedRows(s: State, id: Id, m: Message)
    requires OutboxInv(s) && id in s.db.outbox && m == MessageOf(s.db.outbox[id]) && m in s.broker
    ensures Grows(s.db, Marked(s.db, id))
    ensures forall e :: e in Marked(s.db, id).outbox && Marked(s.db, id).outbox[e].published ==>
              MessageOf(Marked(s.db, id).outbox[e]) in s.broker
  {
  }

  lemma MarkApplied(s: State, id: Id, m: Message)
    requires OutboxInv(s) && id in s.db.outbox && m == MessageOf(s.db.outbox[id]) && m in s.broker
    ensures OutboxInv(s.(db := Marked(s.db, id), history := s.history + [MarkEvent(id)]))
  {
    MarkedRows(s, id, m);
    RowsChange(s, s.(db := Marked(s.db, id), history := s.history + [MarkEvent(id)]));
  }

  lemma MarkStep(s: State, v: WorkerId, applied: bool, ok: bool)
    requires OutboxInv(s) && Enabled(s, Mark(v, applied, ok))
    ensures OutboxInv(Next(s, Mark(v, applied, ok)))
  {
    var k := s.workers[v];
    var row := k.batch[k.next];
    assert WorkerInv(s.db, s.broker, k);
    var s1 := s;
    if applied {
      MarkApplied(s, row.id, MessageOf(row.event));
      s1 := s.(db := Marked(s.db, row.id), history := s.history + [MarkEvent(row.id)]);
      assert WorkerInv(s1.db, s1.broker, s1.workers[v]);
    }
    WorkerChange(s1, v, k.(next := k.next + 1, sent := false));
  }

  lemma QuietStep(s: State, l: Label)
    requires OutboxInv(s) && Enabled(s, l) && (l.Begin? || l.Statement? || l.Abort? || l.Crash?)
    ensures OutboxInv(Next(s, l))
  {
  }

  lemma OutboxStep(db0: Store, s: State, l: Label)
    requires Inv(db0, s) && OutboxInv(s) && Enabled(s, l)
    ensures OutboxInv(Next(s, l))
  {
    match l {
      case CommitTx(t, acked) => CommitStep(db0, s, t, acked);
      case ListBatch(v, batch) => WorkerChange(s, v, Worker(batch, 0, false));
      case Publish(v, delivered, ok) => PublishStep(s, v, delivered, ok);
      case Mark(v, applied, ok) => MarkStep(s, v, applied, ok);
      case _ => QuietStep(s, l);
    }
  }

  lemma {:induction false} RunOutbox(db0: Store, labels: seq<Label>)
    requires Runs(db0, labels)
    ensures OutboxInv(After(db0, labels))
    decreases |labels|
  {
    if labels != [] {
      var front := labels[..|labels| - 1];
      RunOutbox(db0, front);
      RunInv(db0, front);
      OutboxStep(db0, After(db0, front), labels[|labels| - 1]);
    }
  }

  ghost predicate InLog(s: State, e: Id)
    requires e in s.db.outbox
  {
    Message(s.db.outbox[e].eventType, s.db.outbox[e].payload) in s.broker
  }

  // Marked rows are in the log with their type and payload; every committed
  // order's event is in the log or still waiting; and every message is that of
  // the row it names, which tells truthfully of a committed order.
  lemma NoEventIsLostOrInvented(db0: Store, labels: seq<Label>)
    requires Runs(db0, labels)
    ensures var s := After(db0, labels);
      && (forall e :: e in s.db.outbox && s.db.outbox[e].published ==> InLog(s, e))
      && (forall o :: o in s.db.orders ==>
            exists e :: e in s.db.outbox && s.db.outbox[e].aggregateId == o && (InLog(s, e) || !s.db.outbox[e].published))
      && (forall m :: m in s.broker ==>
            && m.payload.eventId in s.db.outbox
            && m.payload == s.db.outbox[m.payload.eventId].payload
            && m.eventType == s.db.outbox[m.payload.eventId].eventType == "order.created"
            && m.payload.orderId == s.db.outbox[m.payload.eventId].aggregateId
            && m.payload.orderId in s.db.orders
            && m.payload.userId == s.db.orders[m.payload.orderId].userId
            && m.payload.amountCents == s.db.orders[m.payload.orderId].totalCents)
  {
    RunInv(db0, labels);
    RunOutbox(db0, labels);
    var s := After(db0, labels);
    HistoryAgrees(db0, s.history);
    forall o | o in s.db.orders
      ensures exists e :: e in s.db.outbox && s.db.outbox[e].aggregateId == o && (InLog(s, e) || !s.db.outbox[e].published)
    {
      assert OrderAgrees(s.db, o);
      var e :| e in s.db.outbox && s.db.outbox[e].aggregateId == o;
    }
    forall m | m in s.broker
      ensures m.payload.eventId in s.db.outbox && m.payload == s.db.outbox[m.payload.eventId].payload
      ensures m.eventType == s.db.outbox[m.payload.eventId].eventType == "order.created"
      ensures m.payload.orderId == s.db.outbox[m.payload.eventId].aggregateId && m.payload.orderId in s.db.orders
      ensures m.payload.userId == s.db.orders[m.payload.orderId].userId
      ensures m.payload.amountCents == s.db.orders[m.payload.orderId].totalCents
    {
      var e :| e in s.db.outbox && m == MessageOf(s.db.outbox[e]);
      assert EventTells(s.db, e, s.db.outbox[e]);
    }
  }

  lemma NextLog(s: State, l: Label)
    requires Enabled(s, l)
    ensures s.broker <= Next(s, l).broker
  {
  }

  lemma {:induction false} LogOnlyGrows(db0: Store, labels: seq<Label>, i: nat)
    requires Runs(db0, labels) && i <= |labels|
    ensures Runs(db0, labels[..i]) && After(db0, labels[..i]).broker <= After(db0, labels).broker
    decreases |labels|
  {
    if i == |labels| {
      assert labels[..i] == labels;
    } else {
      var front := labels[..|labels| - 1];
      assert front[..i] == labels[..i];
      LogOnlyGrows(db0, front, i);
      NextLog(After(db0, front), labels[|labels| - 1]);
    }
  }

  // Along a run the published flag never reverts and the log only grows.
  lemma PublishingIsPermanent(db0: Store, labels: seq<Label>, i: nat)
    requires Runs(db0, labels) && i <= |labels|
    ensures Runs(db0, labels[..i])
    ensures var s, s' := After(db0, labels[..i]), After(db0, labels);
      && s.broker <= s'.broker
      && forall e :: e in s.db.outbox ==>
           && e in s'.db.outbox && s'.db.outbox[e].payload == s.db.outbox[e].payload
           && (s.db.outbox[e].published ==> s'.db.outbox[e].published)
  {
    LogOnlyGrows(db0, labels, i);
    CommittedRowsOnlyGrow(db0, labels, i);
  }
}
