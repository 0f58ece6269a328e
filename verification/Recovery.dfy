// What faults can do to a client or a consumer, and what mends them: a lost
// acknowledgement is made good by a retry, a vanished call leaves nothing
// behind, and an event can be delivered twice.
module Recovery {
  import opened Tables
  import opened Spec
  import opened History
  import opened Machine
  import opened TxProof
  import opened Refinement
  import opened Ledger
  import opened Retries
  import opened Answerable
  import opened Erasure

  // A statement that is not enabled waits for another live call that has
  // written something.
  lemma StatementsWaitForWriters(db0: Store, labels: seq<Label>, t: TxId, rows: seq<ItemRow>)
    requires Runs(db0, labels) && t in After(db0, labels).txs
    requires var s := After(db0, labels); var tx := s.txs[t];
      !tx.pc.Finish? && (tx.pc.List? ==> Lists(s.db, tx.pc.found.id, rows))
    ensures var s := After(db0, labels);
      Enabled(s, Statement(t, rows)) || exists u :: u in s.txs && u != t && s.txs[u].w != NO_WRITES
  {
    RunInv(db0, labels);
    var s := After(db0, labels);
    assert TxInv(s.db, s.txs[t]);
    if forall u :: u in s.txs && u != t ==> s.txs[u].w == NO_WRITES {
      assert forall u :: u in s.txs && u != t ==> !Conflicts(s.txs[t], s.txs[u].w);
    }
  }

  // -------------------------------------------------------- vanishing calls

  // A live call can vanish at any moment, and then the run is one in which it
  // never began.
  lemma LiveCallsCanVanish(db0: Store, labels: seq<Label>, i: nat, t: TxId)
    requires Runs(db0, labels) && i < |labels| && labels[i].Begin? && labels[i].t == t
    requires forall k :: i < k < |labels| && (labels[k].Begin? || labels[k].CommitTx?) ==> labels[k].t != t
    requires t in After(db0, labels).txs
    ensures var gone, without := labels + [Abort(t)], Erase(labels + [Abort(t)], i, |labels|, t);
      && Runs(db0, gone) && Runs(db0, without)
      && Alike(After(db0, gone), After(db0, without))
      && After(db0, gone).db == After(db0, labels).db && t !in After(db0, gone).txs
  {
    Extend(db0, labels, Abort(t));
    var gone := labels + [Abort(t)];
    assert gone[..|labels|] == labels;
    assert Fails(db0, gone, i, |labels|, t);
    FailedCallsLeaveNoTrace(db0, gone, i, |labels|, t);
  }

  // ------------------------------------------------ a lost acknowledgement

  lemma CommittedReservationIsSame(db: Store, c: Call)
    requires Effective(db, Commit(c)) && c.req.Reserve?
    ensures KeyCommitted(ApplyOp(db, Commit(c)), c) && Same(ApplyOp(db, Commit(c)), c)
  {
    CommitStock(db, c);
    ReserveLinesRecord(db, LinesOf(c.req), StockKeysOf(c), 1, 0);
  }

  lemma LosesAcknowledgement(s: State, t: TxId, u: TxId)
    requires t in s.txs && u !in s.txs && s.txs[t].pc.Finish? && ValidCall(s.txs[t].call)
    ensures Enabled(s, CommitTx(t, false))
    ensures var s', c := Next(s, CommitTx(t, false)), s.txs[t].call;
      && s'.answers == s.answers && s'.db == Overlay(s.db, s.txs[t].w)
      && Enabled(s', Begin(u, c))
      && Next(s', Begin(u, c)) == s'.(txs := s'.txs[u := Start(c)])
  {
  }

  // The acknowledgement of t's commit is lost, and the client calls again.
  lemma CallsAgain(db0: Store, labels: seq<Label>, t: TxId, u: TxId) returns (again: seq<Label>)
    requires Runs(db0, labels) && t in After(db0, labels).txs && u !in After(db0, labels).txs
    requires After(db0, labels).txs[t].pc.Finish? && ValidCall(After(db0, labels).txs[t].call)
    ensures var s, c := After(db0, labels), After(db0, labels).txs[t].call;
      && again == labels + [CommitTx(t, false), Begin(u, c)] && Runs(db0, again)
      && After(db0, again).answers == s.answers && After(db0, again).db == Overlay(s.db, s.txs[t].w)
      && u in After(db0, again).txs && After(db0, again).txs[u] == Start(c)
  {
    var s := After(db0, labels);
    LosesAcknowledgement(s, t, u);
    Extend(db0, labels, CommitTx(t, false));
    Extend(db0, labels + [CommitTx(t, false)], Begin(u, s.txs[t].call));
    again := labels + [CommitTx(t, false), Begin(u, s.txs[t].call)];
    assert again == labels + [CommitTx(t, false)] + [Begin(u, s.txs[t].call)];
  }

  // On the rows it committed, the repeated call begins informed.
  lemma RepeatedCallIsSame(db0: Store, h: seq<Op>, tx: Tx, again: seq<Label>)
    requires Initial(db0) && Legal(db0, h) && TxInv(StateAfter(db0, h), tx) && tx.pc.Finish? && tx.pc.answer.wrote
    requires Runs(db0, again) && After(db0, again).db == Overlay(StateAfter(db0, h), tx.w)
    ensures KeyCommitted(After(db0, again).db, tx.call) && Same(After(db0, again).db, tx.call)
  {
    CommitJustified(db0, h, tx);
    HistoryAgrees(db0, h);
    if tx.call.req.Place? {
      CommittedOrderIsSame(db0, again, StateAfter(db0, h), tx.call, tx.call);
    } else {
      CommittedReservationIsSame(StateAfter(db0, h), tx.call);
    }
  }

  // Then there is a continuation that answers the repeated call.
  lemma LostAcknowledgementIsMadeGood(db0: Store, labels: seq<Label>, t: TxId, u: TxId)
    requires Runs(db0, labels) && t in After(db0, labels).txs && u !in After(db0, labels).txs
    requires After(db0, labels).txs[t].pc.Finish? && After(db0, labels).txs[t].pc.answer.wrote
    ensures var again := labels + [CommitTx(t, false), Begin(u, After(db0, labels).txs[t].call)];
      && Runs(db0, again) && After(db0, again).answers == After(db0, labels).answers
      && exists more :: AnsweredBy(db0, again, more, u)
  {
    var s := After(db0, labels);
    RunInv(db0, labels);
    var again := CallsAgain(db0, labels, t, u);
    RepeatedCallIsSame(db0, s.history, s.txs[t], again);
    AnswerableExactlyWhenNotLate(db0, again, u);
  }

  // ------------------------------------------------------- repeated events

  // A worker that crashes between publishing and marking publishes again: the
  // log has the first event of the batch twice.
  lemma CrashRepeatsEvent(db0: Store, labels: seq<Label>, v: WorkerId, batch: seq<EventRow>)
    requires Runs(db0, labels) && Enabled(After(db0, labels), ListBatch(v, batch)) && batch != []
    ensures var all, m := labels + [ListBatch(v, batch), Publish(v, true, true), Crash(v), ListBatch(v, batch), Publish(v, true, true)],
                          Message(batch[0].event.eventType, batch[0].event.payload);
      Runs(db0, all) && After(db0, all).broker == After(db0, labels).broker + [m, m]
  {
    var l := [ListBatch(v, batch), Publish(v, true, true)];
    var crashed := labels + l + [Crash(v)];
    PublishFirst(db0, labels, v, batch);
    Extend(db0, labels + l, Crash(v));
    PublishFirst(db0, crashed, v, batch);
    assert crashed + l == labels + [ListBatch(v, batch), Publish(v, true, true), Crash(v), ListBatch(v, batch), Publish(v, true, true)];
  }

  // So do two workers that list the same rows.
  lemma WorkersRepeatEvent(db0: Store, labels: seq<Label>, v: WorkerId, w: WorkerId, batch: seq<EventRow>)
    requires Runs(db0, labels) && v != w && batch != []
    requires Enabled(After(db0, labels), ListBatch(v, batch)) && Enabled(After(db0, labels), ListBatch(w, batch))
    ensures var all, m := labels + [ListBatch(v, batch), Publish(v, true, true), ListBatch(w, batch), Publish(w, true, true)],
                          Message(batch[0].event.eventType, batch[0].event.payload);
      Runs(db0, all) && After(db0, all).broker == After(db0, labels).broker + [m, m]
  {
    var l := [ListBatch(v, batch), Publish(v, true, true)];
    PublishFirst(db0, labels, v, batch);
    PublishFirst(db0, labels + l, w, batch);
    assert labels + l + [ListBatch(w, batch), Publish(w, true, true)]
        == labels + [ListBatch(v, batch), Publish(v, true, true), ListBatch(w, batch), Publish(w, true, true)];
  }

  lemma PublishFirst(db0: Store, labels: seq<Label>, v: WorkerId, batch: seq<EventRow>)
    requires Runs(db0, labels) && Enabled(After(db0, labels), ListBatch(v, batch)) && batch != []
    ensures var s, all := After(db0, labels), labels + [ListBatch(v, batch), Publish(v, true, true)];
      && Runs(db0, all)
      && After(db0, all) == s.(workers := s.workers[v := Worker(batch, 0, true)],
                               broker := s.broker + [Message(batch[0].event.eventType, batch[0].event.payload)])
  {
    var s := After(db0, labels);
    Extend(db0, labels, ListBatch(v, batch));
    Extend(db0, labels + [ListBatch(v, batch)], Publish(v, true, true));
    assert labels + [ListBatch(v, batch)] + [Publish(v, true, true)] == labels + [ListBatch(v, batch), Publish(v, true, true)];
    assert s.workers[v := Worker(batch, 0, false)][v := Worker(batch, 0, true)] == s.workers[v := Worker(batch, 0, true)];
  }
}
