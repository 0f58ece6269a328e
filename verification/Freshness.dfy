// Fresh order ids. uuid.New() is modelled as giving an id that nobody has used
// or can name before the order is committed; under that assumption every
// committed order finds its stock keys free, and value is conserved.
module Freshness {
  import opened Tables
  import opened StockKeys
  import opened Spec
  import opened History
  import opened Machine
  import opened TxProof
  import opened Refinement
  import opened Ledger
  import opened Value

  ghost predicate IsStockKeyOf(orderId: Id, key: string) {
    exists c :: key == StockKey(orderId, c)
  }

  // The call cannot write a reservation under a stock key of orderId.
  ghost predicate Avoids(c: Call, orderId: Id) {
    match c.req
    case Reserve(_, key) => !IsStockKeyOf(orderId, key)
    case Place(_, _, _) => ColonFree(c.ids.orderId) && c.ids.orderId != orderId
  }

  // A drawn order id has no colon, no committed or live call uses it, and no
  // client names a key of an order it has not been told about.
  ghost predicate FreshLabel(s: State, l: Label) {
    l.Begin? ==>
      && (forall t :: t in s.txs && s.txs[t].call.req.Place? ==> Avoids(l.call, s.txs[t].call.ids.orderId))
      && (l.call.req.Place? ==>
            && ColonFree(l.call.ids.orderId)
            && (forall k :: k in s.db.reservations ==> !IsStockKeyOf(l.call.ids.orderId, k))
            && (forall t :: t in s.txs ==> Avoids(s.txs[t].call, l.call.ids.orderId)))
  }

  ghost predicate FreshRun(db0: Store, labels: seq<Label>)
    requires Runs(db0, labels)
    decreases |labels|
  {
    labels == [] ||
    var front := labels[..|labels| - 1];
    FreshRun(db0, front) && FreshLabel(After(db0, front), labels[|labels| - 1])
  }

  // The stock keys of a live order are its own.
  ghost predicate OwnsKeys(s: State, t: TxId)
    requires t in s.txs
  {
    var id := s.txs[t].call.ids.orderId;
    && ColonFree(id)
    && (forall k :: k in s.db.reservations ==> !IsStockKeyOf(id, k))
    && (forall u :: u in s.txs && u != t ==> Avoids(s.txs[u].call, id))
  }

  ghost predicate FreshInv(s: State) {
    forall t :: t in s.txs && s.txs[t].call.req.Place? ==> OwnsKeys(s, t)
  }

  lemma AvoidedKeys(c: Call, orderId: Id, k: nat)
    requires Avoids(c, orderId) && ColonFree(orderId) && k < |LinesOf(c.req)|
    ensures !IsStockKeyOf(orderId, StockKeysOf(c)[k])
  {
    if IsStockKeyOf(orderId, StockKeysOf(c)[k]) && c.req.Place? {
      var cab :| StockKeysOf(c)[k] == StockKey(orderId, cab);
      StockKeyInjective(c.ids.orderId, c.req.lines[k].cabinetId, orderId, cab);
    }
  }

  // Another call's commit adds no stock key of a live order.
  lemma CommitAvoids(db: Store, c: Call, orderId: Id)
    requires Effective(db, Commit(c)) && Avoids(c, orderId) && ColonFree(orderId)
    requires forall k :: k in db.reservations ==> !IsStockKeyOf(orderId, k)
    ensures forall k :: k in ApplyOp(db, Commit(c)).reservations ==> !IsStockKeyOf(orderId, k)
  {
    CommitStock(db, c);
    var lines, keys := LinesOf(c.req), StockKeysOf(c);
    var w := ReserveLines(db, lines, keys, |lines|).value;
    forall k | k in w.reservations ensures !IsStockKeyOf(orderId, k) {
      var j := ReservationHasLine(db, lines, keys, |lines|, k);
      AvoidedKeys(c, orderId, j);
    }
  }

  lemma BeginFresh(s: State, t: TxId, c: Call)
    requires FreshInv(s) && Enabled(s, Begin(t, c)) && FreshLabel(s, Begin(t, c))
    ensures FreshInv(Next(s, Begin(t, c)))
  {
  }

  // Fewer or advanced transactions over the same committed reservations.
  lemma SameCallsFresh(s: State, s': State)
    requires FreshInv(s) && s'.db.reservations == s.db.reservations
    requires forall u :: u in s'.txs ==> u in s.txs && s'.txs[u].call == s.txs[u].call
    ensures FreshInv(s')
  {
  }

  lemma OwnKeysAreFree(s: State, t: TxId)
    requires FreshInv(s) && t in s.txs
    ensures FreshCall(s.db, s.txs[t].call)
  {
    var c := s.txs[t].call;
    if c.req.Place? {
      assert OwnsKeys(s, t);
      forall k | 0 <= k < |c.req.lines| ensures StockKeysOf(c)[k] !in s.db.reservations {
        assert IsStockKeyOf(c.ids.orderId, StockKeysOf(c)[k]);
      }
    }
  }

  lemma CommitLeavesOwned(s: State, s': State, t: TxId, u: TxId)
    requires FreshInv(s) && t in s.txs && u in s.txs && u != t && s.txs[u].call.req.Place?
    requires Effective(s.db, Commit(s.txs[t].call)) && s'.db == ApplyOp(s.db, Commit(s.txs[t].call))
    requires s'.txs == s.txs - {t}
    ensures OwnsKeys(s', u)
  {
    assert OwnsKeys(s, u);
    CommitAvoids(s.db, s.txs[t].call, s.txs[u].call.ids.orderId);
  }

  lemma CommitFresh(db0: Store, s: State, t: TxId, acked: bool)
    requires Inv(db0, s) && FreshInv(s) && Enabled(s, CommitTx(t, acked)) && s.txs[t].pc.answer.wrote
    ensures FreshInv(Next(s, CommitTx(t, acked)))
    ensures FreshCall(s.db, s.txs[t].call)
  {
    var s' := Next(s, CommitTx(t, acked));
    OwnKeysAreFree(s, t);
    CommitJustified(db0, s.history, s.txs[t]);
    forall u | u in s'.txs && s'.txs[u].call.req.Place? ensures OwnsKeys(s', u) {
      CommitLeavesOwned(s, s', t, u);
    }
  }

  lemma StatementFresh(s: State, t: TxId, rows: seq<ItemRow>)
    requires FreshInv(s) && Enabled(s, Statement(t, rows))
    ensures FreshInv(Next(s, Statement(t, rows)))
  {
    ExecuteKeepsCall(s.db, s.txs[t], rows, |s.history|);
    SameCallsFresh(s, Next(s, Statement(t, rows)));
  }

  lemma FreshStep(db0: Store, s: State, l: Label)
    requires Inv(db0, s) && FreshInv(s) && Enabled(s, l) && FreshLabel(s, l)
    ensures FreshInv(Next(s, l))
  {
    match l {
      case Begin(t, c) => BeginFresh(s, t, c);
      case Statement(t, rows) => StatementFresh(s, t, rows);
      case CommitTx(t, acked) =>
        if s.txs[t].pc.answer.wrote {
          CommitFresh(db0, s, t, acked);
        } else {
          ReplayCommitInv(db0, s, t, acked);
          SameCallsFresh(s, Next(s, l));
        }
      case _ => SameCallsFresh(s, Next(s, l));
    }
  }

  // How a step extends the history.
  lemma NextHistory(s: State, l: Label)
    requires Enabled(s, l)
    ensures Next(s, l).history == s.history
         || (l.CommitTx? && s.txs[l.t].pc.answer.wrote && Next(s, l).history == s.history + [Commit(s.txs[l.t].call)])
         || exists id :: Next(s, l).history == s.history + [MarkEvent(id)]
  {
  }

  lemma FreshHistorySnoc(db0: Store, h: seq<Op>, op: Op)
    requires Legal(db0, h) && FreshHistory(db0, h) && Legal(db0, h + [op])
    requires op.Commit? ==> FreshCall(StateAfter(db0, h), op.call)
    ensures FreshHistory(db0, h + [op])
  {
    var h' := h + [op];
    forall i | 0 <= i < |h'| && h'[i].Commit?
      ensures Legal(db0, h'[..i]) && FreshCall(StateAfter(db0, h'[..i]), h'[i].call)
    {
      assert h'[..i] == h[..i] && h[..|h|] == h;
    }
  }

  lemma {:induction false} FreshRunsHaveFreshHistories(db0: Store, labels: seq<Label>)
    requires Runs(db0, labels) && FreshRun(db0, labels)
    ensures Legal(db0, After(db0, labels).history)
    ensures FreshInv(After(db0, labels)) && FreshHistory(db0, After(db0, labels).history)
    decreases |labels|
  {
    RunInv(db0, labels);
    if labels != [] {
      var front, l := labels[..|labels| - 1], labels[|labels| - 1];
      var s := After(db0, front);
      FreshRunsHaveFreshHistories(db0, front);
      RunInv(db0, front);
      FreshStep(db0, s, l);
      NextHistory(s, l);
      var h' := Next(s, l).history;
      if h' != s.history {
        var op := h'[|h'| - 1];
        assert h' == s.history + [op];
        if op.Commit? {
          CommitFresh(db0, s, l.t, l.acked);
        }
        FreshHistorySnoc(db0, s.history, op);
      }
    }
  }

  // In every run with fresh ids.
  lemma ValueIsConservedInRuns(db0: Store, labels: seq<Label>)
    requires Runs(db0, labels) && FreshRun(db0, labels)
    ensures var s := After(db0, labels);
      && Inventory(s.db) == StockValue(db0.cabinets) + ExcessOf(db0, s.history)
      && (NothingIsNegative(db0) && TotalsFit(db0, s.history) ==>
            && Inventory(s.db) >= StockValue(db0.cabinets)
            && (RepeatsNowhere(s.history) ==> Inventory(s.db) == StockValue(db0.cabinets))
            && (NothingIsFree(db0) && Inventory(s.db) == StockValue(db0.cabinets) ==> RepeatsNowhere(s.history)))
  {
    RunInv(db0, labels);
    FreshRunsHaveFreshHistories(db0, labels);
    ValueIsAccountedFor(db0, After(db0, labels).history);
    if NothingIsNegative(db0) && TotalsFit(db0, After(db0, labels).history) {
      ValueIsConserved(db0, After(db0, labels).history);
    }
  }
}
