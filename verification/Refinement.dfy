// Every run of the interleaved system reaches the committed rows that its
// committed transactions, run one after the other in commit order, would
// reach; and every successful reply is one an atomic call could have given.
module Refinement {
  import opened Tables
  import opened Spec
  import opened History
  import opened Machine
  import opened TxProof

  // An atomic call on db could have answered a.
  ghost predicate Explains(db: Store, a: Answer) {
    && ValidCall(a.call)
    && PossibleListing(db, a.call, a.rows)
    && var outcome := Perform(db, a.call, a.rows);
    && outcome.Ok? && outcome.value.reply == a.reply
    && (!a.wrote ==> outcome.value.writes == NO_WRITES)
  }

  // The reply is explained by the rows committed at its point of the history; a
  // reply that wrote is that of its own entry.
  ghost predicate Justified(db0: Store, h: seq<Op>, a: Answer) {
    && a.at <= |h|
    && Legal(db0, h[..a.at])
    && Explains(StateAfter(db0, h[..a.at]), a)
    && (a.wrote ==> a.at < |h| && h[a.at] == Commit(a.call) && a.rows == [])
  }

  ghost predicate Refines(db0: Store, s: State) {
    && Initial(db0)
    && Legal(db0, s.history)
    && StateAfter(db0, s.history) == s.db
    && (forall a :: a in s.answers ==> Justified(db0, s.history, a))
  }

  ghost predicate TxsInv(db0: Store, s: State) {
    && (forall t :: t in s.txs ==> TxInv(s.db, s.txs[t]))
    && (forall t, u :: t in s.txs && u in s.txs && t != u ==> Disjoint(s.txs[t].w, s.txs[u].w))
    && (forall t :: t in s.txs && s.txs[t].pc.Finish? && !s.txs[t].pc.answer.wrote ==>
          Justified(db0, s.history, s.txs[t].pc.answer))
  }

  ghost predicate Inv(db0: Store, s: State) {
    Refines(db0, s) && TxsInv(db0, s)
  }

  lemma JustifiedStays(db0: Store, h: seq<Op>, op: Op, a: Answer)
    requires Justified(db0, h, a)
    ensures Justified(db0, h + [op], a)
  {
    assert (h + [op])[..a.at] == h[..a.at];
  }

  // --------------------------------------------------------------- each label

  // Adding or replacing one live transaction.
  lemma PutInv(db0: Store, s: State, t: TxId, tx: Tx)
    requires Inv(db0, s) && TxInv(s.db, tx)
    requires forall u :: u in s.txs && u != t ==> Disjoint(tx.w, s.txs[u].w)
    requires tx.pc.Finish? && !tx.pc.answer.wrote ==> Justified(db0, s.history, tx.pc.answer)
    ensures Inv(db0, s.(txs := s.txs[t := tx]))
  {
  }

  lemma StartInv(db: Store, c: Call)
    requires ValidCall(c)
    ensures TxInv(db, Start(c)) && !Start(c).pc.Finish?
  {
  }

  lemma BeginInv(db0: Store, s: State, t: TxId, c: Call)
    requires Inv(db0, s) && Enabled(s, Begin(t, c))
    ensures Inv(db0, Next(s, Begin(t, c)))
  {
    StartInv(s.db, c);
    PutInv(db0, s, t, Start(c));
  }

  lemma DropInv(db0: Store, s: State, s': State, t: TxId)
    requires Inv(db0, s) && s'.db == s.db && s'.history == s.history && s'.txs == s.txs - {t}
    requires forall a :: a in s'.answers ==> Justified(db0, s.history, a)
    ensures Inv(db0, s')
  {
  }

  // The comparison with a stored order is the atomic one, on the rows listed.
  lemma ReplayExplained(db: Store, tx: Tx, rows: seq<ItemRow>, at: nat)
    requires TxInv(db, tx) && tx.pc.List? && Lists(db, tx.pc.found.id, rows)
    requires Execute(db, tx, rows, at).Replied?
    ensures Explains(db, Execute(db, tx, rows, at).answer)
    ensures Execute(db, tx, rows, at).answer.at == at && !Execute(db, tx, rows, at).answer.wrote
  {
  }

  lemma OnlyListReplies(db: Store, tx: Tx, rows: seq<ItemRow>, at: nat)
    requires WellPlaced(tx) && !tx.pc.Finish? && Execute(db, tx, rows, at).Replied?
    ensures tx.pc.List?
  {
  }

  lemma ReloadExplained(db: Store, tx: Tx, rows: seq<ItemRow>, at: nat)
    requires TxInv(db, tx) && tx.pc.Reload? && tx.call.req.Reserve?
    requires Execute(db, tx, rows, at).Continue?
    ensures Explains(db, Execute(db, tx, rows, at).tx.pc.answer)
    ensures Execute(db, tx, rows, at).tx.pc.answer.at == at && !Execute(db, tx, rows, at).tx.pc.answer.wrote
  {
  }

  lemma ExplainedNow(db0: Store, h: seq<Op>, a: Answer)
    requires Legal(db0, h) && Explains(StateAfter(db0, h), a) && a.at == |h| && !a.wrote
    ensures Justified(db0, h, a)
  {
    assert h[..|h|] == h;
  }

  lemma ReplayJustified(db0: Store, s: State, t: TxId, rows: seq<ItemRow>)
    requires Inv(db0, s) && Enabled(s, Statement(t, rows))
    requires Execute(s.db, s.txs[t], rows, |s.history|).Replied?
    ensures Justified(db0, s.history, Execute(s.db, s.txs[t], rows, |s.history|).answer)
  {
    OnlyListReplies(s.db, s.txs[t], rows, |s.history|);
    ReplayExplained(s.db, s.txs[t], rows, |s.history|);
    ExplainedNow(db0, s.history, Execute(s.db, s.txs[t], rows, |s.history|).answer);
  }

  lemma FinishedReload(db: Store, tx: Tx, rows: seq<ItemRow>, at: nat)
    requires WellPlaced(tx) && !tx.pc.Finish? && Execute(db, tx, rows, at).Continue?
    requires var tx' := Execute(db, tx, rows, at).tx; tx'.pc.Finish? && !tx'.pc.answer.wrote
    ensures tx.pc.Reload? && tx.call.req.Reserve?
  {
  }

  lemma ContinueInv(db0: Store, s: State, t: TxId, rows: seq<ItemRow>)
    requires Inv(db0, s) && Enabled(s, Statement(t, rows))
    requires Execute(s.db, s.txs[t], rows, |s.history|).Continue?
    ensures Inv(db0, Next(s, Statement(t, rows)))
  {
    var tx := s.txs[t];
    var tx' := Execute(s.db, tx, rows, |s.history|).tx;
    ExecuteKeepsInv(s.db, tx, rows, |s.history|);
    forall u | u in s.txs && u != t ensures Disjoint(tx'.w, s.txs[u].w) {
      ExecuteKeepsDisjoint(s.db, tx, rows, |s.history|, s.txs[u].w);
    }
    if tx'.pc.Finish? && !tx'.pc.answer.wrote {
      FinishedReload(s.db, tx, rows, |s.history|);
      ReloadExplained(s.db, tx, rows, |s.history|);
      ExplainedNow(db0, s.history, tx'.pc.answer);
    }
    PutInv(db0, s, t, tx');
  }

  // Committed rows db' one operation later, seen by all transactions but t.
  lemma AdvanceInv(db0: Store, s: State, s': State, op: Op, gone: set<TxId>)
    requires Inv(db0, s) && Effective(s.db, op)
    requires s'.db == ApplyOp(s.db, op) && s'.history == s.history + [op] && s'.txs == s.txs - gone
    requires forall u :: u in s'.txs ==>
               StockUntouched(s.db, s'.db, s.txs[u].w) && ClaimsFree(s'.db, s.txs[u].w)
    requires forall a :: a in s'.answers ==> a in s.answers || Justified(db0, s'.history, a)
    ensures Inv(db0, s')
  {
    LegalSnoc(db0, s.history, op);
    forall u | u in s'.txs ensures TxInv(s'.db, s'.txs[u]) {
      TxStable(s.db, s'.db, s.txs[u]);
    }
    forall a | a in s'.answers ensures Justified(db0, s'.history, a) {
      if a in s.answers {
        JustifiedStays(db0, s.history, op, a);
      }
    }
    forall u | u in s'.txs && s'.txs[u].pc.Finish? && !s'.txs[u].pc.answer.wrote
      ensures Justified(db0, s'.history, s'.txs[u].pc.answer)
    {
      JustifiedStays(db0, s.history, op, s.txs[u].pc.answer);
    }
  }

  lemma CommitJustified(db0: Store, h: seq<Op>, tx: Tx)
    requires Legal(db0, h) && TxInv(StateAfter(db0, h), tx) && tx.pc.Finish? && tx.pc.answer.wrote
    ensures Effective(StateAfter(db0, h), Commit(tx.call))
    ensures ApplyOp(StateAfter(db0, h), Commit(tx.call)) == Overlay(StateAfter(db0, h), tx.w)
    ensures Justified(db0, h + [Commit(tx.call)], tx.pc.answer.(at := |h|))
  {
    FinishPerforms(StateAfter(db0, h), tx);
    assert (h + [Commit(tx.call)])[..|h|] == h;
    PerformWrites(StateAfter(db0, h), tx.call);
    assert tx.pc.answer.call == tx.call && tx.pc.answer.rows == [];
    assert Explains(StateAfter(db0, h), tx.pc.answer.(at := |h|));
  }

  lemma CommitInv(db0: Store, s: State, t: TxId, acked: bool)
    requires Inv(db0, s) && Enabled(s, CommitTx(t, acked)) && s.txs[t].pc.answer.wrote
    ensures Inv(db0, Next(s, CommitTx(t, acked)))
  {
    var s', tx := Next(s, CommitTx(t, acked)), s.txs[t];
    forall u | u in s'.txs
      ensures StockUntouched(s.db, s'.db, s.txs[u].w) && ClaimsFree(s'.db, s.txs[u].w)
    {
      CommitUntouched(s.db, tx.w, s.txs[u].w);
    }
    CommitJustified(db0, s.history, tx);
    AdvanceInv(db0, s, s', Commit(tx.call), {t});
  }

  lemma ReplayWroteNothing(db: Store, tx: Tx)
    requires TxInv(db, tx) && tx.pc.Finish? && !tx.pc.answer.wrote
    ensures tx.w == NO_WRITES && Overlay(db, tx.w) == db
  {
  }

  // Committing a replayed reservation changes nothing.
  lemma ReplayCommitInv(db0: Store, s: State, t: TxId, acked: bool)
    requires Inv(db0, s) && Enabled(s, CommitTx(t, acked)) && !s.txs[t].pc.answer.wrote
    ensures Inv(db0, Next(s, CommitTx(t, acked)))
    ensures Next(s, CommitTx(t, acked)).db == s.db
  {
    var s' := Next(s, CommitTx(t, acked));
    ReplayWroteNothing(s.db, s.txs[t]);
    DropInv(db0, s, s', t);
  }

  lemma MarkInv(db0: Store, s: State, v: WorkerId, applied: bool, ok: bool)
    requires Inv(db0, s) && Enabled(s, Mark(v, applied, ok)) && applied
    ensures Inv(db0, Next(s, Mark(v, applied, ok)))
  {
    var s' := Next(s, Mark(v, applied, ok));
    var id := s.workers[v].batch[s.workers[v].next].id;
    forall u | u in s'.txs
      ensures StockUntouched(s.db, s'.db, s.txs[u].w) && ClaimsFree(s'.db, s.txs[u].w)
    {
      MarkUntouched(s.db, id, s.txs[u].w);
    }
    AdvanceInv(db0, s, s', MarkEvent(id), {});
  }

  lemma StatementInv(db0: Store, s: State, t: TxId, rows: seq<ItemRow>)
    requires Inv(db0, s) && Enabled(s, Statement(t, rows))
    ensures Inv(db0, Next(s, Statement(t, rows)))
  {
    match Execute(s.db, s.txs[t], rows, |s.history|) {
      case Continue(_) => ContinueInv(db0, s, t, rows);
      case Refused(_) => DropInv(db0, s, Next(s, Statement(t, rows)), t);
      case Replied(_) =>
        ReplayJustified(db0, s, t, rows);
        DropInv(db0, s, Next(s, Statement(t, rows)), t);
    }
  }

  lemma AnyCommitInv(db0: Store, s: State, t: TxId, acked: bool)
    requires Inv(db0, s) && Enabled(s, CommitTx(t, acked))
    ensures Inv(db0, Next(s, CommitTx(t, acked)))
  {
    if s.txs[t].pc.answer.wrote {
      CommitInv(db0, s, t, acked);
    } else {
      ReplayCommitInv(db0, s, t, acked);
    }
  }

  lemma StepInv(db0: Store, s: State, l: Label)
    requires Inv(db0, s) && Enabled(s, l)
    ensures Inv(db0, Next(s, l))
  {
    var s' := Next(s, l);
    match l {
      case Begin(t, c) => BeginInv(db0, s, t, c);
      case Statement(t, rows) => StatementInv(db0, s, t, rows);
      case Abort(t) => DropInv(db0, s, s', t);
      case CommitTx(t, acked) => AnyCommitInv(db0, s, t, acked);
      case Mark(v, applied, ok) =>
        if applied {
          MarkInv(db0, s, v, applied, ok);
        }
      case _ =>
    }
  }

  lemma {:induction false} RunInv(db0: Store, labels: seq<Label>)
    requires Runs(db0, labels)
    ensures Inv(db0, After(db0, labels))
    decreases |labels|
  {
    if labels != [] {
      var front := labels[..|labels| - 1];
      RunInv(db0, front);
      StepInv(db0, After(db0, front), labels[|labels| - 1]);
    }
  }

  // ------------------------------------------------------------- the theorem

  // Whatever the interleaving, the aborts and the lost acknowledgements.
  lemma EveryRunRefinesItsHistory(db0: Store, labels: seq<Label>)
    requires Runs(db0, labels)
    ensures var s := After(db0, labels);
      && Legal(db0, s.history)
      && s.db == StateAfter(db0, s.history)
      && forall a :: a in s.answers ==> Justified(db0, s.history, a)
  {
    RunInv(db0, labels);
  }

  // A transaction never decrements the same cabinet twice: the second line for
  // it finds the first one's reservation.
  lemma TakesCommittedRow(db: Store, tx: Tx, i: nat)
    requires TxInv(db, tx) && tx.pc == Take(i)
    ensures LinesOf(tx.call.req)[i].cabinetId !in tx.w.cabinets
  {
    var lines, keys := LinesOf(tx.call.req), StockKeysOf(tx.call);
    forall j | 0 <= j < i && lines[j].cabinetId == lines[i].cabinetId
      ensures keys[j] !in tx.w.reservations
    {
      assert keys[j] == keys[i];
    }
    if lines[i].cabinetId in tx.w.cabinets {
      var j := DecrementHasLine(db, lines, keys, i, lines[i].cabinetId);
      assert false;
    }
  }

  lemma OnlyTakeRefusesStock(db: Store, tx: Tx, rows: seq<ItemRow>, at: nat)
    requires WellPlaced(tx) && !tx.pc.Finish?
    requires Execute(db, tx, rows, at) == Refused(InsufficientStock)
    ensures tx.pc.Take?
    ensures var line := LinesOf(tx.call.req)[tx.pc.i];
      line.cabinetId in db.cabinets && line.cabinetId !in tx.w.cabinets ==>
        db.cabinets[line.cabinetId].quantity < line.quantity
  {
  }

  // The cabinet asked for has too little committed stock, or does not exist.
  ghost predicate ShortOf(db: Store, line: Line) {
    line.cabinetId in db.cabinets ==> db.cabinets[line.cabinetId].quantity < line.quantity
  }

  // Stock is refused only for a line whose cabinet is short of committed stock:
  // never because of a decrement that may still roll back.
  lemma InsufficientStockIsJustified(db0: Store, labels: seq<Label>, t: TxId, rows: seq<ItemRow>)
    requires Runs(db0, labels) && Enabled(After(db0, labels), Statement(t, rows))
    requires var s := After(db0, labels);
      Execute(s.db, s.txs[t], rows, |s.history|) == Refused(InsufficientStock)
    ensures var s := After(db0, labels);
      exists line :: line in LinesOf(s.txs[t].call.req) && ShortOf(s.db, line)
  {
    RunInv(db0, labels);
    var s := After(db0, labels);
    var tx := s.txs[t];
    OnlyTakeRefusesStock(s.db, tx, rows, |s.history|);
    TakesCommittedRow(s.db, tx, tx.pc.i);
    assert ShortOf(s.db, LinesOf(tx.call.req)[tx.pc.i]);
  }
}
