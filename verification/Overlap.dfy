// Refused calls. A call is refused exactly as an atomic call would be, as long
// as no call that shares a key with it commits while it runs.
module Overlap {
  import opened Tables
  import opened Spec
  import opened History
  import opened Machine
  import opened TxProof
  import opened Refinement
  import opened Ledger
  import opened Guarantees

  // The two calls can neither write a common reservation key nor a common
  // order key or id.
  ghost predicate Independent(a: Call, b: Call) {
    && (forall i, j :: 0 <= i < |LinesOf(a.req)| && 0 <= j < |LinesOf(b.req)| ==> StockKeysOf(a)[i] != StockKeysOf(b)[j])
    && (a.req.Place? && b.req.Place? ==> a.req.key != b.req.key && a.ids.orderId != b.ids.orderId)
  }

  // What the transaction found free is still free.
  ghost predicate StillFree(db: Store, tx: Tx) {
    match tx.call.req
    case Reserve(_, key) => tx.pc.Take? || tx.pc.Record? ==> key !in db.reservations
    case Place(_, lines, key) =>
      && tx.call.ids.orderId !in db.orders
      && (forall k :: 0 <= k < |lines| ==> StockKeysOf(tx.call)[k] !in db.reservations)
      && (!tx.pc.Lookup? && !tx.pc.List? ==> key !in db.orderKeys)
  }

  // The ids a call draws are fresh.
  ghost predicate FreeToStart(db: Store, c: Call) {
    c.req.Place? ==>
      && c.ids.orderId !in db.orders
      && forall k :: 0 <= k < |c.req.lines| ==> StockKeysOf(c)[k] !in db.reservations
  }

  // The keys a commit adds are those of its call.
  lemma CommitKeys(db: Store, c: Call)
    requires Effective(db, Commit(c))
    ensures var db' := ApplyOp(db, Commit(c));
      && (forall k :: k in db'.reservations && k !in db.reservations ==>
            exists j :: 0 <= j < |LinesOf(c.req)| && StockKeysOf(c)[j] == k)
      && (forall o :: o in db'.orders && o !in db.orders ==> c.req.Place? && o == c.ids.orderId)
      && (forall k :: k in db'.orderKeys && k !in db.orderKeys ==> c.req.Place? && k == c.req.key)
  {
    var lines, keys := LinesOf(c.req), StockKeysOf(c);
    CommitStock(db, c);
    forall k | k in ApplyOp(db, Commit(c)).reservations && k !in db.reservations
      ensures exists j :: 0 <= j < |lines| && keys[j] == k
    {
      var j := ReservationHasLine(db, lines, keys, |lines|, k);
    }
    if c.req.Place? {
      FreshOrderRows(db, c);
    } else {
      OtherOpsRows(db, Commit(c));
    }
  }

  lemma IndependentCommitLeavesFree(db: Store, c: Call, tx: Tx)
    requires Effective(db, Commit(c)) && Independent(c, tx.call) && StillFree(db, tx)
    ensures StillFree(ApplyOp(db, Commit(c)), tx)
  {
    CommitKeys(db, c);
    var db' := ApplyOp(db, Commit(c));
    forall k | 0 <= k < |LinesOf(tx.call.req)| && StockKeysOf(tx.call)[k] !in db.reservations
      ensures StockKeysOf(tx.call)[k] !in db'.reservations
    {
    }
    if tx.call.req.Reserve? {
      assert StockKeysOf(tx.call)[0] == tx.call.req.key;
    }
  }

  lemma StatementKeepsFree(db: Store, tx: Tx, rows: seq<ItemRow>, at: nat)
    requires KeysAgree(db) && WellPlaced(tx) && !tx.pc.Finish? && StillFree(db, tx) && Execute(db, tx, rows, at).Continue?
    ensures StillFree(db, Execute(db, tx, rows, at).tx) && Execute(db, tx, rows, at).tx.call == tx.call
  {
  }

  // The transaction t does not begin, and no other call that shares a key with
  // it commits.
  ghost predicate CalmLabel(s: State, l: Label, t: TxId) {
    match l
    case Begin(u, _) => u != t
    case CommitTx(u, _) =>
      u != t && u in s.txs && t in s.txs && s.txs[u].pc.Finish? && s.txs[u].pc.answer.wrote ==>
        Independent(s.txs[u].call, s.txs[t].call)
    case _ => true
  }

  // Calm for t from the n-th step on.
  ghost predicate Undisturbed(db0: Store, labels: seq<Label>, n: nat, t: TxId)
    requires Runs(db0, labels)
    decreases |labels|
  {
    |labels| <= n ||
    var front := labels[..|labels| - 1];
    Undisturbed(db0, front, n, t) && CalmLabel(After(db0, front), labels[|labels| - 1], t)
  }

  lemma CommitLeavesFree(db0: Store, s: State, u: TxId, acked: bool, t: TxId)
    requires Inv(db0, s) && Enabled(s, CommitTx(u, acked)) && CalmLabel(s, CommitTx(u, acked), t)
    requires t in s.txs && t != u && StillFree(s.db, s.txs[t])
    ensures StillFree(Next(s, CommitTx(u, acked)).db, s.txs[t])
  {
    if s.txs[u].pc.answer.wrote {
      CommitJustified(db0, s.history, s.txs[u]);
      IndependentCommitLeavesFree(s.db, s.txs[u].call, s.txs[t]);
    } else {
      ReplayCommitInv(db0, s, u, acked);
    }
  }

  lemma SameKeysStillFree(db: Store, db': Store, tx: Tx)
    requires StillFree(db, tx)
    requires db'.orders == db.orders && db'.orderKeys == db.orderKeys && db'.reservations == db.reservations
    ensures StillFree(db', tx)
  {
  }

  lemma OwnStatementKeepsFree(s: State, t: TxId, rows: seq<ItemRow>)
    requires KeysAgree(s.db) && Enabled(s, Statement(t, rows)) && StillFree(s.db, s.txs[t])
    ensures t in Next(s, Statement(t, rows)).txs ==>
              StillFree(Next(s, Statement(t, rows)).db, Next(s, Statement(t, rows)).txs[t])
  {
    if Execute(s.db, s.txs[t], rows, |s.history|).Continue? {
      StatementKeepsFree(s.db, s.txs[t], rows, |s.history|);
    }
  }

  lemma OtherStepKeepsFree(s: State, l: Label, t: TxId)
    requires Enabled(s, l) && !l.CommitTx? && t in s.txs && StillFree(s.db, s.txs[t])
    ensures StillFree(Next(s, l).db, s.txs[t])
  {
    SameKeysStillFree(s.db, Next(s, l).db, s.txs[t]);
  }

  lemma CalmCommit(db0: Store, s: State, u: TxId, acked: bool, t: TxId)
    requires Inv(db0, s) && Enabled(s, CommitTx(u, acked)) && CalmLabel(s, CommitTx(u, acked), t)
    requires t in s.txs && StillFree(s.db, s.txs[t])
    ensures var s' := Next(s, CommitTx(u, acked)); t in s'.txs ==> StillFree(s'.db, s'.txs[t])
  {
    if t != u {
      CommitLeavesFree(db0, s, u, acked, t);
    }
  }

  lemma CalmStep(db0: Store, s: State, l: Label, t: TxId)
    requires Inv(db0, s) && KeysAgree(s.db) && Enabled(s, l) && CalmLabel(s, l, t)
    requires t in s.txs ==> StillFree(s.db, s.txs[t])
    ensures t in Next(s, l).txs ==> StillFree(Next(s, l).db, Next(s, l).txs[t])
  {
    if t in Next(s, l).txs {
      if l.Statement? && l.t == t {
        OwnStatementKeepsFree(s, t, l.rows);
      } else {
        OthersStand(s, l, t);
        if l.CommitTx? {
          CalmCommit(db0, s, l.t, l.acked, t);
        } else {
          OtherStepKeepsFree(s, l, t);
        }
      }
    }
  }

  lemma {:induction false} StaysFree(db0: Store, labels: seq<Label>, n: nat, t: TxId)
    requires Runs(db0, labels) && n <= |labels| && Undisturbed(db0, labels, n, t)
    requires Runs(db0, labels[..n])
    requires var s := After(db0, labels[..n]); t in s.txs ==> StillFree(s.db, s.txs[t])
    ensures var s := After(db0, labels); t in s.txs ==> StillFree(s.db, s.txs[t])
    decreases |labels|
  {
    if n == |labels| {
      assert labels[..n] == labels;
    } else {
      var front := labels[..|labels| - 1];
      assert front[..n] == labels[..n];
      StaysFree(db0, front, n, t);
      RunInv(db0, front);
      HistoryAgrees(db0, After(db0, front).history);
      CalmStep(db0, After(db0, front), labels[|labels| - 1], t);
    }
  }

  // --------------------------------------------- refusals, statement by statement

  lemma RefusedPrice(db: Store, tx: Tx, rows: seq<ItemRow>, at: nat)
    requires TxInv(db, tx) && StillFree(db, tx) && tx.pc.Price? && Execute(db, tx, rows, at).Refused?
    ensures Perform(db, tx.call, rows) == Err(Execute(db, tx, rows, at).error)
  {
  }

  lemma RefusedLine(db: Store, tx: Tx, i: nat, rows: seq<ItemRow>)
    requires WellPlaced(tx) && AtLine(tx, i) && StillFree(db, tx) && Priced(db, tx)
    requires tx.call.req.Place? ==> tx.call.req.key !in db.orderKeys
    requires LinesDone(db, tx.call, i) == Ok(tx.w)
    requires ReserveOn(db, tx.w, LinesOf(tx.call.req)[i], StockKeysOf(tx.call)[i]).Err?
    ensures Perform(db, tx.call, rows) == Err(ReserveOn(db, tx.w, LinesOf(tx.call.req)[i], StockKeysOf(tx.call)[i]).error)
  {
    RefusalStops(db, LinesOf(tx.call.req), StockKeysOf(tx.call), i, |LinesOf(tx.call.req)|);
    if tx.call.req.Reserve? {
      assert LinesDone(db, tx.call, 0) == Ok(NO_WRITES);
    }
  }

  lemma RefusedReserve(db: Store, tx: Tx, rows: seq<ItemRow>, at: nat)
    requires TxInv(db, tx) && StillFree(db, tx) && (tx.pc.Find? || tx.pc.Reload? || tx.pc.Take?)
    requires Execute(db, tx, rows, at).Refused?
    ensures Perform(db, tx.call, rows) == Err(Execute(db, tx, rows, at).error)
  {
    var i := tx.pc.i;
    if tx.pc.Take? && tx.call.req.Reserve? {
      assert StockKeysOf(tx.call)[i] == tx.call.req.key;
    }
    assert ReserveOn(db, tx.w, LinesOf(tx.call.req)[i], StockKeysOf(tx.call)[i]) == Err(Execute(db, tx, rows, at).error);
    RefusedLine(db, tx, i, rows);
  }

  // Recording a reservation and inserting the header cannot collide.
  lemma NothingCollides(db: Store, tx: Tx, rows: seq<ItemRow>, at: nat)
    requires TxInv(db, tx) && StillFree(db, tx) && (tx.pc.Record? || tx.pc.InsertHeader?)
    ensures !Execute(db, tx, rows, at).Refused?
  {
    if tx.pc.Record? {
      if tx.call.req.Reserve? {
        assert StockKeysOf(tx.call)[tx.pc.i] == tx.call.req.key;
      }
    } else {
      ReserveLinesWrites(db, tx.call.req.lines, StockKeysOf(tx.call), |tx.call.req.lines|);
    }
  }

  lemma RefusedInsert(db: Store, tx: Tx, rows: seq<ItemRow>, at: nat)
    requires TxInv(db, tx) && StillFree(db, tx) && (tx.pc.InsertLine? || tx.pc.InsertEvent?)
    requires Execute(db, tx, rows, at).Refused?
    ensures Perform(db, tx.call, rows) == Err(Execute(db, tx, rows, at).error)
  {
    var c, lines := tx.call, tx.call.req.lines;
    var w := LinesDone(db, c, |lines|).value;
    ReserveLinesWrites(db, lines, StockKeysOf(c), |lines|);
    if tx.pc.InsertLine? {
      ItemTableKeys(c, tx.prices, tx.pc.i);
      if c.ids.itemIds[tx.pc.i] in tx.w.items {
        var k :| 0 <= k < tx.pc.i && c.ids.itemIds[k] == c.ids.itemIds[tx.pc.i];
      }
      assert !ItemIdsFree(db, c.ids.itemIds);
    } else {
      assert c.ids.eventId in db.outbox;
    }
    assert InsertOrder(db, w, c) == Err(Internal);
  }

  lemma RefusedAtomically(db: Store, tx: Tx, rows: seq<ItemRow>, at: nat)
    requires TxInv(db, tx) && StillFree(db, tx) && !tx.pc.Finish?
    requires Execute(db, tx, rows, at).Refused?
    ensures Perform(db, tx.call, rows) == Err(Execute(db, tx, rows, at).error)
  {
    match tx.pc {
      case Lookup =>
      case List(_) =>
      case Price(_) => RefusedPrice(db, tx, rows, at);
      case Find(_) => RefusedReserve(db, tx, rows, at);
      case Reload(_) => RefusedReserve(db, tx, rows, at);
      case Take(_) => RefusedReserve(db, tx, rows, at);
      case Record(_) => NothingCollides(db, tx, rows, at);
      case InsertHeader => NothingCollides(db, tx, rows, at);
      case InsertLine(_) => RefusedInsert(db, tx, rows, at);
      case InsertEvent => RefusedInsert(db, tx, rows, at);
    }
  }

  // A call that still finds free what it found free is refused only as an
  // atomic call on the rows committed at that moment would be.
  lemma RefusalsAreAtomic(db0: Store, labels: seq<Label>, t: TxId, rows: seq<ItemRow>)
    requires Runs(db0, labels) && Enabled(After(db0, labels), Statement(t, rows))
    requires var s := After(db0, labels); StillFree(s.db, s.txs[t]) && Execute(s.db, s.txs[t], rows, |s.history|).Refused?
    ensures var s := After(db0, labels);
      ValidCall(s.txs[t].call)
      && Perform(s.db, s.txs[t].call, rows) == Err(Execute(s.db, s.txs[t], rows, |s.history|).error)
  {
    RunInv(db0, labels);
    var s := After(db0, labels);
    RefusedAtomically(s.db, s.txs[t], rows, |s.history|);
  }

  // So is every call that draws fresh ids at its beginning, the i-th step, and
  // sees no call that shares a key with it commit before it is refused; others
  // may overlap as they like.
  lemma UndisturbedRefusalsAreAtomic(db0: Store, labels: seq<Label>, i: nat, t: TxId, rows: seq<ItemRow>)
    requires Runs(db0, labels) && i < |labels| && Undisturbed(db0, labels, i + 1, t)
    requires labels[i].Begin? && labels[i].t == t
    requires Runs(db0, labels[..i]) && FreeToStart(After(db0, labels[..i]).db, labels[i].call)
    requires Enabled(After(db0, labels), Statement(t, rows))
    requires var s := After(db0, labels); Execute(s.db, s.txs[t], rows, |s.history|).Refused?
    ensures var s := After(db0, labels);
      ValidCall(s.txs[t].call)
      && Perform(s.db, s.txs[t].call, rows) == Err(Execute(s.db, s.txs[t], rows, |s.history|).error)
  {
    RunPrefix(db0, labels, i + 1);
    assert labels[..i + 1][..i] == labels[..i];
    StaysFree(db0, labels, i + 1, t);
    RefusalsAreAtomic(db0, labels, t, rows);
  }
}
