// The checks and foreign keys of the two migrations. No statement of a run can
// violate one: they hold of the committed rows, and of what every live
// transaction sees after each of its statements.
module Constraints {
  import opened Tables
  import opened Spec
  import opened History
  import opened Machine
  import opened TxProof
  import opened Refinement
  import opened Ledger

  ghost predicate StockChecks(v: Store) {
    && (forall c :: c in v.cabinets ==> 0 <= v.cabinets[c].quantity)
    && (forall k :: k in v.reservations ==> v.reservations[k].cabinetId in v.cabinets)
  }

  ghost predicate LineChecks(v: Store, item: Item) {
    item.orderId in v.orders && item.cabinetId in v.cabinets && 0 < item.quantity
  }

  ghost predicate Satisfied(v: Store) {
    StockChecks(v) && forall i :: i in v.items ==> LineChecks(v, v.items[i])
  }

  lemma CommittedSatisfied(db0: Store, h: seq<Op>)
    requires Initial(db0) && Legal(db0, h)
    ensures Satisfied(StateAfter(db0, h)) && Conserved(db0, StateAfter(db0, h))
  {
    HistoryAgrees(db0, h);
    forall i | i in StateAfter(db0, h).items ensures LineChecks(StateAfter(db0, h), StateAfter(db0, h).items[i]) {
      assert LineAgrees(StateAfter(db0, h), StateAfter(db0, h).items[i]);
    }
  }

  // The reserving loop, between two lines and between the two writes of one.
  lemma ReservedSatisfied(db0: Store, db: Store, tx: Tx, i: nat)
    requires Conserved(db0, db) && ValidCall(tx.call) && i <= |LinesOf(tx.call.req)|
    requires LinesDone(db, tx.call, i).Ok?
    ensures StockChecks(Overlay(db, LinesDone(db, tx.call, i).value)) && StockOnly(db, LinesDone(db, tx.call, i).value)
  {
    ReserveLinesConserves(db0, db, LinesOf(tx.call.req), StockKeysOf(tx.call), i);
    ReserveLinesWrites(db, LinesOf(tx.call.req), StockKeysOf(tx.call), i);
  }

  lemma HalfReservedSatisfied(db0: Store, db: Store, tx: Tx)
    requires Conserved(db0, db) && TxInv(db, tx) && tx.pc.Record?
    ensures StockChecks(Overlay(db, tx.w)) && tx.w.items == map[]
  {
    ReservedSatisfied(db0, db, tx, tx.pc.i);
    var w0 := LinesDone(db, tx.call, tx.pc.i).value;
    assert Overlay(db, tx.w).reservations == Overlay(db, w0).reservations;
    forall c | c in Overlay(db, tx.w).cabinets ensures 0 <= Overlay(db, tx.w).cabinets[c].quantity {
      if c != LinesOf(tx.call.req)[tx.pc.i].cabinetId {
        assert Overlay(db, tx.w).cabinets[c] == Overlay(db, w0).cabinets[c];
      }
    }
  }

  lemma {:induction false} TableLines(c: Call, prices: seq<int>, i: nat)
    requires ValidCall(c) && c.req.Place? && i <= |c.req.lines| == |prices|
    ensures forall id :: id in ItemTable(c, prices, i) ==>
      var item := ItemTable(c, prices, i)[id];
      && item.orderId == c.ids.orderId && 0 < item.quantity
      && exists k :: 0 <= k < i && item.cabinetId == c.req.lines[k].cabinetId
  {
    if i > 0 {
      TableLines(c, prices, i - 1);
      assert c.req.lines[i - 1] in c.req.lines;
      var item := NewItem(c, prices, i - 1);
      assert item.cabinetId == c.req.lines[i - 1].cabinetId;
    }
  }

  ghost predicate OwnLines(db: Store, w: Store) {
    forall id :: id in w.items ==>
      w.items[id].orderId in w.orders && w.items[id].cabinetId in db.cabinets && 0 < w.items[id].quantity
  }

  lemma OwnLinesSatisfied(db: Store, w: Store)
    requires Satisfied(db) && StockChecks(Overlay(db, w)) && OwnLines(db, w)
    ensures Satisfied(Overlay(db, w))
  {
  }

  lemma InsertedLines(db: Store, tx: Tx, i: nat)
    requires ValidCall(tx.call) && tx.call.req.Place? && i <= |tx.call.req.lines| && Priced(db, tx)
    requires tx.w.items == ItemTable(tx.call, tx.prices, i) && tx.call.ids.orderId in tx.w.orders
    ensures OwnLines(db, tx.w)
  {
    TableLines(tx.call, tx.prices, i);
  }

  lemma ReservingSatisfied(db0: Store, db: Store, tx: Tx)
    requires Conserved(db0, db) && TxInv(db, tx)
    requires tx.pc.Find? || tx.pc.Reload? || tx.pc.Take? || tx.pc.Record? || tx.pc.InsertHeader?
    ensures StockChecks(Overlay(db, tx.w)) && OwnLines(db, tx.w)
  {
    if tx.pc.Record? {
      HalfReservedSatisfied(db0, db, tx);
    } else {
      ReservedSatisfied(db0, db, tx, if tx.pc.InsertHeader? then |tx.call.req.lines| else tx.pc.i);
    }
  }

  // Inserting the order leaves the stock rows of the reserving loop in place.
  lemma InsertingSatisfied(db0: Store, db: Store, tx: Tx)
    requires Conserved(db0, db) && TxInv(db, tx)
    requires tx.pc.InsertLine? || tx.pc.InsertEvent? || (tx.pc.Finish? && tx.pc.answer.wrote && tx.call.req.Place?)
    ensures StockChecks(Overlay(db, tx.w)) && OwnLines(db, tx.w)
  {
    var n := |tx.call.req.lines|;
    ReservedSatisfied(db0, db, tx, n);
    var w0 := LinesDone(db, tx.call, n).value;
    assert tx.w.cabinets == w0.cabinets && tx.w.reservations == w0.reservations;
    assert Overlay(db, tx.w).cabinets == Overlay(db, w0).cabinets;
    assert Overlay(db, tx.w).reservations == Overlay(db, w0).reservations;
    InsertedLines(db, tx, if tx.pc.InsertLine? then tx.pc.i else n);
  }

  lemma FinishedReserveSatisfied(db0: Store, db: Store, tx: Tx)
    requires Conserved(db0, db) && TxInv(db, tx) && tx.pc.Finish? && tx.pc.answer.wrote && tx.call.req.Reserve?
    ensures StockChecks(Overlay(db, tx.w)) && OwnLines(db, tx.w)
  {
    ReservedSatisfied(db0, db, tx, 1);
  }

  lemma LiveSatisfied(db0: Store, db: Store, tx: Tx)
    requires Conserved(db0, db) && Satisfied(db) && TxInv(db, tx)
    ensures Satisfied(Overlay(db, tx.w))
  {
    OverlayNothing(db);
    match tx.pc {
      case Lookup =>
      case List(_) =>
      case Price(_) =>
      case InsertLine(_) => InsertingSatisfied(db0, db, tx);
      case InsertEvent => InsertingSatisfied(db0, db, tx);
      case Finish(a) =>
        if a.wrote && tx.call.req.Place? {
          InsertingSatisfied(db0, db, tx);
        } else if a.wrote {
          FinishedReserveSatisfied(db0, db, tx);
        }
      case _ => ReservingSatisfied(db0, db, tx);
    }
    OwnLinesSatisfied(db, tx.w);
  }

  // Whatever has committed, and whatever a live transaction has written so far.
  lemma ConstraintsHold(db0: Store, labels: seq<Label>)
    requires Runs(db0, labels)
    ensures Satisfied(After(db0, labels).db)
    ensures forall t :: t in After(db0, labels).txs ==>
      Satisfied(Overlay(After(db0, labels).db, After(db0, labels).txs[t].w))
  {
    RunInv(db0, labels);
    var s := After(db0, labels);
    CommittedSatisfied(db0, s.history);
    forall t | t in s.txs ensures Satisfied(Overlay(s.db, s.txs[t].w)) {
      LiveSatisfied(db0, s.db, s.txs[t]);
    }
  }
}
