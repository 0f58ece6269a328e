// What a live transaction knows: its local state is the one the atomic
// specification would be in at the same point, run on the rows committed now.
module TxProof {
  import opened Tables
  import opened Money
  import opened Spec
  import opened History
  import opened Machine

  ghost function LinesDone(db: Store, c: Call, i: nat): Result<Store>
    requires i <= |LinesOf(c.req)|
  {
    ReserveLines(db, LinesOf(c.req), StockKeysOf(c), i)
  }

  // The price snapshot of an order is complete and still what a new one would be.
  ghost predicate Priced(db: Store, tx: Tx) {
    tx.call.req.Place? ==>
      && AllListed(db, tx.call.req.lines)
      && tx.prices == Prices(db, tx.call.req.lines)
      && tx.total == Total(tx.call.req.lines, tx.prices, |tx.prices|)
  }

  ghost predicate PartlyPriced(db: Store, tx: Tx, i: nat)
    requires i <= |LinesOf(tx.call.req)|
  {
    && |tx.prices| == i
    && (forall k :: 0 <= k < i ==>
          LinesOf(tx.call.req)[k].cabinetId in db.cabinets &&
          tx.prices[k] == PriceOf(db, LinesOf(tx.call.req)[k].cabinetId))
    && tx.total == Total(LinesOf(tx.call.req), tx.prices, i)
  }

  // Line i has been decremented but its reservation is not yet recorded.
  ghost predicate HalfReserved(db: Store, tx: Tx, i: nat)
    requires AtLine(tx, i)
  {
    var line, r := LinesOf(tx.call.req)[i], LinesDone(db, tx.call, i);
    && r.Ok?
    && StockKeysOf(tx.call)[i] !in r.value.reservations
    && var row := Visible(db.cabinets, r.value.cabinets, line.cabinetId);
    && row.Some? && row.value.quantity >= line.quantity
    && tx.w == r.value.(cabinets := r.value.cabinets[
         line.cabinetId := row.value.(quantity := row.value.quantity - line.quantity)])
  }

  ghost predicate Distinct(ids: seq<Id>) {
    forall j, k :: 0 <= j < k < |ids| ==> ids[j] != ids[k]
  }

  ghost predicate HeaderInserted(db: Store, tx: Tx, i: nat)
    requires tx.call.req.Place? && ValidCall(tx.call) && i <= |tx.call.req.lines|
  {
    && Priced(db, tx)
    && Distinct(tx.call.ids.itemIds[..i])
    && LinesDone(db, tx.call, |tx.call.req.lines|).Ok?
    && tx.w == WithItems(LinesDone(db, tx.call, |tx.call.req.lines|).value, tx.call, tx.prices, tx.total, i)
  }

  ghost predicate Finished(db: Store, tx: Tx)
    requires tx.pc.Finish? && ValidCall(tx.call)
  {
    var a := tx.pc.answer;
    && a.call == tx.call && a.rows == []
    && if !a.wrote then tx.call.req.Reserve? && tx.w == NO_WRITES
       else if tx.call.req.Reserve? then
         && LinesDone(db, tx.call, 1) == Ok(tx.w)
         && tx.call.req.key in tx.w.reservations
         && tx.call.req.line.cabinetId in tx.w.cabinets
         && a.reply == Reserved(tx.call.req.line.cabinetId, tx.w.cabinets[tx.call.req.line.cabinetId])
       else
         && Priced(db, tx)
         && Distinct(tx.call.ids.itemIds)
         && LinesDone(db, tx.call, |tx.prices|).Ok?
         && tx.w == WithEvent(LinesDone(db, tx.call, |tx.prices|).value, tx.call, tx.prices, tx.total)
         && a.reply == Placed(OrderRow(tx.call.ids.orderId, Header(tx.call.req, tx.total)),
                              NewRows(tx.call, tx.prices, |tx.prices|))
  }

  ghost predicate PcInv(db: Store, tx: Tx)
    requires WellPlaced(tx)
  {
    match tx.pc
    case Lookup => tx.w == NO_WRITES && tx.prices == [] && tx.total == 0
    case List(found) => tx.w == NO_WRITES && OrderByKey(db, tx.call.req.key) == Some(found)
    case Price(i) => tx.w == NO_WRITES && PartlyPriced(db, tx, i)
    case Find(i) => Priced(db, tx) && LinesDone(db, tx.call, i) == Ok(tx.w)
    case Reload(i) =>
      && Priced(db, tx) && LinesDone(db, tx.call, i) == Ok(tx.w)
      && Visible(db.reservations, tx.w.reservations, StockKeysOf(tx.call)[i])
           == Some(Reservation(LinesOf(tx.call.req)[i].cabinetId, LinesOf(tx.call.req)[i].quantity))
    case Take(i) =>
      && Priced(db, tx) && LinesDone(db, tx.call, i) == Ok(tx.w)
      && StockKeysOf(tx.call)[i] !in tx.w.reservations
    case Record(i) => Priced(db, tx) && HalfReserved(db, tx, i)
    case InsertHeader => Priced(db, tx) && LinesDone(db, tx.call, |tx.call.req.lines|) == Ok(tx.w)
    case InsertLine(i) => HeaderInserted(db, tx, i)
    case InsertEvent => HeaderInserted(db, tx, |tx.call.req.lines|)
    case Finish(_) => Finished(db, tx)
  }

  ghost predicate TxInv(db: Store, tx: Tx) {
    WellPlaced(tx) && ClaimsFree(db, tx.w) && PcInv(db, tx)
  }

  // ------------------------------------------- a statement keeps the invariant

  lemma {:induction false} TotalAppend(lines: seq<Line>, prices: seq<int>, p: int, i: nat)
    requires i <= |lines| && i <= |prices|
    ensures Total(lines, prices + [p], i) == Total(lines, prices, i)
  {
    if i > 0 {
      TotalAppend(lines, prices, p, i - 1);
    }
  }

  lemma PriceStep(db: Store, tx: Tx, rows: seq<ItemRow>, at: nat)
    requires TxInv(db, tx) && tx.pc.Price?
    requires Execute(db, tx, rows, at).Continue?
    ensures TxInv(db, Execute(db, tx, rows, at).tx)
  {
    var i, tx' := tx.pc.i, Execute(db, tx, rows, at).tx;
    var lines := tx.call.req.lines;
    var p := db.cabinets[lines[i].cabinetId].price;
    TotalAppend(lines, tx.prices, p, i);
    assert PartlyPriced(db, tx', i + 1);
    if i + 1 == |lines| {
      assert tx'.prices == Prices(db, lines);
    }
  }

  lemma FindStep(db: Store, tx: Tx, rows: seq<ItemRow>, at: nat)
    requires TxInv(db, tx) && tx.pc.Find?
    requires Execute(db, tx, rows, at).Continue?
    ensures TxInv(db, Execute(db, tx, rows, at).tx)
  {
  }

  // Passing an existing reservation counts as reserving the line.
  lemma ReloadStep(db: Store, tx: Tx, rows: seq<ItemRow>, at: nat)
    requires TxInv(db, tx) && tx.pc.Reload?
    requires Execute(db, tx, rows, at).Continue?
    ensures TxInv(db, Execute(db, tx, rows, at).tx)
  {
    var i, tx' := tx.pc.i, Execute(db, tx, rows, at).tx;
    assert LinesDone(db, tx.call, i + 1) == Ok(tx'.w);
    if tx.call.req.Reserve? {
      assert LinesDone(db, tx.call, 0) == Ok(NO_WRITES);
    }
  }

  lemma TakeStep(db: Store, tx: Tx, rows: seq<ItemRow>, at: nat)
    requires TxInv(db, tx) && tx.pc.Take?
    requires Execute(db, tx, rows, at).Continue?
    ensures TxInv(db, Execute(db, tx, rows, at).tx)
  {
  }

  lemma RecordedLine(db: Store, tx: Tx, i: nat, at: nat)
    requires WellPlaced(tx) && tx.pc == Record(i) && HalfReserved(db, tx, i)
    requires StockKeysOf(tx.call)[i] !in db.reservations
    ensures LinesDone(db, tx.call, i + 1) == Ok(Recorded(tx, i, at).w)
  {
  }

  lemma RecordedReserve(db: Store, tx: Tx, i: nat, at: nat)
    requires TxInv(db, tx) && tx.pc == Record(i) && tx.call.req.Reserve?
    requires LinesDone(db, tx.call, i + 1) == Ok(Recorded(tx, i, at).w)
    ensures WellPlaced(Recorded(tx, i, at)) && PcInv(db, Recorded(tx, i, at))
  {
  }

  lemma RecordedOrderLine(db: Store, tx: Tx, i: nat, at: nat)
    requires TxInv(db, tx) && tx.pc == Record(i) && tx.call.req.Place?
    requires LinesDone(db, tx.call, i + 1) == Ok(Recorded(tx, i, at).w)
    ensures WellPlaced(Recorded(tx, i, at)) && PcInv(db, Recorded(tx, i, at))
  {
  }

  lemma RecordedInv(db: Store, tx: Tx, i: nat, at: nat)
    requires TxInv(db, tx) && tx.pc == Record(i) && StockKeysOf(tx.call)[i] !in db.reservations
    ensures TxInv(db, Recorded(tx, i, at))
  {
    RecordedLine(db, tx, i, at);
    if tx.call.req.Reserve? {
      RecordedReserve(db, tx, i, at);
    } else {
      RecordedOrderLine(db, tx, i, at);
    }
  }

  lemma RecordStep(db: Store, tx: Tx, rows: seq<ItemRow>, at: nat)
    requires TxInv(db, tx) && tx.pc.Record?
    requires Execute(db, tx, rows, at).Continue?
    ensures TxInv(db, Execute(db, tx, rows, at).tx)
  {
    RecordedInv(db, tx, tx.pc.i, at);
  }

  lemma HeaderStep(db: Store, tx: Tx, rows: seq<ItemRow>, at: nat)
    requires TxInv(db, tx) && tx.pc.InsertHeader?
    requires Execute(db, tx, rows, at).Continue?
    ensures TxInv(db, Execute(db, tx, rows, at).tx)
  {
    var lines := tx.call.req.lines;
    ReserveLinesWrites(db, lines, StockKeysOf(tx.call), |lines|);
  }

  lemma LineInsertedRows(db: Store, tx: Tx, i: nat)
    requires TxInv(db, tx) && tx.pc == InsertLine(i)
    requires tx.call.ids.itemIds[i] !in tx.w.items
    ensures HeaderInserted(db, LineInserted(tx, i), i + 1)
  {
    var ids := tx.call.ids.itemIds;
    ItemTableKeys(tx.call, tx.prices, i);
    assert ids[i] !in ids[..i];
    assert ids[..i + 1] == ids[..i] + [ids[i]];
  }

  lemma LineInsertedClaims(db: Store, tx: Tx, i: nat)
    requires WellPlaced(tx) && ClaimsFree(db, tx.w) && tx.pc == InsertLine(i) && tx.call.ids.itemIds[i] !in db.items
    ensures WellPlaced(LineInserted(tx, i)) && ClaimsFree(db, LineInserted(tx, i).w)
  {
  }

  lemma LineInsertedPc(db: Store, tx: Tx, i: nat)
    requires WellPlaced(tx) && tx.pc == InsertLine(i) && WellPlaced(LineInserted(tx, i))
    requires HeaderInserted(db, LineInserted(tx, i), i + 1)
    ensures PcInv(db, LineInserted(tx, i))
  {
  }

  lemma LineInsertedInv(db: Store, tx: Tx, i: nat)
    requires TxInv(db, tx) && tx.pc == InsertLine(i)
    requires tx.call.ids.itemIds[i] !in tx.w.items && tx.call.ids.itemIds[i] !in db.items
    ensures TxInv(db, LineInserted(tx, i))
  {
    LineInsertedRows(db, tx, i);
    LineInsertedClaims(db, tx, i);
    LineInsertedPc(db, tx, i);
  }

  lemma LineStep(db: Store, tx: Tx, rows: seq<ItemRow>, at: nat)
    requires TxInv(db, tx) && tx.pc.InsertLine?
    requires Execute(db, tx, rows, at).Continue?
    ensures TxInv(db, Execute(db, tx, rows, at).tx)
  {
    LineInsertedInv(db, tx, tx.pc.i);
  }

  lemma EventStep(db: Store, tx: Tx, rows: seq<ItemRow>, at: nat)
    requires TxInv(db, tx) && tx.pc.InsertEvent?
    requires Execute(db, tx, rows, at).Continue?
    ensures TxInv(db, Execute(db, tx, rows, at).tx)
  {
    var tx' := Execute(db, tx, rows, at).tx;
    var lines := tx.call.req.lines;
    ReserveLinesWrites(db, lines, StockKeysOf(tx.call), |lines|);
    assert tx.call.ids.itemIds[..|lines|] == tx.call.ids.itemIds;
    assert tx.w.outbox == map[];
  }

  lemma ExecuteKeepsInv(db: Store, tx: Tx, rows: seq<ItemRow>, at: nat)
    requires TxInv(db, tx) && !tx.pc.Finish?
    requires Execute(db, tx, rows, at).Continue?
    ensures TxInv(db, Execute(db, tx, rows, at).tx)
  {
    match tx.pc {
      case Lookup =>
      case List(_) =>
      case Price(_) => PriceStep(db, tx, rows, at);
      case Find(_) => FindStep(db, tx, rows, at);
      case Reload(_) => ReloadStep(db, tx, rows, at);
      case Take(_) => TakeStep(db, tx, rows, at);
      case Record(_) => RecordStep(db, tx, rows, at);
      case InsertHeader => HeaderStep(db, tx, rows, at);
      case InsertLine(_) => LineStep(db, tx, rows, at);
      case InsertEvent => EventStep(db, tx, rows, at);
    }
  }

  lemma ExecuteKeepsCall(db: Store, tx: Tx, rows: seq<ItemRow>, at: nat)
    requires WellPlaced(tx) && !tx.pc.Finish?
    ensures Execute(db, tx, rows, at).Continue? ==> Execute(db, tx, rows, at).tx.call == tx.call
  {
  }

  lemma InsertKeepsDisjoint(db: Store, tx: Tx, rows: seq<ItemRow>, at: nat, other: Store)
    requires WellPlaced(tx) && (tx.pc.InsertHeader? || tx.pc.InsertLine? || tx.pc.InsertEvent?)
    requires Execute(db, tx, rows, at).Continue?
    requires Disjoint(tx.w, other) && !Conflicts(tx, other)
    ensures Disjoint(Execute(db, tx, rows, at).tx.w, other)
  {
  }

  // A statement that did not have to wait claims nothing another transaction holds.
  lemma ExecuteKeepsDisjoint(db: Store, tx: Tx, rows: seq<ItemRow>, at: nat, other: Store)
    requires WellPlaced(tx) && !tx.pc.Finish?
    requires Execute(db, tx, rows, at).Continue?
    requires Disjoint(tx.w, other) && !Conflicts(tx, other)
    ensures Disjoint(Execute(db, tx, rows, at).tx.w, other)
  {
    if tx.pc.InsertHeader? || tx.pc.InsertLine? || tx.pc.InsertEvent? {
      InsertKeepsDisjoint(db, tx, rows, at, other);
    }
  }

  // ------------------------------------- other commits keep the invariant

  lemma LinesDoneStable(db: Store, db': Store, tx: Tx, i: nat)
    requires i <= |LinesOf(tx.call.req)| && LinesDone(db, tx.call, i).Ok?
    requires StockUntouched(db, db', tx.w)
    requires LinesDone(db, tx.call, i).value.cabinets.Keys <= tx.w.cabinets.Keys
    requires LinesDone(db, tx.call, i).value.reservations.Keys <= tx.w.reservations.Keys
    ensures LinesDone(db', tx.call, i) == LinesDone(db, tx.call, i)
  {
    ReserveLinesStable(db, db', LinesOf(tx.call.req), StockKeysOf(tx.call), i);
  }

  lemma PricedStable(db: Store, db': Store, tx: Tx)
    requires Grows(db, db') && Priced(db, tx)
    ensures Priced(db', tx)
  {
  }

  lemma ReserveStable(db: Store, db': Store, tx: Tx)
    requires TxInv(db, tx) && StockUntouched(db, db', tx.w)
    requires tx.pc.Find? || tx.pc.Reload? || tx.pc.Take?
    ensures PcInv(db', tx)
  {
    PricedStable(db, db', tx);
    LinesDoneStable(db, db', tx, tx.pc.i);
  }

  lemma RecordStable(db: Store, db': Store, tx: Tx)
    requires TxInv(db, tx) && StockUntouched(db, db', tx.w) && tx.pc.Record?
    ensures PcInv(db', tx)
  {
    PricedStable(db, db', tx);
    LinesDoneStable(db, db', tx, tx.pc.i);
  }

  lemma InsertStable(db: Store, db': Store, tx: Tx)
    requires TxInv(db, tx) && StockUntouched(db, db', tx.w)
    requires tx.pc.InsertHeader? || tx.pc.InsertLine? || tx.pc.InsertEvent?
    ensures PcInv(db', tx)
  {
    PricedStable(db, db', tx);
    LinesDoneStable(db, db', tx, |tx.call.req.lines|);
  }

  lemma FinishStable(db: Store, db': Store, tx: Tx)
    requires TxInv(db, tx) && StockUntouched(db, db', tx.w) && tx.pc.Finish?
    ensures PcInv(db', tx)
  {
    if tx.pc.answer.wrote {
      if tx.call.req.Place? {
        PricedStable(db, db', tx);
      }
      LinesDoneStable(db, db', tx, |LinesOf(tx.call.req)|);
    }
  }

  lemma TxStable(db: Store, db': Store, tx: Tx)
    requires TxInv(db, tx) && StockUntouched(db, db', tx.w) && ClaimsFree(db', tx.w)
    ensures TxInv(db', tx)
  {
    match tx.pc {
      case Lookup =>
      case List(_) =>
      case Price(_) =>
      case Find(_) => ReserveStable(db, db', tx);
      case Reload(_) => ReserveStable(db, db', tx);
      case Take(_) => ReserveStable(db, db', tx);
      case Record(_) => RecordStable(db, db', tx);
      case InsertHeader => InsertStable(db, db', tx);
      case InsertLine(_) => InsertStable(db, db', tx);
      case InsertEvent => InsertStable(db, db', tx);
      case Finish(_) => FinishStable(db, db', tx);
    }
  }

  // What another transaction's commit looks like from here.
  lemma CommitUntouched(db: Store, w: Store, other: Store)
    requires ClaimsFree(db, w) && ClaimsFree(db, other) && Disjoint(w, other)
    ensures StockUntouched(db, Overlay(db, w), other)
    ensures ClaimsFree(Overlay(db, w), other)
  {
    OverlayGrows(db, w);
  }

  lemma MarkUntouched(db: Store, id: Id, other: Store)
    requires id in db.outbox && ClaimsFree(db, other)
    ensures StockUntouched(db, Marked(db, id), other)
    ensures ClaimsFree(Marked(db, id), other)
  {
  }

  // ------------------------------------------------------ commit and replies

  lemma {:induction false} ItemIdsFreeFromTable(db: Store, c: Call, prices: seq<int>)
    requires ValidCall(c) && c.req.Place? && |c.req.lines| == |prices|
    requires ItemTable(c, prices, |prices|).Keys !! db.items.Keys
    ensures forall k :: 0 <= k < |prices| ==> c.ids.itemIds[k] !in db.items
  {
    ItemTableKeys(c, prices, |prices|);
    assert c.ids.itemIds[..|prices|] == c.ids.itemIds;
  }

  lemma ReservePerforms(db: Store, tx: Tx)
    requires TxInv(db, tx) && tx.pc.Finish? && tx.pc.answer.wrote && tx.call.req.Reserve?
    ensures Perform(db, tx.call, []) == Ok(Done(tx.w, tx.pc.answer.reply))
  {
    assert LinesDone(db, tx.call, 0) == Ok(NO_WRITES);
    assert LinesDone(db, tx.call, 1) == Ok(tx.w);
    ReserveOnWrites(db, NO_WRITES, tx.call.req.line, tx.call.req.key);
  }

  lemma PlacePerforms(db: Store, tx: Tx)
    requires TxInv(db, tx) && tx.pc.Finish? && tx.pc.answer.wrote && tx.call.req.Place?
    ensures Perform(db, tx.call, []) == Ok(Done(tx.w, tx.pc.answer.reply))
  {
    ItemIdsFreeFromTable(db, tx.call, tx.prices);
    assert tx.call.req.key in tx.w.orderKeys && tx.call.ids.orderId in tx.w.orders;
    assert tx.call.ids.eventId in tx.w.outbox;
    assert OrderByKey(db, tx.call.req.key).None?;
    var w := LinesDone(db, tx.call, |tx.prices|).value;
    assert InsertOrder(db, w, tx.call) == Ok(Done(tx.w, tx.pc.answer.reply));
  }

  // A transaction about to commit does what the atomic call would do now.
  lemma FinishPerforms(db: Store, tx: Tx)
    requires TxInv(db, tx) && tx.pc.Finish? && tx.pc.answer.wrote
    ensures Perform(db, tx.call, []) == Ok(Done(tx.w, tx.pc.answer.reply))
    ensures tx.w != NO_WRITES
  {
    if tx.call.req.Reserve? {
      ReservePerforms(db, tx);
    } else {
      PlacePerforms(db, tx);
    }
  }
}
