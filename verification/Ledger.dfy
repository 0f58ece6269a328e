// What holds of the committed rows after any history: stock is conserved, and
// orders, lines, reservations and outbox events agree.
module Ledger {
  import opened Tables
  import opened MapSums
  import opened Money
  import opened Replay
  import opened StockKeys
  import opened Spec
  import opened History

  // ------------------------------------------------------ stock conservation

  // Units of cabinet c held by reservations.
  ghost function Held(reservations: map<string, Reservation>, c: Id): int {
    Sum(map k | k in reservations && reservations[k].cabinetId == c :: reservations[k].quantity)
  }

  lemma HeldInsert(reservations: map<string, Reservation>, k: string, r: Reservation, c: Id)
    requires k !in reservations
    ensures Held(reservations[k := r], c) == Held(reservations, c) + if r.cabinetId == c then r.quantity else 0
  {
    var m := map j | j in reservations && reservations[j].cabinetId == c :: reservations[j].quantity;
    var more := reservations[k := r];
    var m' := map j | j in more && more[j].cabinetId == c :: more[j].quantity;
    if r.cabinetId == c {
      SumInsert(m, k, r.quantity);
      assert m' == m[k := r.quantity];
    } else {
      assert m' == m;
    }
  }

  // Stock left plus stock held is the seeded stock, cabinet by cabinet.
  ghost predicate Balanced(seeded: map<Id, Cabinet>, cabinets: map<Id, Cabinet>, reservations: map<string, Reservation>) {
    && cabinets.Keys == seeded.Keys
    && (forall k :: k in reservations ==>
          reservations[k].cabinetId in cabinets && 0 < reservations[k].quantity <= MAX_INT32)
    && (forall c :: c in cabinets ==>
          0 <= cabinets[c].quantity && cabinets[c].quantity + Held(reservations, c) == seeded[c].quantity)
  }

  ghost predicate Conserved(db0: Store, db: Store) {
    Balanced(db0.cabinets, db.cabinets, db.reservations)
  }

  lemma TakeKeepsBalance(seeded: map<Id, Cabinet>, cabinets: map<Id, Cabinet>, reservations: map<string, Reservation>,
                         c: Id, left: Cabinet, key: string, r: Reservation)
    requires Balanced(seeded, cabinets, reservations)
    requires c in cabinets && key !in reservations && r.cabinetId == c && 0 < r.quantity <= MAX_INT32
    requires 0 <= left.quantity == cabinets[c].quantity - r.quantity
    ensures Balanced(seeded, cabinets[c := left], reservations[key := r])
  {
    forall d | d in cabinets
      ensures 0 <= cabinets[c := left][d].quantity
      ensures cabinets[c := left][d].quantity + Held(reservations[key := r], d) == seeded[d].quantity
    {
      HeldInsert(reservations, key, r, d);
    }
  }

  // What reserving one line does to the visible rows: nothing, or one decrement
  // together with one reservation of the same size.
  lemma ReserveOnVisible(db: Store, w: Store, line: Line, key: string)
    requires StockOnly(db, w) && ReserveOn(db, w, line, key).Ok?
    ensures var w' := ReserveOn(db, w, line, key).value.writes;
      var v, v' := Overlay(db, w), Overlay(db, w');
      || w' == w
      || (&& line.cabinetId in v.cabinets && key !in v.reservations
          && v.cabinets[line.cabinetId].quantity >= line.quantity
          && var left := v.cabinets[line.cabinetId].(quantity := v.cabinets[line.cabinetId].quantity - line.quantity);
          && v'.cabinets == v.cabinets[line.cabinetId := left]
          && v'.reservations == v.reservations[key := Reservation(line.cabinetId, line.quantity)])
  {
    if Visible(db.reservations, w.reservations, key).None? {
      var row := Visible(db.cabinets, w.cabinets, line.cabinetId).value;
      OverlayAdd(db, w, row.(quantity := row.quantity - line.quantity), line, key);
    }
  }

  lemma OverlayAdd(db: Store, w: Store, left: Cabinet, line: Line, key: string)
    ensures var v, v' := Overlay(db, w), Overlay(db, AddReservation(w, left, line, key));
      && v'.cabinets == v.cabinets[line.cabinetId := left]
      && v'.reservations == v.reservations[key := Reservation(line.cabinetId, line.quantity)]
  {
  }

  lemma ReserveOnConserves(db0: Store, db: Store, w: Store, line: Line, key: string)
    requires StockOnly(db, w) && ReserveOn(db, w, line, key).Ok? && 0 < line.quantity <= MAX_INT32
    requires Conserved(db0, Overlay(db, w))
    ensures Conserved(db0, Overlay(db, ReserveOn(db, w, line, key).value.writes))
  {
    var w' := ReserveOn(db, w, line, key).value.writes;
    ReserveOnVisible(db, w, line, key);
    if w' != w {
      var v, v' := Overlay(db, w), Overlay(db, w');
      TakeKeepsBalance(db0.cabinets, v.cabinets, v.reservations, line.cabinetId,
                       v'.cabinets[line.cabinetId], key, Reservation(line.cabinetId, line.quantity));
    }
  }

  lemma {:induction false} ReserveLinesConserves(db0: Store, db: Store, lines: seq<Line>, keys: seq<string>, i: nat)
    requires i <= |lines| == |keys| && ReserveLines(db, lines, keys, i).Ok?
    requires forall l :: l in lines ==> 0 < l.quantity <= MAX_INT32
    requires Conserved(db0, db)
    ensures Conserved(db0, Overlay(db, ReserveLines(db, lines, keys, i).value))
  {
    if i == 0 {
      OverlayNothing(db);
    } else {
      ReserveLinesConserves(db0, db, lines, keys, i - 1);
      ReserveLinesWrites(db, lines, keys, i - 1);
      var w, line, key := ReserveLines(db, lines, keys, i - 1).value, lines[i - 1], keys[i - 1];
      assert line in lines;
      ReserveOnConserves(db0, db, w, line, key);
      assert ReserveLines(db, lines, keys, i).value == ReserveOn(db, w, line, key).value.writes;
    }
  }

  // A committed call changes stock and reservations as the reserving loop does.
  lemma CommitStock(db: Store, c: Call)
    requires Effective(db, Commit(c))
    ensures ReserveLines(db, LinesOf(c.req), StockKeysOf(c), |LinesOf(c.req)|).Ok?
    ensures var v := Overlay(db, ReserveLines(db, LinesOf(c.req), StockKeysOf(c), |LinesOf(c.req)|).value);
      var db' := ApplyOp(db, Commit(c));
      db'.cabinets == v.cabinets && db'.reservations == v.reservations
  {
    PerformWrites(db, c);
  }

  lemma ApplyConserves(db0: Store, db: Store, op: Op)
    requires Conserved(db0, db) && Effective(db, op)
    ensures Conserved(db0, ApplyOp(db, op))
  {
    if op.Commit? {
      CommitStock(db, op.call);
      ReserveLinesConserves(db0, db, LinesOf(op.call.req), StockKeysOf(op.call), |LinesOf(op.call.req)|);
    }
  }

  lemma {:induction false} SumNonNegative<K>(m: map<K, int>)
    requires forall k :: k in m ==> 0 <= m[k]
    ensures 0 <= Sum(m)
    decreases |m|
  {
    if m != map[] {
      var k :| k in m;
      SumRemove(m, k);
      SumNonNegative(m - {k});
    }
  }

  lemma NeverOversold(db0: Store, db: Store, c: Id)
    requires Conserved(db0, db) && c in db.cabinets
    ensures 0 <= db.cabinets[c].quantity <= db0.cabinets[c].quantity
    ensures 0 <= Held(db.reservations, c) <= db0.cabinets[c].quantity
  {
    SumNonNegative(map k | k in db.reservations && db.reservations[k].cabinetId == c :: db.reservations[k].quantity);
  }

  // ----------------------------------------------------- aggregate agreement

  // Value of an order's lines at their unit prices.
  ghost function LineValue(items: map<Id, Item>, orderId: Id): int {
    Sum(map i | i in items && items[i].orderId == orderId :: items[i].unitPriceCents * items[i].quantity)
  }

  // The unique index and the orders table are inverse to each other.
  ghost predicate KeysAgree(db: Store) {
    && (forall k :: k in db.orderKeys ==> db.orderKeys[k] in db.orders && db.orders[db.orderKeys[k]].key == k)
    && (forall o :: o in db.orders ==> db.orders[o].key in db.orderKeys && db.orderKeys[db.orders[o].key] == o)
  }

  // Foreign keys and checks of order_items hold, lines carry the cabinet's
  // price, and each is backed by the reservation under its order's stock key.
  ghost predicate LinesAgree(db: Store) {
    forall i :: i in db.items ==> LineAgrees(db, db.items[i])
  }

  ghost predicate Backed(db: Store, item: Item) {
    var key := StockKey(item.orderId, item.cabinetId);
    key in db.reservations && db.reservations[key] == Reservation(item.cabinetId, item.quantity)
  }

  // Every order.created row tells of one order, and no two of the same one.
  ghost predicate EventsAgree(db: Store) {
    && (forall e :: e in db.outbox ==> EventTells(db, e, db.outbox[e]))
    && (forall e, e' :: e in db.outbox && e' in db.outbox && e != e' ==>
          db.outbox[e].aggregateId != db.outbox[e'].aggregateId)
  }

  ghost predicate HasEvent(db: Store, o: Id) {
    exists e :: e in db.outbox && db.outbox[e].aggregateId == o
  }

  // Every order has its event, and its header total is the int64 of the sum of
  // its lines.
  ghost predicate OrdersAgree(db: Store) {
    forall o :: o in db.orders ==> OrderAgrees(db, o)
  }

  ghost predicate Aggregates(db: Store) {
    KeysAgree(db) && LinesAgree(db) && EventsAgree(db) && OrdersAgree(db)
  }

  lemma OrderRows(db: Store, w: Store, c: Call, prices: seq<int>, total: int)
    requires StockOnly(db, w) && c.req.Place? && |c.req.lines| == |prices| == |c.ids.itemIds|
    ensures var db' := Overlay(db, WithEvent(w, c, prices, total));
      && db'.orders == db.orders[c.ids.orderId := Header(c.req, total)]
      && db'.orderKeys == db.orderKeys[c.req.key := c.ids.orderId]
      && db'.outbox == db.outbox[c.ids.eventId := CreatedEvent(c, total)]
      && db'.items == db.items + ItemTable(c, prices, |prices|)
  {
  }

  lemma InsertedOrder(db: Store, w: Store, c: Call)
    requires c.req.Place? && |c.ids.itemIds| == |c.req.lines| && InsertOrder(db, w, c).Ok?
    ensures var prices := Prices(db, c.req.lines);
      && InsertOrder(db, w, c).value.writes == WithEvent(w, c, prices, Total(c.req.lines, prices, |prices|))
      && c.ids.orderId !in db.orders && c.req.key !in db.orderKeys && c.ids.eventId !in db.outbox
      && ItemIdsFree(db, c.ids.itemIds)
      && db.items.Keys !! ItemTable(c, prices, |prices|).Keys
  {
    ItemTableKeys(c, Prices(db, c.req.lines), |c.req.lines|);
  }

  // The rows that db' has and db has not, order by order table.
  ghost predicate AddsOrder(db: Store, db': Store, c: Call)
    requires c.req.Place? && |c.ids.itemIds| == |c.req.lines|
  {
    var prices := Prices(db, c.req.lines);
    var total, table := Total(c.req.lines, prices, |prices|), ItemTable(c, prices, |prices|);
    && AllListed(db, c.req.lines)
    && c.ids.orderId !in db.orders && db'.orders == db.orders[c.ids.orderId := Header(c.req, total)]
    && c.req.key !in db.orderKeys && db'.orderKeys == db.orderKeys[c.req.key := c.ids.orderId]
    && c.ids.eventId !in db.outbox && db'.outbox == db.outbox[c.ids.eventId := CreatedEvent(c, total)]
    && db.items.Keys !! table.Keys && db'.items == db.items + table
    && ItemIdsFree(db, c.ids.itemIds)
  }

  // What a fresh order adds, spelled out.
  lemma FreshOrderRows(db: Store, c: Call)
    requires Effective(db, Commit(c)) && c.req.Place?
    ensures AddsOrder(db, ApplyOp(db, Commit(c)), c)
  {
    PerformWrites(db, c);
    var w := ReserveLines(db, c.req.lines, StockKeysOf(c), |c.req.lines|).value;
    var prices := Prices(db, c.req.lines);
    InsertedOrder(db, w, c);
    OrderRows(db, w, c, prices, Total(c.req.lines, prices, |prices|));
  }

  lemma {:induction false} ItemTableAt(c: Call, prices: seq<int>, i: nat, k: nat)
    requires k < i <= |LinesOf(c.req)| == |prices| && |c.ids.itemIds| == |prices|
    requires forall j, k :: 0 <= j < k < |prices| ==> c.ids.itemIds[j] != c.ids.itemIds[k]
    ensures c.ids.itemIds[k] in ItemTable(c, prices, i) && ItemTable(c, prices, i)[c.ids.itemIds[k]] == NewItem(c, prices, k)
  {
    if k < i - 1 {
      ItemTableAt(c, prices, i - 1, k);
    }
  }

  // Every row of the new order's lines is one of the request's lines.
  lemma ItemTableRow(c: Call, prices: seq<int>, id: Id) returns (k: nat)
    requires |LinesOf(c.req)| == |prices| == |c.ids.itemIds|
    requires forall j, k :: 0 <= j < k < |prices| ==> c.ids.itemIds[j] != c.ids.itemIds[k]
    requires id in ItemTable(c, prices, |prices|)
    ensures k < |prices| && c.ids.itemIds[k] == id && ItemTable(c, prices, |prices|)[id] == NewItem(c, prices, k)
  {
    ItemTableKeys(c, prices, |prices|);
    assert id in c.ids.itemIds[..|prices|];
    k :| 0 <= k < |prices| && c.ids.itemIds[k] == id;
    ItemTableAt(c, prices, |prices|, k);
  }

  lemma LineValueInsert(items: map<Id, Item>, id: Id, item: Item)
    requires id !in items
    ensures LineValue(items[id := item], item.orderId)
         == LineValue(items, item.orderId) + item.unitPriceCents * item.quantity
  {
    var more, o, v := items[id := item], item.orderId, item.unitPriceCents * item.quantity;
    var m := map i | i in items && items[i].orderId == o :: items[i].unitPriceCents * items[i].quantity;
    var m' := map i | i in more && more[i].orderId == o :: more[i].unitPriceCents * more[i].quantity;
    SumInsert(m, id, v);
    assert m' == m[id := v];
  }

  lemma {:induction false} ItemTableValue(c: Call, prices: seq<int>, i: nat)
    requires i <= |LinesOf(c.req)| == |prices| && |c.ids.itemIds| == |prices|
    requires forall j, k :: 0 <= j < k < |prices| ==> c.ids.itemIds[j] != c.ids.itemIds[k]
    ensures LineValue(ItemTable(c, prices, i), c.ids.orderId) == Exact(LinesOf(c.req), prices, i)
  {
    if i == 0 {
      LineValueEmpty(c.ids.orderId);
    } else {
      ItemTableValue(c, prices, i - 1);
      ItemTableKeys(c, prices, i - 1);
      assert c.ids.itemIds[i - 1] !in c.ids.itemIds[..i - 1];
      LineValueInsert(ItemTable(c, prices, i - 1), c.ids.itemIds[i - 1], NewItem(c, prices, i - 1));
    }
  }

  lemma LineValueEmpty(o: Id)
    ensures LineValue(map[], o) == 0
  {
  }

  // Lines for one cabinet in a placed order agree: the second one has to match
  // the reservation of the first.
  lemma PlacedLinesConsistent(db: Store, c: Call)
    requires Effective(db, Commit(c)) && c.req.Place?
    ensures Consistent(c.req.lines)
  {
    PerformWrites(db, c);
    var lines, keys := c.req.lines, StockKeysOf(c);
    forall i, j | 0 <= i < |lines| && 0 <= j < |lines| && lines[i].cabinetId == lines[j].cabinetId
      ensures lines[i].quantity == lines[j].quantity
    {
      assert keys[i] == keys[j];
      ReserveLinesRecord(db, lines, keys, |lines|, i);
      ReserveLinesRecord(db, lines, keys, |lines|, j);
    }
  }

  ghost predicate LineAgrees(db: Store, item: Item) {
    && item.orderId in db.orders
    && item.cabinetId in db.cabinets
    && 0 < item.quantity <= MAX_INT32
    && item.unitPriceCents == db.cabinets[item.cabinetId].price
    && Backed(db, item)
  }

  lemma LineAgreesStays(db: Store, db': Store, item: Item)
    requires Grows(db, db') && LineAgrees(db, item)
    ensures LineAgrees(db', item)
  {
  }

  lemma NewLineAgrees(db: Store, c: Call, k: nat)
    requires Effective(db, Commit(c)) && c.req.Place? && k < |c.req.lines|
    ensures LineAgrees(ApplyOp(db, Commit(c)), NewItem(c, Prices(db, c.req.lines), k))
  {
    FreshOrderRows(db, c);
    CommitStock(db, c);
    ApplyGrows(db, Commit(c));
    ReserveLinesRecord(db, c.req.lines, StockKeysOf(c), |c.req.lines|, k);
    var line := c.req.lines[k];
    assert StockKeysOf(c)[k] == StockKey(c.ids.orderId, line.cabinetId);
    assert line in c.req.lines;
  }

  lemma PlaceKeepsLines(db: Store, c: Call)
    requires LinesAgree(db) && Effective(db, Commit(c)) && c.req.Place?
    ensures LinesAgree(ApplyOp(db, Commit(c)))
  {
    var db' := ApplyOp(db, Commit(c));
    FreshOrderRows(db, c);
    ApplyGrows(db, Commit(c));
    forall i | i in db'.items ensures LineAgrees(db', db'.items[i]) {
      if i in db.items {
        LineAgreesStays(db, db', db.items[i]);
      } else {
        var k := ItemTableRow(c, Prices(db, c.req.lines), i);
        NewLineAgrees(db, c, k);
      }
    }
  }

  lemma NewKeyAgrees(db: Store, db': Store, o: Id, row: Order)
    requires KeysAgree(db) && o !in db.orders && row.key !in db.orderKeys
    requires db'.orders == db.orders[o := row] && db'.orderKeys == db.orderKeys[row.key := o]
    ensures KeysAgree(db')
  {
  }

  ghost predicate EventTells(db: Store, e: Id, row: Event) {
    && row.aggregateId in db.orders
    && row.eventType == EVENT_TYPE
    && row.payload == Payload(e, row.aggregateId, db.orders[row.aggregateId].userId,
                              db.orders[row.aggregateId].totalCents)
  }

  lemma NewEventAgrees(db: Store, db': Store, e: Id, row: Event)
    requires EventsAgree(db) && e !in db.outbox && row.aggregateId !in db.orders
    requires db.orders.Keys <= db'.orders.Keys && forall o :: o in db.orders ==> db'.orders[o] == db.orders[o]
    requires db'.outbox == db.outbox[e := row] && EventTells(db', e, row)
    ensures EventsAgree(db')
  {
  }

  lemma PlaceKeepsKeysAndEvents(db: Store, c: Call)
    requires KeysAgree(db) && EventsAgree(db) && Effective(db, Commit(c)) && c.req.Place?
    ensures KeysAgree(ApplyOp(db, Commit(c))) && EventsAgree(ApplyOp(db, Commit(c)))
  {
    var db', prices := ApplyOp(db, Commit(c)), Prices(db, c.req.lines);
    var total := Total(c.req.lines, prices, |prices|);
    FreshOrderRows(db, c);
    NewKeyAgrees(db, db', c.ids.orderId, Header(c.req, total));
    NewEventAgrees(db, db', c.ids.eventId, CreatedEvent(c, total));
  }

  lemma LineValueUnchanged(items: map<Id, Item>, more: map<Id, Item>, o: Id)
    requires items.Keys !! more.Keys
    requires forall i :: i in more ==> more[i].orderId != o
    ensures LineValue(items + more, o) == LineValue(items, o)
  {
    var all := items + more;
    assert (map i | i in all && all[i].orderId == o :: all[i].unitPriceCents * all[i].quantity)
        == (map i | i in items && items[i].orderId == o :: items[i].unitPriceCents * items[i].quantity);
  }

  lemma LineValueNew(items: map<Id, Item>, more: map<Id, Item>, o: Id)
    requires items.Keys !! more.Keys
    requires forall i :: i in items ==> items[i].orderId != o
    ensures LineValue(items + more, o) == LineValue(more, o)
  {
    var all := items + more;
    assert (map i | i in all && all[i].orderId == o :: all[i].unitPriceCents * all[i].quantity)
        == (map i | i in more && more[i].orderId == o :: more[i].unitPriceCents * more[i].quantity);
  }

  lemma NewOrderValue(db: Store, c: Call)
    requires LinesAgree(db) && Effective(db, Commit(c)) && c.req.Place?
    ensures LineValue(ApplyOp(db, Commit(c)).items, c.ids.orderId)
         == Exact(c.req.lines, Prices(db, c.req.lines), |c.req.lines|)
    ensures forall o :: o in db.orders ==> LineValue(ApplyOp(db, Commit(c)).items, o) == LineValue(db.items, o)
  {
    var prices := Prices(db, c.req.lines);
    FreshOrderRows(db, c);
    var table := ItemTable(c, prices, |prices|);
    forall i | i in table ensures table[i].orderId == c.ids.orderId {
      var k := ItemTableRow(c, prices, i);
    }
    LineValueNew(db.items, table, c.ids.orderId);
    ItemTableValue(c, prices, |prices|);
    forall o | o in db.orders
      ensures LineValue(ApplyOp(db, Commit(c)).items, o) == LineValue(db.items, o)
    {
      LineValueUnchanged(db.items, table, o);
    }
  }

  ghost predicate OrderAgrees(db: Store, o: Id)
    requires o in db.orders
  {
    HasEvent(db, o) && db.orders[o].totalCents == Wrap64(LineValue(db.items, o))
  }

  lemma NewOrderAgrees(db: Store, c: Call)
    requires LinesAgree(db) && Effective(db, Commit(c)) && c.req.Place?
    ensures c.ids.orderId in ApplyOp(db, Commit(c)).orders
    ensures OrderAgrees(ApplyOp(db, Commit(c)), c.ids.orderId)
  {
    var db', prices := ApplyOp(db, Commit(c)), Prices(db, c.req.lines);
    FreshOrderRows(db, c);
    NewOrderValue(db, c);
    TotalIsWrappedSum(c.req.lines, prices, |prices|);
    assert db'.outbox[c.ids.eventId].aggregateId == c.ids.orderId;
  }

  lemma OldOrderAgrees(db: Store, db': Store, o: Id)
    requires Grows(db, db') && o in db.orders && OrderAgrees(db, o)
    requires LineValue(db'.items, o) == LineValue(db.items, o)
    ensures OrderAgrees(db', o)
  {
  }

  lemma PlaceKeepsOrders(db: Store, c: Call)
    requires LinesAgree(db) && OrdersAgree(db) && Effective(db, Commit(c)) && c.req.Place?
    ensures OrdersAgree(ApplyOp(db, Commit(c)))
  {
    var db' := ApplyOp(db, Commit(c));
    FreshOrderRows(db, c);
    NewOrderAgrees(db, c);
    NewOrderValue(db, c);
    ApplyGrows(db, Commit(c));
    forall o | o in db'.orders ensures OrderAgrees(db', o) {
      if o != c.ids.orderId {
        OldOrderAgrees(db, db', o);
      }
    }
  }

  lemma EventsStay(db: Store, db': Store)
    requires Grows(db, db') && EventsAgree(db)
    requires db'.orders == db.orders && db'.outbox.Keys == db.outbox.Keys
    ensures EventsAgree(db')
  {
  }

  lemma OrdersStay(db: Store, db': Store)
    requires Grows(db, db') && OrdersAgree(db)
    requires db'.orders == db.orders && db'.items == db.items
    ensures OrdersAgree(db')
  {
  }

  // Reservations and marks leave orders, lines and events as they are.
  lemma OtherOpsRows(db: Store, op: Op)
    requires Effective(db, op)
    requires op.MarkEvent? || op.call.req.Reserve?
    ensures var db' := ApplyOp(db, op);
      && db'.orders == db.orders && db'.orderKeys == db.orderKeys && db'.items == db.items
      && db'.outbox.Keys == db.outbox.Keys
  {
  }

  lemma OtherOpsKeepLines(db: Store, op: Op)
    requires LinesAgree(db) && Effective(db, op) && (op.MarkEvent? || op.call.req.Reserve?)
    ensures LinesAgree(ApplyOp(db, op))
  {
  }

  lemma OtherOpsKeepKeysAndEvents(db: Store, op: Op)
    requires KeysAgree(db) && EventsAgree(db) && Effective(db, op) && (op.MarkEvent? || op.call.req.Reserve?)
    ensures KeysAgree(ApplyOp(db, op)) && EventsAgree(ApplyOp(db, op))
  {
    ApplyGrows(db, op);
    OtherOpsRows(db, op);
    EventsStay(db, ApplyOp(db, op));
  }

  lemma OtherOpsKeepOrders(db: Store, op: Op)
    requires OrdersAgree(db) && Effective(db, op) && (op.MarkEvent? || op.call.req.Reserve?)
    ensures OrdersAgree(ApplyOp(db, op))
  {
    ApplyGrows(db, op);
    OtherOpsRows(db, op);
    OrdersStay(db, ApplyOp(db, op));
  }

  lemma ApplyKeepsAggregates(db: Store, op: Op)
    requires Aggregates(db) && Effective(db, op)
    ensures Aggregates(ApplyOp(db, op))
  {
    if op.Commit? && op.call.req.Place? {
      PlaceKeepsLines(db, op.call);
      PlaceKeepsKeysAndEvents(db, op.call);
      PlaceKeepsOrders(db, op.call);
    } else {
      OtherOpsKeepLines(db, op);
      OtherOpsKeepKeysAndEvents(db, op);
      OtherOpsKeepOrders(db, op);
    }
  }

  // ---------------------------------------------------------------- histories

  lemma InitialAgrees(db0: Store)
    requires Initial(db0)
    ensures Conserved(db0, db0) && Aggregates(db0)
  {
  }

  lemma {:induction false} HistoryAgrees(db0: Store, h: seq<Op>)
    requires Initial(db0) && Legal(db0, h)
    ensures Conserved(db0, StateAfter(db0, h)) && Aggregates(StateAfter(db0, h))
    decreases |h|
  {
    if h == [] {
      InitialAgrees(db0);
    } else {
      var front, op := h[..|h| - 1], h[|h| - 1];
      HistoryAgrees(db0, front);
      ApplyConserves(db0, StateAfter(db0, front), op);
      ApplyKeepsAggregates(StateAfter(db0, front), op);
    }
  }

  // ---------------------------------------------------- billed and reserved

  ghost function LinesOfOrder(db: Store, o: Id): map<Id, Item> {
    map i | i in db.items && db.items[i].orderId == o :: db.items[i]
  }

  ghost function Billed(lines: map<Id, Item>): int {
    Sum(map i | i in lines :: lines[i].quantity)
  }

  ghost function CabinetsOf(lines: map<Id, Item>): set<Id> {
    set i | i in lines :: lines[i].cabinetId
  }

  // Units held under the order's own stock keys, one per distinct cabinet.
  ghost function HeldFor(db: Store, o: Id, cabinets: set<Id>): int {
    Sum(map c | c in cabinets && StockKey(o, c) in db.reservations :: db.reservations[StockKey(o, c)].quantity)
  }

  ghost predicate RepeatsCabinet(lines: map<Id, Item>) {
    exists i, j :: i in lines && j in lines && i != j && lines[i].cabinetId == lines[j].cabinetId
  }

  lemma HeldForInsert(db: Store, o: Id, cabinets: set<Id>, c: Id)
    requires c !in cabinets && StockKey(o, c) in db.reservations
    ensures HeldFor(db, o, cabinets + {c}) == HeldFor(db, o, cabinets) + db.reservations[StockKey(o, c)].quantity
  {
    var m := map d | d in cabinets && StockKey(o, d) in db.reservations :: db.reservations[StockKey(o, d)].quantity;
    var m' := map d | d in cabinets + {c} && StockKey(o, d) in db.reservations :: db.reservations[StockKey(o, d)].quantity;
    SumInsert(m, c, db.reservations[StockKey(o, c)].quantity);
    assert m' == m[c := db.reservations[StockKey(o, c)].quantity];
  }

  lemma BilledRemove(lines: map<Id, Item>, i: Id)
    requires i in lines
    ensures Billed(lines) == lines[i].quantity + Billed(lines - {i})
  {
    SumRemove(map j | j in lines :: lines[j].quantity, i);
    assert (map j | j in lines :: lines[j].quantity) - {i} == map j | j in lines - {i} :: (lines - {i})[j].quantity;
  }

  lemma CabinetsInsert(lines: map<Id, Item>, i: Id)
    requires i in lines
    ensures CabinetsOf(lines) == CabinetsOf(lines - {i}) + {lines[i].cabinetId}
  {
    forall c | c in CabinetsOf(lines) ensures c in CabinetsOf(lines - {i}) + {lines[i].cabinetId} {
      var j :| j in lines && lines[j].cabinetId == c;
      if j != i {
        assert j in lines - {i} && (lines - {i})[j].cabinetId == c;
      }
    }
  }

  lemma RepeatsInsert(lines: map<Id, Item>, i: Id)
    requires i in lines && lines[i].cabinetId !in CabinetsOf(lines - {i})
    ensures RepeatsCabinet(lines) <==> RepeatsCabinet(lines - {i})
  {
    var rest := lines - {i};
    forall j | j in rest ensures j in lines && lines[j].cabinetId != lines[i].cabinetId {
      assert rest[j].cabinetId in CabinetsOf(rest);
    }
    assert forall j :: j in lines && j != i ==> j in rest;
  }

  lemma {:induction false} HeldIsPerCabinet(db: Store, o: Id, lines: map<Id, Item>)
    requires forall i :: i in lines ==> lines[i].orderId == o && 0 < lines[i].quantity && Backed(db, lines[i])
    ensures HeldFor(db, o, CabinetsOf(lines)) <= Billed(lines)
    ensures HeldFor(db, o, CabinetsOf(lines)) == Billed(lines) <==> !RepeatsCabinet(lines)
    decreases |lines|
  {
    if lines == map[] {
      assert CabinetsOf(lines) == {};
    } else {
      var i :| i in lines;
      var rest, c := lines - {i}, lines[i].cabinetId;
      HeldIsPerCabinet(db, o, rest);
      BilledRemove(lines, i);
      CabinetsInsert(lines, i);
      if c in CabinetsOf(rest) {
        assert CabinetsOf(lines) == CabinetsOf(rest);
        var j :| j in rest && rest[j].cabinetId == c;
        assert RepeatsCabinet(lines);
      } else {
        HeldForInsert(db, o, CabinetsOf(rest), c);
        RepeatsInsert(lines, i);
      }
    }
  }

  // After any history the units held for an order are one line's quantity per
  // distinct cabinet: at most what it is billed for, and exactly that if and
  // only if no cabinet repeats.
  lemma BilledVersusReserved(db0: Store, h: seq<Op>, o: Id)
    requires Initial(db0) && Legal(db0, h)
    ensures var db := StateAfter(db0, h);
      var lines := LinesOfOrder(db, o);
      && (forall i :: i in lines ==> Backed(db, lines[i]))
      && HeldFor(db, o, CabinetsOf(lines)) <= Billed(lines)
      && (HeldFor(db, o, CabinetsOf(lines)) == Billed(lines) <==> !RepeatsCabinet(lines))
  {
    HistoryAgrees(db0, h);
    var db := StateAfter(db0, h);
    HeldIsPerCabinet(db, o, LinesOfOrder(db, o));
  }
}
