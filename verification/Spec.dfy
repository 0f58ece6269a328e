// The atomic meaning of one call: what ReserveStock and CreateOrder answer and
// write when nothing else runs in between. Writes are the rows a transaction
// adds or updates.
module Spec {
  import opened Tables
  import opened StockKeys
  import opened Money
  import opened Replay

  datatype Request =
    | Reserve(line: Line, key: string)
    | Place(userId: string, lines: seq<Line>, key: string)

  // The ids uuid.New() produces for a call (unused by Reserve).
  datatype Ids = Ids(orderId: Id, itemIds: seq<Id>, eventId: Id)

  datatype Reply =
    | Reserved(cabinetId: Id, cabinet: Cabinet)
    | Placed(order: OrderRow, rows: seq<ItemRow>)

  datatype Done = Done(writes: Store, reply: Reply)

  // A call as it is made: the request, the ids it would draw, and its start
  // time, which NOW() returns for the whole transaction.
  datatype Call = Call(req: Request, ids: Ids, now: int)

  const EVENT_TYPE := "order.created"

  function LinesOf(req: Request): seq<Line> {
    match req
    case Reserve(line, _) => [line]
    case Place(_, lines, _) => lines
  }

  // The reservation key used for each line.
  function StockKeysOf(c: Call): (keys: seq<string>)
    ensures |keys| == |LinesOf(c.req)|
  {
    match c.req
    case Reserve(_, key) => [key]
    case Place(_, lines, _) =>
      seq(|lines|, i requires 0 <= i < |lines| => StockKey(c.ids.orderId, lines[i].cabinetId))
  }

  // What the use case layer guarantees to the repository, and one drawn item id
  // per line.
  ghost predicate ValidCall(c: Call) {
    && |LinesOf(c.req)| > 0
    && (forall l :: l in LinesOf(c.req) ==> 0 < l.quantity <= MAX_INT32)
    && (c.req.Place? ==> |c.ids.itemIds| == |c.req.lines|)
  }

  // ------------------------------------------------------------- reserving

  function AddReservation(w: Store, row: Cabinet, line: Line, key: string): Store {
    w.(cabinets := w.cabinets[line.cabinetId := row],
       reservations := w.reservations[key := Reservation(line.cabinetId, line.quantity)])
  }

  datatype Taken = Taken(writes: Store, cabinet: Cabinet)

  // Reserve one line inside a transaction that has already written w.
  function ReserveOn(db: Store, w: Store, line: Line, key: string): Result<Taken> {
    match Visible(db.reservations, w.reservations, key)
    case Some(r) =>
      if r != Reservation(line.cabinetId, line.quantity) then Err(DuplicateReservation)
      else (
        match Visible(db.cabinets, w.cabinets, r.cabinetId)
        case Some(row) => Ok(Taken(w, row))
        case None => Err(Internal)
      )
    case None =>
      match Visible(db.cabinets, w.cabinets, line.cabinetId)
      case Some(row) =>
        if row.quantity >= line.quantity then
          var left := row.(quantity := row.quantity - line.quantity);
          Ok(Taken(AddReservation(w, left, line, key), left))
        else Err(InsufficientStock)
      case None => Err(InsufficientStock)
  }

  // The writes after reserving the first i lines.
  function ReserveLines(db: Store, lines: seq<Line>, keys: seq<string>, i: nat): Result<Store>
    requires i <= |lines| == |keys|
  {
    if i == 0 then Ok(NO_WRITES)
    else
      match ReserveLines(db, lines, keys, i - 1)
      case Err(e) => Err(e)
      case Ok(w) =>
        match ReserveOn(db, w, lines[i - 1], keys[i - 1])
        case Err(e) => Err(e)
        case Ok(taken) => Ok(taken.writes)
  }

  // --------------------------------------------------------------- placing

  ghost predicate AllListed(db: Store, lines: seq<Line>) {
    forall k :: 0 <= k < |lines| ==> lines[k].cabinetId in db.cabinets
  }

  function PriceOf(db: Store, cabinetId: Id): int {
    if cabinetId in db.cabinets then db.cabinets[cabinetId].price else 0
  }

  function Prices(db: Store, lines: seq<Line>): (prices: seq<int>)
    ensures |prices| == |lines|
  {
    seq(|lines|, i requires 0 <= i < |lines| => PriceOf(db, lines[i].cabinetId))
  }

  ghost predicate ItemIdsFree(db: Store, ids: seq<Id>) {
    && (forall k :: 0 <= k < |ids| ==> ids[k] !in db.items)
    && (forall j, k :: 0 <= j < k < |ids| ==> ids[j] != ids[k])
  }

  function Header(req: Request, total: int): Order
    requires req.Place?
  {
    Order(req.userId, PendingPayment, total, req.key)
  }

  function NewItem(c: Call, prices: seq<int>, i: nat): Item
    requires i < |LinesOf(c.req)| == |prices|
  {
    Item(c.ids.orderId, LinesOf(c.req)[i].cabinetId, LinesOf(c.req)[i].quantity, prices[i])
  }

  function NewRows(c: Call, prices: seq<int>, i: nat): (rows: seq<ItemRow>)
    requires i <= |LinesOf(c.req)| == |prices| && |c.ids.itemIds| == |prices|
    ensures |rows| == i
  {
    seq(i, k requires 0 <= k < i => ItemRow(c.ids.itemIds[k], NewItem(c, prices, k)))
  }

  // The first i item rows as table rows.
  function ItemTable(c: Call, prices: seq<int>, i: nat): map<Id, Item>
    requires i <= |LinesOf(c.req)| == |prices| && |c.ids.itemIds| == |prices|
  {
    if i == 0 then map[]
    else ItemTable(c, prices, i - 1)[c.ids.itemIds[i - 1] := NewItem(c, prices, i - 1)]
  }

  lemma {:induction false} ItemTableKeys(c: Call, prices: seq<int>, i: nat)
    requires i <= |LinesOf(c.req)| == |prices| && |c.ids.itemIds| == |prices|
    ensures forall id :: id in ItemTable(c, prices, i) <==> id in c.ids.itemIds[..i]
  {
    if i > 0 {
      ItemTableKeys(c, prices, i - 1);
      assert c.ids.itemIds[..i] == c.ids.itemIds[..i - 1] + [c.ids.itemIds[i - 1]];
    }
  }

  function CreatedEvent(c: Call, total: int): Event
    requires c.req.Place?
  {
    Event(c.ids.orderId, EVENT_TYPE,
          Payload(c.ids.eventId, c.ids.orderId, c.req.userId, total), c.now, false)
  }

  function WithHeader(w: Store, c: Call, total: int): Store
    requires c.req.Place?
  {
    w.(orders := w.orders[c.ids.orderId := Header(c.req, total)],
       orderKeys := w.orderKeys[c.req.key := c.ids.orderId])
  }

  function WithItems(w: Store, c: Call, prices: seq<int>, total: int, i: nat): Store
    requires c.req.Place? && i <= |c.req.lines| == |prices| && |c.ids.itemIds| == |prices|
  {
    WithHeader(w, c, total).(items := ItemTable(c, prices, i))
  }

  function WithEvent(w: Store, c: Call, prices: seq<int>, total: int): Store
    requires c.req.Place? && |c.req.lines| == |prices| == |c.ids.itemIds|
  {
    WithItems(w, c, prices, total, |prices|).(outbox := map[c.ids.eventId := CreatedEvent(c, total)])
  }

  ghost function ReplayOf(found: OrderRow, req: Request, rows: seq<ItemRow>): Result<Done>
    requires req.Place?
  {
    if found.order.userId == req.userId && Accepts(StoredLines(rows), req.lines)
    then Ok(Done(NO_WRITES, Placed(found, rows)))
    else Err(DuplicateOrder)
  }

  // Inserting header, lines and event after the stock writes w.
  ghost function InsertOrder(db: Store, w: Store, c: Call): Result<Done>
    requires c.req.Place? && |c.ids.itemIds| == |c.req.lines|
  {
    var prices := Prices(db, c.req.lines);
    var total := Total(c.req.lines, prices, |prices|);
    if c.ids.orderId in db.orders || c.req.key in db.orderKeys then Err(DuplicateOrder)
    else if !ItemIdsFree(db, c.ids.itemIds) || c.ids.eventId in db.outbox then Err(Internal)
    else Ok(Done(WithEvent(w, c, prices, total),
                 Placed(OrderRow(c.ids.orderId, Header(c.req, total)), NewRows(c, prices, |prices|))))
  }

  ghost function PlaceSpec(db: Store, c: Call, rows: seq<ItemRow>): Result<Done>
    requires c.req.Place? && |c.ids.itemIds| == |c.req.lines|
  {
    match OrderByKey(db, c.req.key)
    case Some(found) => ReplayOf(found, c.req, rows)
    case None =>
      if !AllListed(db, c.req.lines) then Err(NotFound)
      else
        match ReserveLines(db, c.req.lines, StockKeysOf(c), |c.req.lines|)
        case Err(e) => Err(e)
        case Ok(w) => InsertOrder(db, w, c)
  }

  ghost function ReserveSpec(db: Store, line: Line, key: string): Result<Done> {
    match ReserveOn(db, NO_WRITES, line, key)
    case Err(e) => Err(e)
    case Ok(taken) => Ok(Done(taken.writes, Reserved(line.cabinetId, taken.cabinet)))
  }

  // rows is what ListOrderItems answered, used only when the key is known.
  ghost function Perform(db: Store, c: Call, rows: seq<ItemRow>): Result<Done>
    requires ValidCall(c)
  {
    match c.req
    case Reserve(line, key) => ReserveSpec(db, line, key)
    case Place(_, _, _) => PlaceSpec(db, c, rows)
  }

  // rows is a possible answer of ListOrderItems for this call.
  ghost predicate PossibleListing(db: Store, c: Call, rows: seq<ItemRow>) {
    c.req.Place? && OrderByKey(db, c.req.key).Some? ==>
      Lists(db, OrderByKey(db, c.req.key).value.id, rows)
  }

  // ------------------------------------------------- facts about reserving

  // Only cabinet and reservation rows are written, within the rules of ClaimsFree.
  ghost predicate StockOnly(db: Store, w: Store) {
    && w == NO_WRITES.(cabinets := w.cabinets, reservations := w.reservations)
    && (forall c :: c in w.cabinets ==> c in db.cabinets && w.cabinets[c].price == db.cabinets[c].price)
    && w.reservations.Keys !! db.reservations.Keys
  }

  // Later writes keep every reservation and every touched cabinet of earlier ones.
  ghost predicate Extends(w: Store, w': Store) {
    && w.cabinets.Keys <= w'.cabinets.Keys
    && (forall k :: k in w.reservations ==> k in w'.reservations && w'.reservations[k] == w.reservations[k])
  }

  lemma ReserveOnWrites(db: Store, w: Store, line: Line, key: string)
    requires StockOnly(db, w) && ReserveOn(db, w, line, key).Ok?
    ensures var w' := ReserveOn(db, w, line, key).value.writes;
      && StockOnly(db, w') && Extends(w, w')
      && Visible(db.reservations, w'.reservations, key) == Some(Reservation(line.cabinetId, line.quantity))
      && (forall k :: k in w'.reservations ==> k in w.reservations || k == key)
      && (forall c :: c in w'.cabinets ==> c in w.cabinets || (c == line.cabinetId && key in w'.reservations))
  {
  }

  lemma {:induction false} ReserveLinesWrites(db: Store, lines: seq<Line>, keys: seq<string>, i: nat)
    requires i <= |lines| == |keys|
    requires ReserveLines(db, lines, keys, i).Ok?
    ensures StockOnly(db, ReserveLines(db, lines, keys, i).value)
    ensures i > 0 ==>
      && ReserveLines(db, lines, keys, i - 1).Ok?
      && Extends(ReserveLines(db, lines, keys, i - 1).value, ReserveLines(db, lines, keys, i).value)
  {
    if i > 0 {
      ReserveLinesWrites(db, lines, keys, i - 1);
      ReserveOnWrites(db, ReserveLines(db, lines, keys, i - 1).value, lines[i - 1], keys[i - 1]);
    }
  }

  // The last step of the loop, taken apart and put together.
  lemma ReserveLinesLast(db: Store, lines: seq<Line>, keys: seq<string>, i: nat)
    requires 0 < i <= |lines| == |keys| && ReserveLines(db, lines, keys, i).Ok?
    ensures ReserveLines(db, lines, keys, i - 1).Ok?
    ensures var w := ReserveLines(db, lines, keys, i - 1).value;
      && StockOnly(db, w)
      && ReserveOn(db, w, lines[i - 1], keys[i - 1]).Ok?
      && ReserveOn(db, w, lines[i - 1], keys[i - 1]).value.writes == ReserveLines(db, lines, keys, i).value
  {
    ReserveLinesWrites(db, lines, keys, i - 1);
  }

  lemma ReserveLinesNext(db: Store, lines: seq<Line>, keys: seq<string>, i: nat, w: Store)
    requires 0 < i <= |lines| == |keys| && ReserveLines(db, lines, keys, i - 1) == Ok(w)
    requires ReserveOn(db, w, lines[i - 1], keys[i - 1]).Ok?
    ensures ReserveLines(db, lines, keys, i) == Ok(ReserveOn(db, w, lines[i - 1], keys[i - 1]).value.writes)
  {
  }

  // A refused line refuses the whole loop.
  lemma {:induction false} RefusalStops(db: Store, lines: seq<Line>, keys: seq<string>, i: nat, j: nat)
    requires i < j <= |lines| == |keys|
    requires ReserveLines(db, lines, keys, i).Ok?
    requires ReserveOn(db, ReserveLines(db, lines, keys, i).value, lines[i], keys[i]).Err?
    ensures ReserveLines(db, lines, keys, j)
         == Err(ReserveOn(db, ReserveLines(db, lines, keys, i).value, lines[i], keys[i]).error)
  {
    if i + 1 < j {
      RefusalStops(db, lines, keys, i, j - 1);
    }
  }

  // After the first i lines, each of them has its reservation row.
  lemma {:induction false} ReserveLinesRecord(db: Store, lines: seq<Line>, keys: seq<string>, i: nat, j: nat)
    requires j < i <= |lines| == |keys|
    requires ReserveLines(db, lines, keys, i).Ok?
    ensures Visible(db.reservations, ReserveLines(db, lines, keys, i).value.reservations, keys[j])
         == Some(Reservation(lines[j].cabinetId, lines[j].quantity))
  {
    ReserveLinesWrites(db, lines, keys, i);
    if j < i - 1 {
      ReserveLinesRecord(db, lines, keys, i - 1, j);
      ReserveLinesWrites(db, lines, keys, i - 1);
    } else {
      ReserveLinesWrites(db, lines, keys, i - 1);
      ReserveOnWrites(db, ReserveLines(db, lines, keys, i - 1).value, lines[i - 1], keys[i - 1]);
    }
  }

  // A reservation written by the loop comes from one of its lines.
  lemma {:induction false} ReservationHasLine(db: Store, lines: seq<Line>, keys: seq<string>, i: nat, k: string)
    returns (j: nat)
    requires i <= |lines| == |keys|
    requires ReserveLines(db, lines, keys, i).Ok? && k in ReserveLines(db, lines, keys, i).value.reservations
    ensures j < i && keys[j] == k
  {
    ReserveLinesLast(db, lines, keys, i);
    var w0 := ReserveLines(db, lines, keys, i - 1).value;
    ReserveOnWrites(db, w0, lines[i - 1], keys[i - 1]);
    if k in w0.reservations {
      j := ReservationHasLine(db, lines, keys, i - 1, k);
    } else {
      j := i - 1;
    }
  }

  // A decremented cabinet belongs to a line whose reservation was written.
  lemma {:induction false} DecrementHasLine(db: Store, lines: seq<Line>, keys: seq<string>, i: nat, c: Id)
    returns (j: nat)
    requires i <= |lines| == |keys|
    requires ReserveLines(db, lines, keys, i).Ok? && c in ReserveLines(db, lines, keys, i).value.cabinets
    ensures j < i && lines[j].cabinetId == c && keys[j] in ReserveLines(db, lines, keys, i).value.reservations
  {
    ReserveLinesWrites(db, lines, keys, i);
    ReserveLinesWrites(db, lines, keys, i - 1);
    var w0 := ReserveLines(db, lines, keys, i - 1).value;
    ReserveOnWrites(db, w0, lines[i - 1], keys[i - 1]);
    if c in w0.cabinets {
      j := DecrementHasLine(db, lines, keys, i - 1, c);
    } else {
      j := i - 1;
    }
  }

  // Another set of committed rows that a transaction with writes w cannot tell
  // from db: later, and the same on everything w holds or claims.
  ghost predicate StockUntouched(db: Store, db': Store, w: Store) {
    && Grows(db, db')
    && (forall c :: c in w.cabinets && c in db.cabinets ==> db'.cabinets[c] == db.cabinets[c])
    && w.reservations.Keys !! db'.reservations.Keys
  }

  lemma UntouchedForLess(db: Store, db': Store, w: Store, w': Store)
    requires StockUntouched(db, db', w') && Extends(w, w')
    ensures StockUntouched(db, db', w)
  {
  }

  lemma ReserveOnStable(db: Store, db': Store, w: Store, line: Line, key: string)
    requires StockOnly(db, w) && ReserveOn(db, w, line, key).Ok?
    requires StockUntouched(db, db', ReserveOn(db, w, line, key).value.writes)
    ensures ReserveOn(db', w, line, key).Ok?
    ensures ReserveOn(db', w, line, key).value.writes == ReserveOn(db, w, line, key).value.writes
  {
  }

  // The reserving loop gives the same writes on later committed rows, as long
  // as nobody else touched the rows it holds or the keys it claimed.
  lemma {:induction false} ReserveLinesStable(db: Store, db': Store, lines: seq<Line>, keys: seq<string>, i: nat)
    requires i <= |lines| == |keys|
    requires ReserveLines(db, lines, keys, i).Ok?
    requires StockUntouched(db, db', ReserveLines(db, lines, keys, i).value)
    ensures ReserveLines(db', lines, keys, i) == ReserveLines(db, lines, keys, i)
  {
    if i > 0 {
      var w := ReserveLines(db, lines, keys, i - 1).value;
      ReserveLinesLast(db, lines, keys, i);
      ReserveLinesWrites(db, lines, keys, i);
      UntouchedForLess(db, db', w, ReserveLines(db, lines, keys, i).value);
      ReserveLinesStable(db, db', lines, keys, i - 1);
      ReserveOnStable(db, db', w, lines[i - 1], keys[i - 1]);
      ReserveLinesNext(db', lines, keys, i, w);
    }
  }
}
