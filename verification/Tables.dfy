// The five catalog tables, the unique index on orders.idempotency_key, and the
// overlay of one transaction's uncommitted writes on the committed rows.
module Tables {

  type Id = string

  const MAX_INT32: int := 0x7fff_ffff

  datatype Option<+T> = None | Some(value: T)

  datatype Error =
    | NotFound
    | InsufficientStock
    | DuplicateReservation
    | DuplicateOrder
    | EmptyOrder
    | InvalidQuantity
    | Internal  // any other database error, wrapped by the repository

  datatype Result<+T> = Ok(value: T) | Err(error: Error)

  datatype Status = PendingPayment | Paid | Cancelled | Failed

  datatype Cabinet = Cabinet(quantity: int, price: int)
  datatype Reservation = Reservation(cabinetId: Id, quantity: int)
  datatype Order = Order(userId: string, status: Status, totalCents: int, key: string)
  datatype Item = Item(orderId: Id, cabinetId: Id, quantity: int, unitPriceCents: int)
  datatype Payload = Payload(eventId: Id, orderId: Id, userId: string, amountCents: int)
  datatype Event = Event(aggregateId: Id, eventType: string, payload: Payload, createdAt: int, published: bool)

  // One requested order line; also the (cabinet, quantity) of a stored line.
  datatype Line = Line(cabinetId: Id, quantity: int)

  // Rows as a query returns them, with their primary keys.
  datatype ItemRow = ItemRow(id: Id, item: Item)
  datatype OrderRow = OrderRow(id: Id, order: Order)

  // Every table is keyed by its primary key; orderKeys is the unique index on
  // orders.idempotency_key.
  datatype Store = Store(
    cabinets: map<Id, Cabinet>,
    reservations: map<string, Reservation>,
    orders: map<Id, Order>,
    orderKeys: map<string, Id>,
    items: map<Id, Item>,
    outbox: map<Id, Event>)

  const NO_WRITES: Store := Store(map[], map[], map[], map[], map[], map[])

  // What a transaction with writes w sees of the committed rows db; also the
  // committed rows once it commits.
  function Overlay(db: Store, w: Store): Store {
    Store(db.cabinets + w.cabinets,
          db.reservations + w.reservations,
          db.orders + w.orders,
          db.orderKeys + w.orderKeys,
          db.items + w.items,
          db.outbox + w.outbox)
  }

  // One row under the overlay.
  function Visible<K(==), V>(committed: map<K, V>, own: map<K, V>, k: K): Option<V> {
    if k in own then Some(own[k])
    else if k in committed then Some(committed[k])
    else None
  }

  // The writes of two transactions touch no common row and claim no common key.
  predicate Disjoint(a: Store, b: Store) {
    && a.cabinets.Keys !! b.cabinets.Keys
    && a.reservations.Keys !! b.reservations.Keys
    && a.orders.Keys !! b.orders.Keys
    && a.orderKeys.Keys !! b.orderKeys.Keys
    && a.items.Keys !! b.items.Keys
    && a.outbox.Keys !! b.outbox.Keys
  }

  // Every insert in w claims a key that no committed row has, and every
  // updated cabinet row exists and keeps its price.
  ghost predicate ClaimsFree(db: Store, w: Store) {
    && (forall c :: c in w.cabinets ==> c in db.cabinets && w.cabinets[c].price == db.cabinets[c].price)
    && w.reservations.Keys !! db.reservations.Keys
    && w.orders.Keys !! db.orders.Keys
    && w.orderKeys.Keys !! db.orderKeys.Keys
    && w.items.Keys !! db.items.Keys
    && w.outbox.Keys !! db.outbox.Keys
  }

  // Nothing is ever deleted, inserted rows never change except for the
  // published flag of an event, and a cabinet keeps its price.
  ghost predicate Grows(db: Store, db': Store) {
    && db.cabinets.Keys == db'.cabinets.Keys
    && (forall c :: c in db.cabinets ==> db'.cabinets[c].price == db.cabinets[c].price)
    && (forall k :: k in db.reservations ==> k in db'.reservations && db'.reservations[k] == db.reservations[k])
    && (forall o :: o in db.orders ==> o in db'.orders && db'.orders[o] == db.orders[o])
    && (forall k :: k in db.orderKeys ==> k in db'.orderKeys && db'.orderKeys[k] == db.orderKeys[k])
    && (forall i :: i in db.items ==> i in db'.items && db'.items[i] == db.items[i])
    && (forall e :: e in db.outbox ==> e in db'.outbox && SameEvent(db.outbox[e], db'.outbox[e]))
  }

  // The same event, possibly published in the meantime.
  predicate SameEvent(a: Event, b: Event) {
    b == a.(published := b.published) && (a.published ==> b.published)
  }

  lemma OverlayNothing(db: Store)
    ensures Overlay(db, NO_WRITES) == db
  {
  }

  lemma GrowsTransitive(a: Store, b: Store, c: Store)
    requires Grows(a, b) && Grows(b, c)
    ensures Grows(a, c)
  {
  }

  lemma OverlayGrows(db: Store, w: Store)
    requires ClaimsFree(db, w)
    ensures Grows(db, Overlay(db, w))
  {
  }

  // The order an idempotency key resolves to through the unique index.
  function OrderByKey(db: Store, key: string): Option<OrderRow> {
    if key in db.orderKeys && db.orderKeys[key] in db.orders
    then Some(OrderRow(db.orderKeys[key], db.orders[db.orderKeys[key]]))
    else None
  }

  // rows is one of the answers SELECT ... WHERE order_id = orderId may give:
  // each item row of the order exactly once, in any order.
  ghost predicate Lists(db: Store, orderId: Id, rows: seq<ItemRow>) {
    && (forall i :: 0 <= i < |rows| ==>
          rows[i].id in db.items && rows[i].item == db.items[rows[i].id] && rows[i].item.orderId == orderId)
    && (forall i, j :: 0 <= i < j < |rows| ==> rows[i].id != rows[j].id)
    && (forall id :: id in db.items && db.items[id].orderId == orderId ==> ItemRow(id, db.items[id]) in rows)
  }

  function StoredLines(rows: seq<ItemRow>): (lines: seq<Line>)
    ensures |lines| == |rows|
  {
    seq(|rows|, i requires 0 <= i < |rows| => Line(rows[i].item.cabinetId, rows[i].item.quantity))
  }
}
