// The repository as it is written: one transaction per call, statement by
// statement, with its loops, early returns and rollback; run alone on the
// tables, with the connection failing at any statement. It meets the atomic
// specification the interleaved system refines.
module Repository {
  import opened Tables
  import opened StockKeys
  import opened Money
  import opened Replay
  import opened Spec

  datatype Fetch<+T> = Row(value: T) | NoRows | Fault
  datatype Write = Written | UniqueViolation | Faulted

  // What becomes of COMMIT: it takes effect, it does not, or it takes effect
  // and the acknowledgement is lost.
  datatype CommitFate = Applied | Lost | Unacknowledged

  function Fetched<T>(o: Option<T>): Fetch<T> {
    match o
    case Some(v) => Row(v)
    case None => NoRows
  }

  class Database {
    var tables: Store

    constructor (tables: Store)
      ensures this.tables == tables
    {
      this.tables := tables;
    }
  }

  // An open transaction; lifetime counts the statements its connection will
  // still answer.
  class Tx {
    const db: Database
    var writes: Store
    var lifetime: nat
    var broken: bool

    constructor (db: Database, lifetime: nat)
      ensures this.db == db && writes == NO_WRITES && !broken && this.lifetime == lifetime
    {
      this.db := db;
      this.writes := NO_WRITES;
      this.lifetime := lifetime;
      this.broken := false;
    }

    // Every statement first needs the connection.
    method Reach()
      modifies this`lifetime, this`broken
      ensures broken == old(broken || lifetime == 0) && lifetime + 1 >= old(lifetime)
    {
      if lifetime == 0 {
        broken := true;
      } else {
        lifetime := lifetime - 1;
      }
    }

    method GetCabinet(id: Id) returns (r: Fetch<Cabinet>)
      modifies this`lifetime, this`broken
      ensures broken == old(broken || lifetime == 0) && lifetime + 1 >= old(lifetime)
      ensures r == if broken then Fault else Fetched(Visible(db.tables.cabinets, writes.cabinets, id))
    {
      Reach();
      r := if broken then Fault else Fetched(Visible(db.tables.cabinets, writes.cabinets, id));
    }

    method GetReservation(key: string) returns (r: Fetch<Reservation>)
      modifies this`lifetime, this`broken
      ensures broken == old(broken || lifetime == 0) && lifetime + 1 >= old(lifetime)
      ensures r == if broken then Fault else Fetched(Visible(db.tables.reservations, writes.reservations, key))
    {
      Reach();
      r := if broken then Fault else Fetched(Visible(db.tables.reservations, writes.reservations, key));
    }

    // UPDATE ... SET quantity = quantity - q WHERE id = c AND quantity >= q
    method DecrementStock(c: Id, q: int) returns (r: Fetch<Cabinet>)
      modifies this`lifetime, this`broken, this`writes
      ensures broken == old(broken || lifetime == 0) && lifetime + 1 >= old(lifetime)
      ensures broken ==> r == Fault
      ensures !broken ==>
        var row := Visible(db.tables.cabinets, old(writes).cabinets, c);
        r == if row.Some? && row.value.quantity >= q
             then Row(row.value.(quantity := row.value.quantity - q)) else NoRows
      ensures writes == if r.Row? then old(writes).(cabinets := old(writes).cabinets[c := r.value]) else old(writes)
    {
      Reach();
      if broken {
        return Fault;
      }
      var row := Visible(db.tables.cabinets, writes.cabinets, c);
      if row.None? || row.value.quantity < q {
        return NoRows;
      }
      var left := row.value.(quantity := row.value.quantity - q);
      writes := writes.(cabinets := writes.cabinets[c := left]);
      r := Row(left);
    }

    method CreateReservation(key: string, c: Id, q: int) returns (r: Write)
      modifies this`lifetime, this`broken, this`writes
      ensures broken == old(broken || lifetime == 0) && lifetime + 1 >= old(lifetime)
      ensures r == if broken then Faulted
                   else if Visible(db.tables.reservations, old(writes).reservations, key).Some? then UniqueViolation
                   else Written
      ensures writes == if r.Written?
                        then old(writes).(reservations := old(writes).reservations[key := Reservation(c, q)])
                        else old(writes)
    {
      Reach();
      if broken {
        return Faulted;
      }
      if Visible(db.tables.reservations, writes.reservations, key).Some? {
        return UniqueViolation;
      }
      writes := writes.(reservations := writes.reservations[key := Reservation(c, q)]);
      r := Written;
    }

    method GetOrderByIdempotencyKey(key: string) returns (r: Fetch<OrderRow>)
      modifies this`lifetime, this`broken
      ensures broken == old(broken || lifetime == 0) && lifetime + 1 >= old(lifetime)
      ensures r == if broken then Fault else Fetched(OrderByKey(Overlay(db.tables, writes), key))
    {
      Reach();
      r := if broken then Fault else Fetched(OrderByKey(Overlay(db.tables, writes), key));
    }

    // SELECT ... WHERE order_id = orderId, in no particular order
    method ListOrderItems(orderId: Id) returns (r: Fetch<seq<ItemRow>>)
      modifies this`lifetime, this`broken
      ensures broken == old(broken || lifetime == 0) && lifetime + 1 >= old(lifetime)
      ensures broken ==> r == Fault
      ensures !broken ==> r.Row? && Lists(Overlay(db.tables, writes), orderId, r.value)
    {
      Reach();
      if broken {
        return Fault;
      }
      var items := Overlay(db.tables, writes).items;
      var todo := items.Keys;
      var rows: seq<ItemRow> := [];
      while todo != {}
        invariant todo <= items.Keys
        invariant forall i :: 0 <= i < |rows| ==>
          rows[i].id in items && rows[i].item == items[rows[i].id] && rows[i].item.orderId == orderId
        invariant forall i :: 0 <= i < |rows| ==> rows[i].id !in todo
        invariant forall i, j :: 0 <= i < j < |rows| ==> rows[i].id != rows[j].id
        invariant forall id :: id in items && items[id].orderId == orderId ==>
          id in todo || ItemRow(id, items[id]) in rows
        decreases todo
      {
        var id :| id in todo;
        if items[id].orderId == orderId {
          rows := rows + [ItemRow(id, items[id])];
        }
        todo := todo - {id};
      }
      r := Row(rows);
    }

    method CreateOrder(id: Id, row: Order) returns (r: Write)
      modifies this`lifetime, this`broken, this`writes
      ensures broken == old(broken || lifetime == 0) && lifetime + 1 >= old(lifetime)
      ensures r == if broken then Faulted
                   else if Visible(db.tables.orders, old(writes).orders, id).Some?
                           || Visible(db.tables.orderKeys, old(writes).orderKeys, row.key).Some? then UniqueViolation
                   else Written
      ensures writes == if r.Written?
                        then old(writes).(orders := old(writes).orders[id := row],
                                          orderKeys := old(writes).orderKeys[row.key := id])
                        else old(writes)
    {
      Reach();
      if broken {
        return Faulted;
      }
      if Visible(db.tables.orders, writes.orders, id).Some?
         || Visible(db.tables.orderKeys, writes.orderKeys, row.key).Some? {
        return UniqueViolation;
      }
      writes := writes.(orders := writes.orders[id := row], orderKeys := writes.orderKeys[row.key := id]);
      r := Written;
    }

    method CreateOrderItem(id: Id, item: Item) returns (r: Write)
      modifies this`lifetime, this`broken, this`writes
      ensures broken == old(broken || lifetime == 0) && lifetime + 1 >= old(lifetime)
      ensures r == if broken then Faulted
                   else if Visible(db.tables.items, old(writes).items, id).Some? then UniqueViolation
                   else Written
      ensures writes == if r.Written? then old(writes).(items := old(writes).items[id := item]) else old(writes)
    {
      Reach();
      if broken {
        return Faulted;
      }
      if Visible(db.tables.items, writes.items, id).Some? {
        return UniqueViolation;
      }
      writes := writes.(items := writes.items[id := item]);
      r := Written;
    }

    method InsertOutboxEvent(id: Id, event: Event) returns (r: Write)
      modifies this`lifetime, this`broken, this`writes
      ensures broken == old(broken || lifetime == 0) && lifetime + 1 >= old(lifetime)
      ensures r == if broken then Faulted
                   else if Visible(db.tables.outbox, old(writes).outbox, id).Some? then UniqueViolation
                   else Written
      ensures writes == if r.Written? then old(writes).(outbox := old(writes).outbox[id := event]) else old(writes)
    {
      Reach();
      if broken {
        return Faulted;
      }
      if Visible(db.tables.outbox, writes.outbox, id).Some? {
        return UniqueViolation;
      }
      writes := writes.(outbox := writes.outbox[id := event]);
      r := Written;
    }

    method Commit(fate: CommitFate) returns (acked: bool)
      modifies db
      ensures acked == fate.Applied?
      ensures db.tables == if fate.Lost? then old(db.tables) else Overlay(old(db.tables), writes)
    {
      if !fate.Lost? {
        db.tables := Overlay(db.tables, writes);
      }
      acked := fate.Applied?;
    }
  }

  // What a call may answer and leave behind, given that it saw before: a fault
  // leaves no trace unless it hits the commit's acknowledgement; otherwise the
  // atomic outcome decides.
  ghost predicate Meets(before: Store, after: Store, c: Call, rows: seq<ItemRow>,
                        r: Result<Reply>, faulted: bool, fate: CommitFate)
    requires ValidCall(c)
  {
    if faulted then r == Err(Internal) && after == before
    else
      match Perform(before, c, rows)
      case Err(e) => r == Err(e) && after == before
      case Ok(done) =>
        if c.req.Place? && done.writes == NO_WRITES then r == Ok(done.reply) && after == before
        else
          && r == (if fate.Applied? then Ok(done.reply) else Err(Internal))
          && after == (if fate.Lost? then before else Overlay(before, done.writes))
  }

  lemma {:induction false} TotalOfPrefix(lines: seq<Line>, prices: seq<int>, all: seq<int>, i: nat)
    requires i <= |lines| && i <= |prices| && i <= |all| && prices[..i] == all[..i]
    ensures Total(lines, prices, i) == Total(lines, all, i)
  {
    if i > 0 {
      assert prices[..i - 1] == prices[..i][..i - 1] == all[..i][..i - 1] == all[..i - 1];
      assert prices[i - 1] == prices[..i][i - 1] == all[..i][i - 1];
      TotalOfPrefix(lines, prices, all, i - 1);
    }
  }

  // At most n statements were run since the connection had the given lifetime,
  // and it broke only if it could not serve them all.
  ghost predicate Spent(tx: Tx, n: nat, lifetime: nat, broken: bool)
    reads tx
  {
    tx.lifetime + n >= lifetime && (tx.broken ==> broken || lifetime < n)
  }

  class CabinetRepository {
    const db: Database

    constructor (db: Database)
      ensures this.db == db
    {
      this.db := db;
    }

    method ReserveStockOnTx(tx: Tx, line: Line, key: string) returns (r: Result<Cabinet>)
      modifies tx
      ensures tx.broken ==> r == Err(Internal)
      ensures !tx.broken ==>
        match ReserveOn(tx.db.tables, old(tx.writes), line, key)
        case Ok(taken) => r == Ok(taken.cabinet) && tx.writes == taken.writes
        case Err(e) => r == Err(e)
      ensures old(tx.broken) ==> tx.broken
      ensures Spent(tx, 3, old(tx.lifetime), old(tx.broken))
    {
      var existing := tx.GetReservation(key);
      if existing.Row? {
        if existing.value.cabinetId != line.cabinetId || existing.value.quantity != line.quantity {
          return Err(DuplicateReservation);
        }
        var c := tx.GetCabinet(existing.value.cabinetId);
        if !c.Row? {
          return Err(Internal);
        }
        return Ok(c.value);
      }
      // Any error of the lookup falls through to the update, like "no rows".
      var c := tx.DecrementStock(line.cabinetId, line.quantity);
      if c.NoRows? {
        return Err(InsufficientStock);
      }
      if c.Fault? {
        return Err(Internal);
      }
      var recorded := tx.CreateReservation(key, line.cabinetId, line.quantity);
      if recorded.UniqueViolation? {
        return Err(DuplicateReservation);
      }
      if recorded.Faulted? {
        return Err(Internal);
      }
      r := Ok(c.value);
    }

    method ReserveStockTx(line: Line, key: string, lifetime: nat, fate: CommitFate)
      returns (r: Result<Reply>, faulted: bool)
      requires 0 < line.quantity <= MAX_INT32
      modifies db
      ensures Meets(old(db.tables), db.tables, Call(Reserve(line, key), Ids("", [], ""), 0), [], r, faulted, fate)
      ensures faulted ==> lifetime < 3
    {
      var tx := new Tx(db, lifetime);
      var cabinet := ReserveStockOnTx(tx, line, key);
      faulted := tx.broken;
      if cabinet.Err? {
        return Err(cabinet.error), faulted;
      }
      var acked := tx.Commit(fate);
      r := if acked then Ok(Reserved(line.cabinetId, cabinet.value)) else Err(Internal);
    }

    // The comparison of a repeated request with the stored order.
    method CompareWithStored(found: OrderRow, rows: seq<ItemRow>, userId: string, lines: seq<Line>) returns (same: bool)
      ensures same == (found.order.userId == userId && Accepts(StoredLines(rows), lines))
      ensures same <==>
        && found.order.userId == userId && |rows| == |lines|
        && forall l :: l in lines ==> LastIs(StoredLines(rows), |rows|, l)
    {
      AcceptsMeansLast(StoredLines(rows), lines);
      if found.order.userId != userId || |rows| != |lines| {
        return false;
      }
      var itemMap: map<Id, int> := map[];
      for i := 0 to |rows|
        invariant itemMap == LastWins(StoredLines(rows), i)
      {
        itemMap := itemMap[rows[i].item.cabinetId := rows[i].item.quantity];
      }
      for k := 0 to |lines|
        invariant forall j :: 0 <= j < k ==> Matches(itemMap, lines[j])
      {
        if lines[k].cabinetId !in itemMap || itemMap[lines[k].cabinetId] != lines[k].quantity {
          assert !Matches(itemMap, lines[k]);
          return false;
        }
      }
      same := true;
    }

    // The price snapshot loop and the running total.
    method SnapshotPrices(tx: Tx, lines: seq<Line>) returns (r: Result<seq<int>>, total: int)
      requires tx.writes == NO_WRITES && |lines| > 0
      modifies tx`lifetime, tx`broken
      ensures tx.broken ==> r == Err(Internal)
      ensures old(tx.broken) ==> tx.broken
      ensures !tx.broken ==>
        if AllListed(tx.db.tables, lines)
        then r == Ok(Prices(tx.db.tables, lines)) && total == Total(lines, Prices(tx.db.tables, lines), |lines|)
        else r == Err(NotFound)
      ensures Spent(tx, |lines|, old(tx.lifetime), old(tx.broken))
    {
      var prices: seq<int> := [];
      total := 0;
      for i := 0 to |lines|
        invariant tx.writes == NO_WRITES && |prices| == i
        invariant i > 0 ==> !tx.broken
        invariant old(tx.broken) ==> tx.broken
        invariant forall k :: 0 <= k < i ==>
          lines[k].cabinetId in tx.db.tables.cabinets && prices[k] == Prices(tx.db.tables, lines)[k]
        invariant total == Total(lines, prices, i)
        invariant Spent(tx, i, old(tx.lifetime), old(tx.broken))
      {
        var row := tx.GetCabinet(lines[i].cabinetId);
        if row.NoRows? {
          return Err(NotFound), total;
        }
        if row.Fault? {
          return Err(Internal), total;
        }
        ghost var before := prices;
        prices := prices + [row.value.price];
        TotalOfPrefix(lines, before, prices, i);
        total := Wrap64(total + Wrap64(row.value.price * lines[i].quantity));
      }
      assert prices == Prices(tx.db.tables, lines);
      r := Ok(prices);
    }

    // The reserve loop.
    method ReserveAll(tx: Tx, c: Call) returns (r: Result<()>)
      requires ValidCall(c) && c.req.Place? && tx.writes == NO_WRITES && !tx.broken
      modifies tx
      ensures tx.broken ==> r == Err(Internal)
      ensures !tx.broken ==>
        match ReserveLines(tx.db.tables, c.req.lines, StockKeysOf(c), |c.req.lines|)
        case Ok(w) => r.Ok? && tx.writes == w
        case Err(e) => r == Err(e)
      ensures Spent(tx, 3 * |c.req.lines|, old(tx.lifetime), old(tx.broken))
    {
      var lines := c.req.lines;
      ghost var keys := StockKeysOf(c);
      for i := 0 to |lines|
        invariant !tx.broken
        invariant ReserveLines(tx.db.tables, lines, keys, i) == Ok(tx.writes)
        invariant Spent(tx, 3 * i, old(tx.lifetime), old(tx.broken))
      {
        var taken := ReserveStockOnTx(tx, lines[i], StockKey(c.ids.orderId, lines[i].cabinetId));
        if taken.Err? {
          if !tx.broken {
            RefusalStops(tx.db.tables, lines, keys, i, |lines|);
          }
          return Err(taken.error);
        }
      }
      r := Ok(());
    }

    // The line-insert loop.
    method InsertLines(tx: Tx, c: Call, prices: seq<int>, total: int, ghost w: Store) returns (r: Result<seq<ItemRow>>)
      requires ValidCall(c) && c.req.Place? && |prices| == |c.req.lines| && !tx.broken
      requires tx.writes == WithHeader(w, c, total) && w.items == map[]
      modifies tx
      ensures tx.broken ==> r == Err(Internal)
      ensures !tx.broken ==>
        if ItemIdsFree(tx.db.tables, c.ids.itemIds)
        then r == Ok(NewRows(c, prices, |prices|)) && tx.writes == WithItems(w, c, prices, total, |prices|)
        else r == Err(Internal)
      ensures Spent(tx, |prices|, old(tx.lifetime), old(tx.broken))
    {
      var dbOrderItems: seq<ItemRow> := [];
      var ids := c.ids.itemIds;
      for i := 0 to |prices|
        invariant !tx.broken
        invariant tx.writes == WithItems(w, c, prices, total, i)
        invariant dbOrderItems == NewRows(c, prices, i)
        invariant Spent(tx, i, old(tx.lifetime), old(tx.broken))
        invariant forall k :: 0 <= k < i ==> ids[k] !in tx.db.tables.items
        invariant forall j, k :: 0 <= j < k < i ==> ids[j] != ids[k]
      {
        ItemTableKeys(c, prices, i);
        var item := NewItem(c, prices, i);
        var inserted := tx.CreateOrderItem(ids[i], item);
        if !inserted.Written? {
          return Err(Internal);
        }
        dbOrderItems := dbOrderItems + [ItemRow(ids[i], item)];
      }
      r := Ok(dbOrderItems);
    }

    // Header, lines and event, after the stock has been reserved.
    method InsertAll(tx: Tx, c: Call, prices: seq<int>, total: int) returns (r: Result<Reply>)
      requires ValidCall(c) && c.req.Place? && !tx.broken && StockOnly(tx.db.tables, tx.writes)
      requires prices == Prices(tx.db.tables, c.req.lines) && total == Total(c.req.lines, prices, |prices|)
      modifies tx
      ensures tx.broken ==> r == Err(Internal)
      ensures !tx.broken ==>
        match InsertOrder(tx.db.tables, old(tx.writes), c)
        case Ok(done) => r == Ok(done.reply) && tx.writes == done.writes
        case Err(e) => r == Err(e)
      ensures Spent(tx, |prices| + 2, old(tx.lifetime), old(tx.broken))
    {
      ghost var w := tx.writes;
      var header := Header(c.req, total);
      var created := tx.CreateOrder(c.ids.orderId, header);
      if created.UniqueViolation? {
        return Err(DuplicateOrder);
      }
      if created.Faulted? {
        return Err(Internal);
      }
      var dbOrderItems := InsertLines(tx, c, prices, total, w);
      if dbOrderItems.Err? {
        return Err(dbOrderItems.error);
      }
      var published := tx.InsertOutboxEvent(c.ids.eventId, CreatedEvent(c, total));
      if !published.Written? {
        return Err(Internal);
      }
      r := Ok(Placed(OrderRow(c.ids.orderId, header), dbOrderItems.value));
    }

    method CreateOrderTx(userId: string, lines: seq<Line>, key: string, ids: Ids, now: int,
                         lifetime: nat, fate: CommitFate)
      returns (r: Result<Reply>, faulted: bool, ghost rows: seq<ItemRow>)
      requires ValidCall(Call(Place(userId, lines, key), ids, now))
      modifies db
      ensures PossibleListing(old(db.tables), Call(Place(userId, lines, key), ids, now), rows)
           || (faulted && rows == [])
      ensures Meets(old(db.tables), db.tables, Call(Place(userId, lines, key), ids, now), rows, r, faulted, fate)
      ensures faulted ==> lifetime < 5 * |lines| + 3
    {
      var c := Call(Place(userId, lines, key), ids, now);
      var tx := new Tx(db, lifetime);
      rows := [];
      OverlayNothing(db.tables);

      var existing := tx.GetOrderByIdempotencyKey(key);
      if existing.Row? {
        var listed := tx.ListOrderItems(existing.value.id);
        if !listed.Row? {
          return Err(Internal), true, [];
        }
        rows := listed.value;
        var same := CompareWithStored(existing.value, listed.value, userId, lines);
        if !same {
          return Err(DuplicateOrder), false, rows;
        }
        return Ok(Placed(existing.value, listed.value)), false, rows;
      }

      var prices, total := SnapshotPrices(tx, lines);
      if prices.Err? {
        return Err(prices.error), tx.broken, [];
      }
      var reserved := ReserveAll(tx, c);
      if reserved.Err? {
        return Err(reserved.error), tx.broken, [];
      }
      ReserveLinesWrites(tx.db.tables, lines, StockKeysOf(c), |lines|);
      var order := InsertAll(tx, c, prices.value, total);
      if order.Err? {
        return Err(order.error), tx.broken, [];
      }
      OrderPlaced(db.tables, c, tx.writes, order.value);
      var acked := tx.Commit(fate);
      r := if acked then Ok(order.value) else Err(Internal);
      faulted := false;
    }

    lemma OrderPlaced(before: Store, c: Call, writes: Store, reply: Reply)
      requires ValidCall(c) && c.req.Place? && OrderByKey(before, c.req.key).None? && AllListed(before, c.req.lines)
      requires var reserved := ReserveLines(before, c.req.lines, StockKeysOf(c), |c.req.lines|);
        reserved.Ok? && InsertOrder(before, reserved.value, c) == Ok(Done(writes, reply))
      ensures Perform(before, c, []) == Ok(Done(writes, reply)) && writes != NO_WRITES
    {
      assert c.ids.eventId in writes.outbox;
    }
  }
}
