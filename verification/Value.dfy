// What a fresh order changes, to the row; and when value is conserved, given
// fresh order ids and totals that fit int64.
module Value {
  import opened Tables
  import opened MapSums
  import opened Money
  import opened Replay
  import opened StockKeys
  import opened Spec
  import opened History
  import opened Ledger

  // No reservation carries a stock key of the order about to be created.
  ghost predicate FreshCall(db: Store, c: Call) {
    c.req.Place? ==> forall k :: 0 <= k < |c.req.lines| ==> StockKeysOf(c)[k] !in db.reservations
  }

  // ------------------------------------------------------ the exact difference

  ghost predicate OneDecrementPerCabinet(db: Store, w: Store, lines: seq<Line>, i: nat)
    requires i <= |lines|
  {
    && (forall k :: 0 <= k < i ==>
          lines[k].cabinetId in db.cabinets && lines[k].cabinetId in w.cabinets
          && w.cabinets[lines[k].cabinetId].quantity == db.cabinets[lines[k].cabinetId].quantity - lines[k].quantity)
    && (forall c :: c in w.cabinets ==> Named(lines, i, c))
  }

  ghost predicate Named(lines: seq<Line>, i: nat, c: Id)
    requires i <= |lines|
  {
    exists k :: 0 <= k < i && lines[k].cabinetId == c
  }

  lemma DecrementNew(db: Store, w: Store, w': Store, lines: seq<Line>, i: nat)
    requires i < |lines| && OneDecrementPerCabinet(db, w, lines, i)
    requires forall k :: 0 <= k < i ==> lines[k].cabinetId != lines[i].cabinetId
    requires lines[i].cabinetId in db.cabinets
    requires w'.cabinets == w.cabinets[lines[i].cabinetId :=
               Cabinet(db.cabinets[lines[i].cabinetId].quantity - lines[i].quantity, db.cabinets[lines[i].cabinetId].price)]
    ensures OneDecrementPerCabinet(db, w', lines, i + 1)
  {
  }

  lemma DecrementRepeated(db: Store, w: Store, lines: seq<Line>, i: nat, j: nat)
    requires j < i < |lines| && lines[j] == lines[i] && OneDecrementPerCabinet(db, w, lines, i)
    ensures OneDecrementPerCabinet(db, w, lines, i + 1)
  {
  }

  lemma SameKeySameCabinet(c: Call, i: nat, j: nat)
    requires c.req.Place? && i < |c.req.lines| && j < |c.req.lines|
    ensures StockKeysOf(c)[i] == StockKeysOf(c)[j] <==> c.req.lines[i].cabinetId == c.req.lines[j].cabinetId
  {
    if StockKeysOf(c)[i] == StockKeysOf(c)[j] {
      StockKeyDeterminesCabinet(c.ids.orderId, c.req.lines[i].cabinetId, c.req.lines[j].cabinetId);
    }
  }

  // A line whose key is already written repeats an earlier line.
  lemma WrittenKeyRepeatsLine(db: Store, c: Call, i: nat) returns (j: nat)
    requires c.req.Place? && i < |c.req.lines|
    requires ReserveLines(db, c.req.lines, StockKeysOf(c), i + 1).Ok? && ReserveLines(db, c.req.lines, StockKeysOf(c), i).Ok?
    requires StockKeysOf(c)[i] in ReserveLines(db, c.req.lines, StockKeysOf(c), i).value.reservations
    ensures j < i && c.req.lines[j] == c.req.lines[i]
  {
    var lines, keys := c.req.lines, StockKeysOf(c);
    j := ReservationHasLine(db, lines, keys, i, keys[i]);
    SameKeySameCabinet(c, i, j);
    ReserveLinesRecord(db, lines, keys, i + 1, j);
    ReserveLinesRecord(db, lines, keys, i + 1, i);
  }

  // A line whose key is not yet written names a new cabinet.
  lemma NewKeyNamesNewCabinet(db: Store, c: Call, i: nat, k: nat)
    requires c.req.Place? && k < i < |c.req.lines| && FreshCall(db, c)
    requires ReserveLines(db, c.req.lines, StockKeysOf(c), i).Ok?
    requires StockKeysOf(c)[i] !in ReserveLines(db, c.req.lines, StockKeysOf(c), i).value.reservations
    ensures c.req.lines[k].cabinetId != c.req.lines[i].cabinetId
  {
    SameKeySameCabinet(c, i, k);
    ReserveLinesRecord(db, c.req.lines, StockKeysOf(c), i, k);
  }

  lemma ReserveOnKnownKey(db: Store, w: Store, line: Line, key: string)
    requires key in w.reservations && ReserveOn(db, w, line, key).Ok?
    ensures ReserveOn(db, w, line, key).value.writes == w
  {
  }

  lemma FirstTake(db: Store, w: Store, line: Line, key: string)
    requires key !in w.reservations && key !in db.reservations && line.cabinetId !in w.cabinets
    requires ReserveOn(db, w, line, key).Ok?
    ensures line.cabinetId in db.cabinets
    ensures ReserveOn(db, w, line, key).value.writes.cabinets == w.cabinets[line.cabinetId :=
              Cabinet(db.cabinets[line.cabinetId].quantity - line.quantity, db.cabinets[line.cabinetId].price)]
  {
  }

  ghost predicate TakenOnce(db: Store, c: Call, i: nat)
    requires c.req.Place? && i <= |c.req.lines|
  {
    var r := ReserveLines(db, c.req.lines, StockKeysOf(c), i);
    r.Ok? && OneDecrementPerCabinet(db, r.value, c.req.lines, i)
  }

  lemma RepeatedLineTakesNothing(db: Store, c: Call, i: nat, w: Store)
    requires c.req.Place? && i < |c.req.lines|
    requires ReserveLines(db, c.req.lines, StockKeysOf(c), i) == Ok(w)
    requires ReserveLines(db, c.req.lines, StockKeysOf(c), i + 1).Ok?
    requires StockKeysOf(c)[i] in w.reservations
    ensures ReserveLines(db, c.req.lines, StockKeysOf(c), i + 1) == Ok(w)
    ensures OneDecrementPerCabinet(db, w, c.req.lines, i) ==> OneDecrementPerCabinet(db, w, c.req.lines, i + 1)
  {
    var j := WrittenKeyRepeatsLine(db, c, i);
    ReserveLinesLast(db, c.req.lines, StockKeysOf(c), i + 1);
    ReserveOnKnownKey(db, w, c.req.lines[i], StockKeysOf(c)[i]);
    if OneDecrementPerCabinet(db, w, c.req.lines, i) {
      DecrementRepeated(db, w, c.req.lines, i, j);
    }
  }

  lemma NewLineTakesOnce(db: Store, c: Call, i: nat, w: Store, w': Store)
    requires c.req.Place? && i < |c.req.lines| && FreshCall(db, c)
    requires ReserveLines(db, c.req.lines, StockKeysOf(c), i) == Ok(w)
    requires ReserveLines(db, c.req.lines, StockKeysOf(c), i + 1) == Ok(w')
    requires StockKeysOf(c)[i] !in w.reservations
    ensures OneDecrementPerCabinet(db, w, c.req.lines, i) ==> OneDecrementPerCabinet(db, w', c.req.lines, i + 1)
  {
    if OneDecrementPerCabinet(db, w, c.req.lines, i) {
      forall k | 0 <= k < i ensures c.req.lines[k].cabinetId != c.req.lines[i].cabinetId {
        NewKeyNamesNewCabinet(db, c, i, k);
      }
      ReserveLinesLast(db, c.req.lines, StockKeysOf(c), i + 1);
      FirstTake(db, w, c.req.lines[i], StockKeysOf(c)[i]);
      DecrementNew(db, w, w', c.req.lines, i);
    }
  }

  lemma FreshDecrement(db: Store, c: Call, i: nat)
    requires c.req.Place? && i < |c.req.lines| && FreshCall(db, c)
    requires ReserveLines(db, c.req.lines, StockKeysOf(c), i).Ok? && ReserveLines(db, c.req.lines, StockKeysOf(c), i + 1).Ok?
    ensures TakenOnce(db, c, i) ==> TakenOnce(db, c, i + 1)
  {
    var w := ReserveLines(db, c.req.lines, StockKeysOf(c), i).value;
    if StockKeysOf(c)[i] in w.reservations {
      RepeatedLineTakesNothing(db, c, i, w);
    } else {
      NewLineTakesOnce(db, c, i, w, ReserveLines(db, c.req.lines, StockKeysOf(c), i + 1).value);
    }
  }

  lemma {:induction false} FreshDecrements(db: Store, c: Call, i: nat)
    requires c.req.Place? && i <= |c.req.lines| && FreshCall(db, c)
    requires ReserveLines(db, c.req.lines, StockKeysOf(c), i).Ok?
    ensures TakenOnce(db, c, i)
  {
    if i == 0 {
      assert OneDecrementPerCabinet(db, NO_WRITES, c.req.lines, 0);
    } else {
      var j := i - 1;
      ReserveLinesLast(db, c.req.lines, StockKeysOf(c), i);
      FreshDecrements(db, c, j);
      FreshDecrement(db, c, j);
      assert j + 1 == i;
    }
  }

  lemma DecrementsSeen(db: Store, w: Store, lines: seq<Line>)
    requires OneDecrementPerCabinet(db, w, lines, |lines|)
    ensures var cabinets' := db.cabinets + w.cabinets;
      && (forall k :: 0 <= k < |lines| ==>
            && lines[k].cabinetId in db.cabinets && lines[k].cabinetId in cabinets'
            && cabinets'[lines[k].cabinetId].quantity == db.cabinets[lines[k].cabinetId].quantity - lines[k].quantity)
      && (forall cab :: cab in db.cabinets && (forall k :: 0 <= k < |lines| ==> lines[k].cabinetId != cab) ==>
            cabinets'[cab] == db.cabinets[cab])
  {
  }

  // Each requested cabinet loses one line's quantity, every other keeps its row.
  lemma FreshOrderStock(db: Store, c: Call)
    requires Effective(db, Commit(c)) && c.req.Place? && FreshCall(db, c)
    ensures var cabinets' := ApplyOp(db, Commit(c)).cabinets;
      && (forall k :: 0 <= k < |c.req.lines| ==>
            && c.req.lines[k].cabinetId in db.cabinets && c.req.lines[k].cabinetId in cabinets'
            && cabinets'[c.req.lines[k].cabinetId].quantity
                 == db.cabinets[c.req.lines[k].cabinetId].quantity - c.req.lines[k].quantity)
      && (forall cab :: cab in db.cabinets && (forall k :: 0 <= k < |c.req.lines| ==> c.req.lines[k].cabinetId != cab) ==>
            cab in cabinets' && cabinets'[cab] == db.cabinets[cab])
  {
    CommitStock(db, c);
    FreshDecrements(db, c, |c.req.lines|);
    DecrementsSeen(db, ReserveLines(db, c.req.lines, StockKeysOf(c), |c.req.lines|).value, c.req.lines);
  }

  // Each line is recorded under a key that was free, and no other key is added.
  lemma FreshOrderReservations(db: Store, c: Call)
    requires Effective(db, Commit(c)) && c.req.Place? && FreshCall(db, c)
    ensures var reservations' := ApplyOp(db, Commit(c)).reservations;
      && (forall k :: 0 <= k < |c.req.lines| ==>
            && StockKeysOf(c)[k] !in db.reservations && StockKeysOf(c)[k] in reservations'
            && reservations'[StockKeysOf(c)[k]] == Reservation(c.req.lines[k].cabinetId, c.req.lines[k].quantity))
      && (forall key :: key in reservations' ==>
            key in db.reservations || exists k :: 0 <= k < |c.req.lines| && key == StockKeysOf(c)[k])
  {
    var lines, keys := c.req.lines, StockKeysOf(c);
    var reservations' := ApplyOp(db, Commit(c)).reservations;
    CommitStock(db, c);
    forall k | 0 <= k < |lines|
      ensures keys[k] in reservations' && reservations'[keys[k]] == Reservation(lines[k].cabinetId, lines[k].quantity)
    {
      ReserveLinesRecord(db, lines, keys, |lines|, k);
    }
    forall key | key in reservations' && key !in db.reservations
      ensures exists k :: 0 <= k < |lines| && key == keys[k]
    {
      var k := ReservationHasLine(db, lines, keys, |lines|, key);
    }
  }

  lemma AddedKeys(db: Store, db': Store, c: Call)
    requires c.req.Place? && |c.ids.itemIds| == |c.req.lines| && AddsOrder(db, db', c)
    ensures db'.orders.Keys == db.orders.Keys + {c.ids.orderId} && db'.outbox.Keys == db.outbox.Keys + {c.ids.eventId}
    ensures forall id :: id in db'.items <==> id in db.items || id in c.ids.itemIds
  {
    ItemTableKeys(c, Prices(db, c.req.lines), |c.req.lines|);
    assert c.ids.itemIds[..|c.req.lines|] == c.ids.itemIds;
  }

  // One header, one row per line under the drawn ids, and one event.
  lemma FreshOrderKeys(db: Store, c: Call)
    requires Effective(db, Commit(c)) && c.req.Place?
    ensures var db' := ApplyOp(db, Commit(c));
      && db'.orders.Keys == db.orders.Keys + {c.ids.orderId} && c.ids.orderId !in db.orders
      && db'.outbox.Keys == db.outbox.Keys + {c.ids.eventId} && c.ids.eventId !in db.outbox
      && (forall id :: id in db'.items <==> id in db.items || id in c.ids.itemIds)
      && ItemIdsFree(db, c.ids.itemIds) && |c.ids.itemIds| == |c.req.lines|
  {
    FreshOrderRows(db, c);
    AddedKeys(db, ApplyOp(db, Commit(c)), c);
  }

  // ------------------------------------------------------- value conservation

  ghost function Worth(row: Cabinet): int {
    row.price * row.quantity
  }

  ghost function StockValue(cabinets: map<Id, Cabinet>): int {
    Sum(map c | c in cabinets :: Worth(cabinets[c]))
  }

  ghost predicate OrderKey(items: map<Id, Item>, key: string) {
    exists i :: i in items && StockKey(items[i].orderId, items[i].cabinetId) == key
  }

  // Value held by reservations that no order line accounts for.
  ghost function DirectValue(cabinets: map<Id, Cabinet>, items: map<Id, Item>, reservations: map<string, Reservation>): int {
    Sum(map k | k in reservations && !OrderKey(items, k) ::
          PriceIn(cabinets, reservations[k].cabinetId) * reservations[k].quantity)
  }

  ghost function PriceIn(cabinets: map<Id, Cabinet>, c: Id): int {
    if c in cabinets then cabinets[c].price else 0
  }

  ghost function OrdersValue(orders: map<Id, Order>): int {
    Sum(map o | o in orders :: orders[o].totalCents)
  }

  ghost function Inventory(db: Store): int {
    OrdersValue(db.orders) + DirectValue(db.cabinets, db.items, db.reservations) + StockValue(db.cabinets)
  }

  lemma StockValueUpdate(cabinets: map<Id, Cabinet>, c: Id, left: Cabinet)
    requires c in cabinets
    ensures StockValue(cabinets[c := left]) == StockValue(cabinets) - Worth(cabinets[c]) + Worth(left)
  {
    var m := map d | d in cabinets :: Worth(cabinets[d]);
    SumUpdate(m, c, Worth(left));
    var more := cabinets[c := left];
    assert (map d | d in more :: Worth(more[d])) == m[c := Worth(left)];
  }

  lemma WorthTake(row: Cabinet, q: int)
    ensures Worth(row.(quantity := row.quantity - q)) == Worth(row) - row.price * q
  {
  }

  lemma StockValueTake(cabinets: map<Id, Cabinet>, c: Id, q: int)
    requires c in cabinets
    ensures StockValue(cabinets[c := cabinets[c].(quantity := cabinets[c].quantity - q)])
         == StockValue(cabinets) - cabinets[c].price * q
  {
    StockValueUpdate(cabinets, c, cabinets[c].(quantity := cabinets[c].quantity - q));
    WorthTake(cabinets[c], q);
  }

  lemma DirectValueSamePrices(cabinets: map<Id, Cabinet>, cabinets': map<Id, Cabinet>, items: map<Id, Item>,
                              reservations: map<string, Reservation>)
    requires cabinets.Keys == cabinets'.Keys && forall c :: c in cabinets ==> cabinets[c].price == cabinets'[c].price
    ensures DirectValue(cabinets, items, reservations) == DirectValue(cabinets', items, reservations)
  {
    assert (map k | k in reservations && !OrderKey(items, k) :: PriceIn(cabinets, reservations[k].cabinetId) * reservations[k].quantity)
        == (map k | k in reservations && !OrderKey(items, k) :: PriceIn(cabinets', reservations[k].cabinetId) * reservations[k].quantity);
  }

  lemma DirectValueInsert(cabinets: map<Id, Cabinet>, items: map<Id, Item>, reservations: map<string, Reservation>,
                          key: string, r: Reservation)
    requires key !in reservations && !OrderKey(items, key)
    ensures DirectValue(cabinets, items, reservations[key := r])
         == DirectValue(cabinets, items, reservations) + PriceIn(cabinets, r.cabinetId) * r.quantity
  {
    var v := PriceIn(cabinets, r.cabinetId) * r.quantity;
    var m := map k | k in reservations && !OrderKey(items, k) :: PriceIn(cabinets, reservations[k].cabinetId) * reservations[k].quantity;
    var more := reservations[key := r];
    SumInsert(m, key, v);
    assert (map k | k in more && !OrderKey(items, k) :: PriceIn(cabinets, more[k].cabinetId) * more[k].quantity) == m[key := v];
  }

  lemma DirectValueUnchanged(cabinets: map<Id, Cabinet>, items: map<Id, Item>, items': map<Id, Item>,
                             reservations: map<string, Reservation>, reservations': map<string, Reservation>)
    requires forall k :: k in reservations && !OrderKey(items, k) ==>
               k in reservations' && reservations'[k] == reservations[k] && !OrderKey(items', k)
    requires forall k :: k in reservations' && !OrderKey(items', k) ==> k in reservations && !OrderKey(items, k)
    ensures DirectValue(cabinets, items', reservations') == DirectValue(cabinets, items, reservations)
  {
    assert (map k | k in reservations' && !OrderKey(items', k) :: PriceIn(cabinets, reservations'[k].cabinetId) * reservations'[k].quantity)
        == (map k | k in reservations && !OrderKey(items, k) :: PriceIn(cabinets, reservations[k].cabinetId) * reservations[k].quantity);
  }

  lemma OrderKeyReserved(db: Store, key: string)
    requires LinesAgree(db) && OrderKey(db.items, key)
    ensures key in db.reservations
  {
  }

  // A direct reservation moves its value from the stock to the reservations.
  lemma ReserveKeepsValue(db: Store, c: Call)
    requires LinesAgree(db) && Effective(db, Commit(c)) && c.req.Reserve?
    ensures Inventory(ApplyOp(db, Commit(c))) == Inventory(db)
  {
    var line, key, db' := c.req.line, c.req.key, ApplyOp(db, Commit(c));
    PerformWrites(db, c);
    OtherOpsRows(db, Commit(c));
    ReserveOnVisible(db, NO_WRITES, line, key);
    OverlayNothing(db);
    assert key !in db.reservations;
    assert db'.cabinets == db.cabinets[line.cabinetId :=
      db.cabinets[line.cabinetId].(quantity := db.cabinets[line.cabinetId].quantity - line.quantity)];
    assert db'.reservations == db.reservations[key := Reservation(line.cabinetId, line.quantity)];
    if OrderKey(db.items, key) {
      OrderKeyReserved(db, key);
      assert false;
    }
    StockValueTake(db.cabinets, line.cabinetId, line.quantity);
    DirectValueSamePrices(db.cabinets, db'.cabinets, db.items, db'.reservations);
    DirectValueInsert(db.cabinets, db.items, db.reservations, key, Reservation(line.cabinetId, line.quantity));
  }

  // A line with a new key is really taken.
  lemma LineTakesValue(db: Store, w: Store, line: Line, key: string, p: int)
    requires StockOnly(db, w) && ReserveOn(db, w, line, key).Ok? && p == PriceOf(db, line.cabinetId)
    requires key !in w.reservations && key !in db.reservations
    ensures StockValue(Overlay(db, ReserveOn(db, w, line, key).value.writes).cabinets)
         == StockValue(Overlay(db, w).cabinets) - p * line.quantity
  {
    var v := Overlay(db, w);
    ReserveOnVisible(db, w, line, key);
    ReserveOnWrites(db, w, line, key);
    StockValueTake(v.cabinets, line.cabinetId, line.quantity);
    assert v.cabinets[line.cabinetId].price == p;
  }

  // An earlier line names the same cabinet.
  ghost predicate Repeated(lines: seq<Line>, k: nat)
    requires k < |lines|
  {
    exists j :: 0 <= j < k && lines[j].cabinetId == lines[k].cabinetId
  }

  // Value of the first i lines, counting each cabinet once.
  ghost function OnceValue(lines: seq<Line>, prices: seq<int>, i: nat): int
    requires i <= |lines| && i <= |prices|
  {
    if i == 0 then 0
    else OnceValue(lines, prices, i - 1) + if Repeated(lines, i - 1) then 0 else prices[i - 1] * lines[i - 1].quantity
  }

  lemma NextLineTakesValue(db: Store, c: Call, i: nat, w: Store, w': Store)
    requires c.req.Place? && i < |c.req.lines| && FreshCall(db, c) && StockOnly(db, w)
    requires ReserveLines(db, c.req.lines, StockKeysOf(c), i) == Ok(w)
    requires ReserveLines(db, c.req.lines, StockKeysOf(c), i + 1) == Ok(w')
    ensures StockValue(Overlay(db, w').cabinets) == StockValue(Overlay(db, w).cabinets)
         - if Repeated(c.req.lines, i) then 0 else Prices(db, c.req.lines)[i] * c.req.lines[i].quantity
  {
    if StockKeysOf(c)[i] in w.reservations {
      RepeatedLineTakesNothing(db, c, i, w);
      var j := WrittenKeyRepeatsLine(db, c, i);
    } else {
      forall k | 0 <= k < i ensures c.req.lines[k].cabinetId != c.req.lines[i].cabinetId {
        NewKeyNamesNewCabinet(db, c, i, k);
      }
      ReserveLinesLast(db, c.req.lines, StockKeysOf(c), i + 1);
      LineTakesValue(db, w, c.req.lines[i], StockKeysOf(c)[i], Prices(db, c.req.lines)[i]);
    }
  }

  // The reserving loop takes the value of its lines out of the stock, once per
  // cabinet.
  lemma {:induction false} LinesTakeValue(db: Store, c: Call, i: nat)
    requires c.req.Place? && i <= |c.req.lines| && FreshCall(db, c)
    requires ReserveLines(db, c.req.lines, StockKeysOf(c), i).Ok?
    ensures StockValue(Overlay(db, ReserveLines(db, c.req.lines, StockKeysOf(c), i).value).cabinets)
         == StockValue(db.cabinets) - OnceValue(c.req.lines, Prices(db, c.req.lines), i)
  {
    var lines, keys := c.req.lines, StockKeysOf(c);
    if i == 0 {
      OverlayNothing(db);
    } else {
      var j := i - 1;
      ReserveLinesLast(db, lines, keys, i);
      LinesTakeValue(db, c, j);
      assert j + 1 == i;
      NextLineTakesValue(db, c, j, ReserveLines(db, lines, keys, j).value, ReserveLines(db, lines, keys, i).value);
    }
  }

  lemma PositiveProduct(p: int, q: int)
    requires 0 <= p && 0 < q
    ensures 0 <= p * q && (0 < p ==> 0 < p * q)
  {
  }

  // Counting each cabinet once gives at most the exact total, and exactly it if
  // no cabinet repeats; at positive prices only then.
  lemma {:induction false} OnceVersusExact(lines: seq<Line>, prices: seq<int>, i: nat)
    requires i <= |lines| && i <= |prices|
    requires forall k :: 0 <= k < i ==> 0 <= prices[k] && 0 < lines[k].quantity
    ensures OnceValue(lines, prices, i) <= Exact(lines, prices, i)
    ensures (forall k :: 0 <= k < i ==> !Repeated(lines, k)) ==> OnceValue(lines, prices, i) == Exact(lines, prices, i)
    ensures (forall k :: 0 <= k < i ==> 0 < prices[k]) && OnceValue(lines, prices, i) == Exact(lines, prices, i) ==>
              forall k :: 0 <= k < i ==> !Repeated(lines, k)
  {
    if i > 0 {
      var j := i - 1;
      OnceVersusExact(lines, prices, j);
      PositiveProduct(prices[j], lines[j].quantity);
      var value, repeated := prices[j] * lines[j].quantity, Repeated(lines, j);
      assert OnceValue(lines, prices, i) == OnceValue(lines, prices, j) + if repeated then 0 else value;
      assert Exact(lines, prices, i) == Exact(lines, prices, j) + value;
    }
  }

  lemma DistinctMeansNoneRepeated(lines: seq<Line>)
    ensures DistinctCabinets(lines) <==> forall k :: 0 <= k < |lines| ==> !Repeated(lines, k)
  {
    if !DistinctCabinets(lines) {
      var j, k :| 0 <= j < k < |lines| && lines[j].cabinetId == lines[k].cabinetId;
      assert Repeated(lines, k);
    }
  }

  lemma OldKeysStayDirect(db: Store, c: Call, key: string)
    requires Effective(db, Commit(c)) && c.req.Place? && FreshCall(db, c) && key in db.reservations
    ensures OrderKey(ApplyOp(db, Commit(c)).items, key) <==> OrderKey(db.items, key)
  {
    var items, items' := db.items, ApplyOp(db, Commit(c)).items;
    FreshOrderRows(db, c);
    var table := ItemTable(c, Prices(db, c.req.lines), |c.req.lines|);
    if OrderKey(items, key) {
      var i :| i in items && StockKey(items[i].orderId, items[i].cabinetId) == key;
      assert i in items' && items'[i] == items[i];
    }
    forall i | i in table ensures StockKey(table[i].orderId, table[i].cabinetId) != key {
      var j := TableKey(c, Prices(db, c.req.lines), i);
    }
  }

  lemma TableKey(c: Call, prices: seq<int>, i: Id) returns (j: nat)
    requires c.req.Place? && |c.req.lines| == |prices| == |c.ids.itemIds|
    requires forall j, k :: 0 <= j < k < |prices| ==> c.ids.itemIds[j] != c.ids.itemIds[k]
    requires i in ItemTable(c, prices, |prices|)
    ensures j < |prices|
    ensures var item := ItemTable(c, prices, |prices|)[i];
      StockKeysOf(c)[j] == StockKey(item.orderId, item.cabinetId)
  {
    j := ItemTableRow(c, prices, i);
  }

  lemma NewKeysAreOrderKeys(db: Store, c: Call, j: nat)
    requires Effective(db, Commit(c)) && c.req.Place? && j < |c.req.lines|
    ensures OrderKey(ApplyOp(db, Commit(c)).items, StockKeysOf(c)[j])
  {
    FreshOrderRows(db, c);
    ItemTableAt(c, Prices(db, c.req.lines), |c.req.lines|, j);
    var items' := ApplyOp(db, Commit(c)).items;
    assert c.ids.itemIds[j] in items' && items'[c.ids.itemIds[j]] == NewItem(c, Prices(db, c.req.lines), j);
  }

  // A fresh order leaves the direct reservations as they are.
  lemma PlaceKeepsDirect(db: Store, c: Call)
    requires Effective(db, Commit(c)) && c.req.Place? && FreshCall(db, c)
    ensures var db' := ApplyOp(db, Commit(c));
      DirectValue(db.cabinets, db'.items, db'.reservations) == DirectValue(db.cabinets, db.items, db.reservations)
  {
    var items', reservations' := ApplyOp(db, Commit(c)).items, ApplyOp(db, Commit(c)).reservations;
    FreshOrderReservations(db, c);
    ApplyGrows(db, Commit(c));
    forall k | k in db.reservations ensures OrderKey(items', k) <==> OrderKey(db.items, k) {
      OldKeysStayDirect(db, c, k);
    }
    forall k | k in reservations' && k !in db.reservations ensures OrderKey(items', k) {
      var j :| 0 <= j < |c.req.lines| && k == StockKeysOf(c)[j];
      NewKeysAreOrderKeys(db, c, j);
    }
    DirectValueUnchanged(db.cabinets, db.items, items', db.reservations, reservations');
  }

  lemma OrdersValueInsert(orders: map<Id, Order>, o: Id, row: Order)
    requires o !in orders
    ensures OrdersValue(orders[o := row]) == OrdersValue(orders) + row.totalCents
  {
    var more := orders[o := row];
    SumInsert(map p | p in orders :: orders[p].totalCents, o, row.totalCents);
    assert (map p | p in more :: more[p].totalCents) == (map p | p in orders :: orders[p].totalCents)[o := row.totalCents];
  }

  lemma PlaceOrdersValue(db: Store, c: Call)
    requires Effective(db, Commit(c)) && c.req.Place?
    ensures var prices := Prices(db, c.req.lines);
      OrdersValue(ApplyOp(db, Commit(c)).orders) == OrdersValue(db.orders) + Total(c.req.lines, prices, |prices|)
  {
    var prices := Prices(db, c.req.lines);
    FreshOrderRows(db, c);
    OrdersValueInsert(db.orders, c.ids.orderId, Header(c.req, Total(c.req.lines, prices, |prices|)));
  }

  lemma PlaceStockValue(db: Store, c: Call)
    requires Effective(db, Commit(c)) && c.req.Place? && FreshCall(db, c)
    ensures StockValue(ApplyOp(db, Commit(c)).cabinets)
         == StockValue(db.cabinets) - OnceValue(c.req.lines, Prices(db, c.req.lines), |c.req.lines|)
  {
    CommitStock(db, c);
    LinesTakeValue(db, c, |c.req.lines|);
  }

  lemma PlaceDirectValue(db: Store, c: Call)
    requires Effective(db, Commit(c)) && c.req.Place? && FreshCall(db, c)
    ensures var db' := ApplyOp(db, Commit(c));
      DirectValue(db'.cabinets, db'.items, db'.reservations) == DirectValue(db.cabinets, db.items, db.reservations)
  {
    var db' := ApplyOp(db, Commit(c));
    PlaceKeepsDirect(db, c);
    ApplyGrows(db, Commit(c));
    DirectValueSamePrices(db.cabinets, db'.cabinets, db'.items, db'.reservations);
  }

  // What an order's total exceeds the stock it takes by.
  ghost function Excess(db: Store, op: Op): int {
    if op.Commit? && op.call.req.Place? then
      var lines, prices := op.call.req.lines, Prices(db, op.call.req.lines);
      Total(lines, prices, |lines|) - OnceValue(lines, prices, |lines|)
    else 0
  }

  lemma PlaceMovesValue(db: Store, c: Call)
    requires Effective(db, Commit(c)) && c.req.Place? && FreshCall(db, c)
    ensures Inventory(ApplyOp(db, Commit(c))) == Inventory(db) + Excess(db, Commit(c))
  {
    PlaceOrdersValue(db, c);
    PlaceStockValue(db, c);
    PlaceDirectValue(db, c);
  }

  lemma ApplyValue(db: Store, op: Op)
    requires Aggregates(db) && Effective(db, op) && (op.Commit? ==> FreshCall(db, op.call))
    ensures Inventory(ApplyOp(db, op)) == Inventory(db) + Excess(db, op)
  {
    match op {
      case MarkEvent(_) =>
      case Commit(c) =>
        if c.req.Reserve? {
          ReserveKeepsValue(db, c);
        } else {
          PlaceMovesValue(db, c);
        }
    }
  }

  // Prices never change.
  lemma ExcessStays(db0: Store, db: Store, op: Op)
    requires Grows(db0, db)
    ensures Excess(db, op) == Excess(db0, op)
  {
    if op.Commit? && op.call.req.Place? {
      assert Prices(db, op.call.req.lines) == Prices(db0, op.call.req.lines);
    }
  }

  ghost function ExcessOf(db0: Store, h: seq<Op>): int {
    if h == [] then 0 else ExcessOf(db0, h[..|h| - 1]) + Excess(db0, h[|h| - 1])
  }

  // Every order found its stock keys free.
  ghost predicate FreshHistory(db0: Store, h: seq<Op>)
    requires Legal(db0, h)
  {
    forall i :: 0 <= i < |h| && h[i].Commit? ==> Legal(db0, h[..i]) && FreshCall(StateAfter(db0, h[..i]), h[i].call)
  }

  lemma InitialValue(db0: Store)
    requires Initial(db0)
    ensures Inventory(db0) == StockValue(db0.cabinets)
  {
  }

  lemma LastValue(db0: Store, db: Store, op: Op, h: seq<Op>)
    requires Aggregates(db) && Effective(db, op) && (op.Commit? ==> FreshCall(db, op.call)) && Grows(db0, db)
    requires h != [] && h[|h| - 1] == op && Inventory(db) == StockValue(db0.cabinets) + ExcessOf(db0, h[..|h| - 1])
    ensures Inventory(ApplyOp(db, op)) == StockValue(db0.cabinets) + ExcessOf(db0, h)
  {
    ApplyValue(db, op);
    ExcessStays(db0, db, op);
  }

  lemma LastIsFresh(db0: Store, h: seq<Op>)
    requires Legal(db0, h) && FreshHistory(db0, h) && h != [] && h[|h| - 1].Commit?
    ensures Legal(db0, h[..|h| - 1]) && FreshCall(StateAfter(db0, h[..|h| - 1]), h[|h| - 1].call)
  {
  }

  lemma FreshFront(db0: Store, h: seq<Op>)
    requires Legal(db0, h) && FreshHistory(db0, h) && h != []
    ensures Legal(db0, h[..|h| - 1]) && FreshHistory(db0, h[..|h| - 1])
  {
    var front := h[..|h| - 1];
    forall i | 0 <= i < |front| && front[i].Commit?
      ensures Legal(db0, front[..i]) && FreshCall(StateAfter(db0, front[..i]), front[i].call)
    {
      assert front[..i] == h[..i] && front[i] == h[i];
    }
  }

  // Order totals, direct reservations and remaining stock are worth what was
  // seeded plus the excess of every order: whatever the prices, and even if
  // totals wrap around.
  lemma {:induction false} ValueIsAccountedFor(db0: Store, h: seq<Op>)
    requires Initial(db0) && Legal(db0, h) && FreshHistory(db0, h)
    ensures Inventory(StateAfter(db0, h)) == StockValue(db0.cabinets) + ExcessOf(db0, h)
    decreases |h|
  {
    if h == [] {
      InitialValue(db0);
    } else {
      var front, op := h[..|h| - 1], h[|h| - 1];
      FreshFront(db0, h);
      if op.Commit? {
        LastIsFresh(db0, h);
      }
      ValueIsAccountedFor(db0, front);
      HistoryAgrees(db0, front);
      GrowsFromSeed(db0, front);
      LastValue(db0, StateAfter(db0, front), op, h);
    }
  }

  ghost predicate NothingIsNegative(db: Store) {
    forall c :: c in db.cabinets ==> 0 <= db.cabinets[c].price
  }

  ghost predicate NothingIsFree(db: Store) {
    forall c :: c in db.cabinets ==> 0 < db.cabinets[c].price
  }

  // The exact total of the order is an int64.
  ghost predicate TotalFits(db: Store, op: Op) {
    op.Commit? && op.call.req.Place? ==>
      var lines, prices := op.call.req.lines, Prices(db, op.call.req.lines);
      -TWO_63 <= Exact(lines, prices, |lines|) < TWO_63
  }

  ghost predicate RepeatsNone(op: Op) {
    op.Commit? && op.call.req.Place? ==> DistinctCabinets(op.call.req.lines)
  }

  ghost predicate TotalsFit(db: Store, h: seq<Op>) {
    forall i :: 0 <= i < |h| ==> TotalFits(db, h[i])
  }

  ghost predicate RepeatsNowhere(h: seq<Op>) {
    forall i :: 0 <= i < |h| ==> RepeatsNone(h[i])
  }

  // A total that fits exceeds the stock taken by the value of repeated lines.
  lemma ExcessMeansRepeats(db0: Store, db: Store, op: Op)
    requires Effective(db, op) && Grows(db0, db) && NothingIsNegative(db0) && TotalFits(db0, op)
    ensures Excess(db0, op) >= 0
    ensures RepeatsNone(op) ==> Excess(db0, op) == 0
    ensures NothingIsFree(db0) && Excess(db0, op) == 0 ==> RepeatsNone(op)
  {
    if op.Commit? && op.call.req.Place? {
      PerformWrites(db, op.call);
      assert AllListed(db0, op.call.req.lines);
      PlacedExcess(db0, op.call);
    }
  }

  lemma PlacedExcess(db0: Store, c: Call)
    requires ValidCall(c) && c.req.Place? && AllListed(db0, c.req.lines)
    requires NothingIsNegative(db0) && TotalFits(db0, Commit(c))
    ensures Excess(db0, Commit(c)) >= 0
    ensures DistinctCabinets(c.req.lines) ==> Excess(db0, Commit(c)) == 0
    ensures NothingIsFree(db0) && Excess(db0, Commit(c)) == 0 ==> DistinctCabinets(c.req.lines)
  {
    var lines, prices := c.req.lines, Prices(db0, c.req.lines);
    assert forall k :: 0 <= k < |lines| ==> lines[k] in lines;
    TotalExactExactlyWhen(lines, prices, |lines|);
    OnceVersusExact(lines, prices, |lines|);
    DistinctMeansNoneRepeated(lines);
  }

  lemma RepeatsFront(h: seq<Op>)
    requires h != []
    ensures RepeatsNowhere(h) <==> RepeatsNowhere(h[..|h| - 1]) && RepeatsNone(h[|h| - 1])
  {
  }

  lemma {:induction false} ExcessAddsUp(db0: Store, h: seq<Op>)
    requires Legal(db0, h) && NothingIsNegative(db0) && TotalsFit(db0, h)
    ensures ExcessOf(db0, h) >= 0
    ensures RepeatsNowhere(h) ==> ExcessOf(db0, h) == 0
    ensures NothingIsFree(db0) && ExcessOf(db0, h) == 0 ==> RepeatsNowhere(h)
    decreases |h|
  {
    if h != [] {
      var front, op := h[..|h| - 1], h[|h| - 1];
      ExcessAddsUp(db0, front);
      RepeatsFront(h);
      GrowsFromSeed(db0, front);
      ExcessMeansRepeats(db0, StateAfter(db0, front), op);
    }
  }

  // While totals fit, the value is at least what was seeded, exactly that if no
  // order repeats a cabinet, and only then if nothing is free.
  lemma ValueIsConserved(db0: Store, h: seq<Op>)
    requires Initial(db0) && Legal(db0, h) && FreshHistory(db0, h)
    requires NothingIsNegative(db0) && TotalsFit(db0, h)
    ensures Inventory(StateAfter(db0, h)) >= StockValue(db0.cabinets)
    ensures RepeatsNowhere(h) ==> Inventory(StateAfter(db0, h)) == StockValue(db0.cabinets)
    ensures NothingIsFree(db0) && Inventory(StateAfter(db0, h)) == StockValue(db0.cabinets) ==> RepeatsNowhere(h)
  {
    ValueIsAccountedFor(db0, h);
    ExcessAddsUp(db0, h);
  }
}
