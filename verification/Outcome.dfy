// Exactly when a CreateOrder under an unused key succeeds, and which error it
// gives otherwise.
module Outcome {
  import opened Tables
  import opened Replay
  import opened Spec
  import opened Value

  // Line k repeats an earlier cabinet with another quantity.
  ghost predicate Contradicts(lines: seq<Line>, k: nat)
    requires k < |lines|
  {
    exists j :: 0 <= j < k && lines[j].cabinetId == lines[k].cabinetId && lines[j].quantity != lines[k].quantity
  }

  // The cabinet of line k is unknown, or has too little stock for that one line.
  ghost predicate Short(db: Store, lines: seq<Line>, k: nat)
    requires k < |lines|
  {
    lines[k].cabinetId in db.cabinets ==> db.cabinets[lines[k].cabinetId].quantity < lines[k].quantity
  }

  ghost predicate Refuses(db: Store, lines: seq<Line>, k: nat)
    requires k < |lines|
  {
    Contradicts(lines, k) || Short(db, lines, k)
  }

  ghost predicate Feasible(db: Store, lines: seq<Line>, i: nat)
    requires i <= |lines|
  {
    forall k :: 0 <= k < i ==> !Refuses(db, lines, k)
  }

  lemma KnownKeyDecides(db: Store, w: Store, line: Line, key: string, r: Reservation)
    requires Visible(db.reservations, w.reservations, key) == Some(r)
    requires line.cabinetId == r.cabinetId && r.cabinetId in db.cabinets
    ensures ReserveOn(db, w, line, key).Ok? <==> r.quantity == line.quantity
    ensures r.quantity != line.quantity ==> ReserveOn(db, w, line, key) == Err(DuplicateReservation)
  {
  }

  lemma NewKeyDecides(db: Store, w: Store, line: Line, key: string)
    requires key !in w.reservations && key !in db.reservations && line.cabinetId !in w.cabinets
    ensures ReserveOn(db, w, line, key).Ok? <==> !Short(db, [line], 0)
    ensures Short(db, [line], 0) ==> ReserveOn(db, w, line, key) == Err(InsufficientStock)
  {
  }

  // A line for a cabinet that an earlier line took.
  lemma RepeatedLineDecides(db: Store, c: Call, i: nat, j: nat, w: Store)
    requires c.req.Place? && j < i < |c.req.lines| && FreshCall(db, c) && Feasible(db, c.req.lines, i)
    requires ReserveLines(db, c.req.lines, StockKeysOf(c), i) == Ok(w)
    requires c.req.lines[j].cabinetId == c.req.lines[i].cabinetId
    ensures ReserveOn(db, w, c.req.lines[i], StockKeysOf(c)[i]).Ok? <==> !Refuses(db, c.req.lines, i)
    ensures Refuses(db, c.req.lines, i) ==>
      ReserveOn(db, w, c.req.lines[i], StockKeysOf(c)[i]) == Err(DuplicateReservation) && Contradicts(c.req.lines, i)
  {
    var lines, key := c.req.lines, StockKeysOf(c)[i];
    SameKeySameCabinet(c, i, j);
    ReserveLinesRecord(db, lines, StockKeysOf(c), i, j);
    assert !Refuses(db, lines, j);
    KnownKeyDecides(db, w, lines[i], key, Reservation(lines[j].cabinetId, lines[j].quantity));
    SameCabinetSameQuantity(db, lines, i, j);
  }

  lemma SameCabinetSameQuantity(db: Store, lines: seq<Line>, i: nat, j: nat)
    requires j < i < |lines| && Feasible(db, lines, i) && lines[j].cabinetId == lines[i].cabinetId
    ensures Refuses(db, lines, i) <==> lines[j].quantity != lines[i].quantity
    ensures Contradicts(lines, i) <==> lines[j].quantity != lines[i].quantity
  {
    assert !Refuses(db, lines, j);
    forall k | 0 <= k < i && lines[k].cabinetId == lines[i].cabinetId ensures lines[k].quantity == lines[j].quantity {
      assert !Refuses(db, lines, k);
    }
  }

  // A line for a cabinet named for the first time.
  lemma FirstLineDecides(db: Store, c: Call, i: nat, w: Store)
    requires c.req.Place? && i < |c.req.lines| && FreshCall(db, c)
    requires ReserveLines(db, c.req.lines, StockKeysOf(c), i) == Ok(w)
    requires !Repeated(c.req.lines, i)
    ensures ReserveOn(db, w, c.req.lines[i], StockKeysOf(c)[i]).Ok? <==> !Refuses(db, c.req.lines, i)
    ensures Refuses(db, c.req.lines, i) ==>
      ReserveOn(db, w, c.req.lines[i], StockKeysOf(c)[i]) == Err(InsufficientStock) && Short(db, c.req.lines, i)
  {
    var lines, key := c.req.lines, StockKeysOf(c)[i];
    if key in w.reservations {
      var j := ReservationHasLine(db, lines, StockKeysOf(c), i, key);
      SameKeySameCabinet(c, i, j);
      assert false;
    }
    FreshDecrements(db, c, i);
    if lines[i].cabinetId in w.cabinets {
      NamedIsRepeated(db, lines, i, w);
      assert false;
    }
    NewKeyDecides(db, w, lines[i], key);
  }

  lemma NamedIsRepeated(db: Store, lines: seq<Line>, i: nat, w: Store)
    requires i < |lines| && OneDecrementPerCabinet(db, w, lines, i) && lines[i].cabinetId in w.cabinets
    ensures Repeated(lines, i)
  {
  }

  // The error of the first line that cannot be reserved.
  ghost predicate FirstRefusal(db: Store, lines: seq<Line>, i: nat, e: Error)
    requires i <= |lines|
  {
    exists k :: 0 <= k < i && Feasible(db, lines, k) && RefusedWith(db, lines, k, e)
  }

  ghost predicate RefusedWith(db: Store, lines: seq<Line>, k: nat, e: Error)
    requires k < |lines|
  {
    || (e == DuplicateReservation && Contradicts(lines, k))
    || (e == InsufficientStock && !Repeated(lines, k) && Short(db, lines, k))
  }

  lemma LineDecides(db: Store, c: Call, i: nat, w: Store)
    requires c.req.Place? && i < |c.req.lines| && FreshCall(db, c) && Feasible(db, c.req.lines, i)
    requires ReserveLines(db, c.req.lines, StockKeysOf(c), i) == Ok(w)
    ensures ReserveOn(db, w, c.req.lines[i], StockKeysOf(c)[i]).Ok? <==> !Refuses(db, c.req.lines, i)
    ensures ReserveOn(db, w, c.req.lines[i], StockKeysOf(c)[i]).Err? ==>
      RefusedWith(db, c.req.lines, i, ReserveOn(db, w, c.req.lines[i], StockKeysOf(c)[i]).error)
  {
    if Repeated(c.req.lines, i) {
      var j :| 0 <= j < i && c.req.lines[j].cabinetId == c.req.lines[i].cabinetId;
      RepeatedLineDecides(db, c, i, j, w);
    } else {
      FirstLineDecides(db, c, i, w);
    }
  }

  lemma {:induction false} LinesDecide(db: Store, c: Call, i: nat)
    requires c.req.Place? && i <= |c.req.lines| && FreshCall(db, c)
    ensures var r := ReserveLines(db, c.req.lines, StockKeysOf(c), i);
      && (r.Ok? <==> Feasible(db, c.req.lines, i))
      && (r.Err? ==> FirstRefusal(db, c.req.lines, i, r.error))
  {
    if i > 0 {
      var j := i - 1;
      LinesDecide(db, c, j);
      assert j + 1 == i;
      if ReserveLines(db, c.req.lines, StockKeysOf(c), j).Ok? {
        LineDecides(db, c, j, ReserveLines(db, c.req.lines, StockKeysOf(c), j).value);
      }
    }
  }

  // With fresh ids and an unused key, an order is placed if and only if every
  // cabinet exists, lines for one cabinet agree, and each line on its own is in
  // stock. Repeated lines need no stock of their own. The error is that of the
  // first line refused.
  lemma FreshOrderSucceedsExactlyWhen(db: Store, c: Call)
    requires ValidCall(c) && c.req.Place? && FreshCall(db, c)
    requires c.ids.orderId !in db.orders && c.req.key !in db.orderKeys
    requires ItemIdsFree(db, c.ids.itemIds) && c.ids.eventId !in db.outbox
    ensures var lines, r := c.req.lines, Perform(db, c, []);
      && (r.Ok? <==> Consistent(lines) && forall k :: 0 <= k < |lines| ==> !Short(db, lines, k))
      && (r == Err(NotFound) <==> !AllListed(db, lines))
      && (r.Err? && AllListed(db, lines) ==> FirstRefusal(db, lines, |lines|, r.error))
  {
    var lines := c.req.lines;
    LinesDecide(db, c, |lines|);
    if AllListed(db, lines) {
      FeasibleMeans(db, lines);
    } else {
      var k :| 0 <= k < |lines| && lines[k].cabinetId !in db.cabinets;
      assert Short(db, lines, k);
    }
  }

  lemma FeasibleMeans(db: Store, lines: seq<Line>)
    requires AllListed(db, lines)
    ensures Feasible(db, lines, |lines|) <==> Consistent(lines) && forall k :: 0 <= k < |lines| ==> !Short(db, lines, k)
  {
    if Feasible(db, lines, |lines|) {
      forall j, k | 0 <= j < k < |lines| && lines[j].cabinetId == lines[k].cabinetId
        ensures lines[j].quantity == lines[k].quantity
      {
        assert !Refuses(db, lines, k);
      }
      forall k | 0 <= k < |lines| ensures !Short(db, lines, k) {
        assert !Refuses(db, lines, k);
      }
    }
  }
}
