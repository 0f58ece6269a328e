// What clients and operators can rely on, for every run of the interleaved
// system.
module Guarantees {
  import opened Tables
  import opened Money
  import opened Replay
  import opened Spec
  import opened History
  import opened Machine
  import opened Refinement
  import opened Ledger

  // ------------------------------------------------------- over single states

  // No run oversells: what is left and what is held add up to the seeded stock.
  lemma StockIsConserved(db0: Store, labels: seq<Label>, c: Id)
    requires Runs(db0, labels) && c in db0.cabinets
    ensures var db := After(db0, labels).db;
      && c in db.cabinets
      && db.cabinets[c].quantity + Held(db.reservations, c) == db0.cabinets[c].quantity
      && 0 <= db.cabinets[c].quantity <= db0.cabinets[c].quantity
  {
    RunInv(db0, labels);
    HistoryAgrees(db0, After(db0, labels).history);
    NeverOversold(db0, After(db0, labels).db, c);
  }

  // Orders and order.created rows correspond one to one; the header, the
  // payload and the lines tell the same amount, at the cabinets' prices.
  lemma OrdersAndEventsAgree(db0: Store, labels: seq<Label>)
    requires Runs(db0, labels)
    ensures var db := After(db0, labels).db;
      && (forall i :: i in db.items ==>
            && db.items[i].orderId in db.orders && db.items[i].cabinetId in db.cabinets
            && db.items[i].unitPriceCents == db.cabinets[db.items[i].cabinetId].price)
      && (forall o :: o in db.orders ==>
            && db.orders[o].totalCents == Wrap64(LineValue(db.items, o))
            && exists e :: e in db.outbox && db.outbox[e].aggregateId == o
                 && db.outbox[e].payload.orderId == o && db.outbox[e].payload.amountCents == db.orders[o].totalCents)
      && (forall e :: e in db.outbox ==> db.outbox[e].aggregateId in db.orders)
      && (forall e, e' :: e in db.outbox && e' in db.outbox && db.outbox[e].aggregateId == db.outbox[e'].aggregateId ==> e == e')
  {
    RunInv(db0, labels);
    var db := After(db0, labels).db;
    HistoryAgrees(db0, After(db0, labels).history);
    forall i | i in db.items ensures LineAgrees(db, db.items[i]) {
    }
    forall o | o in db.orders
      ensures db.orders[o].totalCents == Wrap64(LineValue(db.items, o))
      ensures exists e :: e in db.outbox && db.outbox[e].aggregateId == o
                && db.outbox[e].payload.orderId == o && db.outbox[e].payload.amountCents == db.orders[o].totalCents
    {
      assert OrderAgrees(db, o);
      var e :| e in db.outbox && db.outbox[e].aggregateId == o;
      assert EventTells(db, e, db.outbox[e]);
    }
    forall e | e in db.outbox ensures db.outbox[e].aggregateId in db.orders {
      assert EventTells(db, e, db.outbox[e]);
    }
  }

  lemma BilledVersusReservedInRuns(db0: Store, labels: seq<Label>, o: Id)
    requires Runs(db0, labels)
    ensures var db := After(db0, labels).db;
      var lines := LinesOfOrder(db, o);
      && (forall i :: i in lines ==> Backed(db, lines[i]))
      && HeldFor(db, o, CabinetsOf(lines)) <= Billed(lines)
      && (HeldFor(db, o, CabinetsOf(lines)) == Billed(lines) <==> !RepeatsCabinet(lines))
  {
    RunInv(db0, labels);
    BilledVersusReserved(db0, After(db0, labels).history, o);
  }

  // ---------------------------------------------------------- over whole runs

  lemma HistoryExtends(s: State, l: Label)
    requires Enabled(s, l)
    ensures s.history <= Next(s, l).history
  {
  }

  lemma {:induction false} RunPrefix(db0: Store, labels: seq<Label>, i: nat)
    requires Runs(db0, labels) && i <= |labels|
    ensures Runs(db0, labels[..i])
    ensures After(db0, labels[..i]).history <= After(db0, labels).history
    decreases |labels|
  {
    if i == |labels| {
      assert labels[..i] == labels;
    } else {
      var front := labels[..|labels| - 1];
      RunPrefix(db0, front, i);
      assert front[..i] == labels[..i];
      HistoryExtends(After(db0, front), labels[|labels| - 1]);
    }
  }

  // Committed rows only grow: nothing is deleted or rewritten, prices stay, and
  // a published event never becomes unpublished again.
  lemma CommittedRowsOnlyGrow(db0: Store, labels: seq<Label>, i: nat)
    requires Runs(db0, labels) && i <= |labels|
    ensures Runs(db0, labels[..i])
    ensures Grows(After(db0, labels[..i]).db, After(db0, labels).db)
  {
    RunPrefix(db0, labels, i);
    RunInv(db0, labels);
    RunInv(db0, labels[..i]);
    var h, n := After(db0, labels).history, |After(db0, labels[..i]).history|;
    assert h[..n] == After(db0, labels[..i]).history && h[..|h|] == h;
    HistoryGrows(db0, h, n, |h|);
  }

  ghost predicate PlacesKey(op: Op, key: string) {
    op.Commit? && op.call.req.Place? && op.call.req.key == key
  }

  ghost predicate ReservesKey(op: Op, key: string) {
    op.Commit? && op.call.req.Reserve? && op.call.req.key == key
  }

  // A key enters its unique index with the first operation that uses it, and
  // no operation that finds it there takes effect.
  lemma KeyUse(db: Store, op: Op, key: string)
    requires Effective(db, op)
    ensures PlacesKey(op, key) ==> key !in db.orderKeys && key in ApplyOp(db, op).orderKeys
    ensures ReservesKey(op, key) ==> key !in db.reservations && key in ApplyOp(db, op).reservations
    ensures key in ApplyOp(db, op).orderKeys ==> key in db.orderKeys || PlacesKey(op, key)
  {
    if op.Commit? {
      PerformWrites(db, op.call);
      if op.call.req.Place? {
        FreshOrderRows(db, op.call);
      }
    }
  }

  lemma AtMostOnce(db0: Store, h: seq<Op>, i: nat, j: nat, key: string)
    requires Legal(db0, h) && i < j < |h|
    ensures !(PlacesKey(h[i], key) && PlacesKey(h[j], key))
    ensures !(ReservesKey(h[i], key) && ReservesKey(h[j], key))
  {
    LegalStep(db0, h, i);
    LegalStep(db0, h, j);
    KeyUse(StateAfter(db0, h[..i]), h[i], key);
    KeyUse(StateAfter(db0, h[..j]), h[j], key);
    HistoryGrows(db0, h, i + 1, j);
  }

  lemma {:induction false} KeyHasOperation(db0: Store, h: seq<Op>, key: string)
    requires Initial(db0) && Legal(db0, h)
    ensures key in StateAfter(db0, h).orderKeys ==> exists i :: 0 <= i < |h| && PlacesKey(h[i], key)
    ensures (exists i :: 0 <= i < |h| && PlacesKey(h[i], key)) ==> key in StateAfter(db0, h).orderKeys
    decreases |h|
  {
    if h != [] {
      var front := h[..|h| - 1];
      KeyHasOperation(db0, front, key);
      KeyUse(StateAfter(db0, front), h[|h| - 1], key);
      ApplyGrows(StateAfter(db0, front), h[|h| - 1]);
      if key in StateAfter(db0, front).orderKeys {
        var i :| 0 <= i < |front| && PlacesKey(front[i], key);
        assert PlacesKey(h[i], key);
      }
      if i :| 0 <= i < |h| && PlacesKey(h[i], key) {
        if i < |front| {
          assert PlacesKey(front[i], key);
        }
      }
    }
  }

  // The order an atomic call answers with is the one its key resolves to.
  lemma AnswerNamesOrder(db: Store, a: Answer)
    requires Explains(db, a) && a.call.req.Place? && !a.wrote
    ensures OrderByKey(db, a.call.req.key) == Some(a.reply.order) && a.reply.Placed?
  {
    if OrderByKey(db, a.call.req.key).None? {
      FreshOrderWritesEvent(db, a.call, a.rows);
      assert false;
    }
  }

  lemma FreshOrderWritesEvent(db: Store, c: Call, rows: seq<ItemRow>)
    requires ValidCall(c) && c.req.Place? && OrderByKey(db, c.req.key).None? && Perform(db, c, rows).Ok?
    ensures c.ids.eventId in Perform(db, c, rows).value.writes.outbox
  {
  }

  lemma FreshAnswerNamesOrder(db: Store, a: Answer)
    requires Explains(db, a) && a.call.req.Place? && a.wrote && a.rows == [] && Effective(db, Commit(a.call))
    ensures a.reply.Placed? && OrderByKey(ApplyOp(db, Commit(a.call)), a.call.req.key) == Some(a.reply.order)
  {
    PerformWrites(db, a.call);
    FreshOrderRows(db, a.call);
  }

  lemma AnswerNamesFinalOrder(db0: Store, h: seq<Op>, a: Answer)
    requires Legal(db0, h) && Justified(db0, h, a) && a.call.req.Place?
    ensures a.reply.Placed? && OrderByKey(StateAfter(db0, h), a.call.req.key) == Some(a.reply.order)
  {
    var n := if a.wrote then a.at + 1 else a.at;
    if a.wrote {
      LegalStep(db0, h, a.at);
      FreshAnswerNamesOrder(StateAfter(db0, h[..a.at]), a);
    } else {
      AnswerNamesOrder(StateAfter(db0, h[..a.at]), a);
    }
    HistoryGrows(db0, h, n, |h|);
    assert h[..|h|] == h;
  }

  // CreateOrder has its effect at most once per key, whatever is retried,
  // raced, aborted or left unacknowledged; and all successful replies for a key
  // name one order, with one total.
  lemma ExactlyOnce(db0: Store, labels: seq<Label>, key: string)
    requires Runs(db0, labels)
    ensures var s := After(db0, labels);
      && (forall i, j ::
            0 <= i < |s.history| && 0 <= j < |s.history| && PlacesKey(s.history[i], key) && PlacesKey(s.history[j], key)
            ==> i == j)
      && (key in s.db.orderKeys <==> exists i :: 0 <= i < |s.history| && PlacesKey(s.history[i], key))
      && (forall o, p ::
            o in s.db.orders && p in s.db.orders && s.db.orders[o].key == key && s.db.orders[p].key == key
            ==> o == p)
      && (forall a :: a in s.answers && a.call.req.Place? && a.call.req.key == key ==>
            a.reply.Placed? && OrderByKey(s.db, key) == Some(a.reply.order))
  {
    RunInv(db0, labels);
    var s := After(db0, labels);
    var h := s.history;
    forall i, j | 0 <= i < |h| && 0 <= j < |h| && PlacesKey(h[i], key) && PlacesKey(h[j], key)
      ensures i == j
    {
      if i < j { AtMostOnce(db0, h, i, j, key); }
      if j < i { AtMostOnce(db0, h, j, i, key); }
    }
    KeyHasOperation(db0, h, key);
    HistoryAgrees(db0, h);
    forall a | a in s.answers && a.call.req.Place? && a.call.req.key == key
      ensures a.reply.Placed? && OrderByKey(s.db, key) == Some(a.reply.order)
    {
      AnswerNamesFinalOrder(db0, h, a);
    }
  }

  // No operation of the history uses a reservation key that was committed
  // before it.
  lemma CommittedKeyIsNotReused(db0: Store, h: seq<Op>, n: nat, j: nat, key: string)
    requires Legal(db0, h) && n <= j < |h| && Legal(db0, h[..n]) && key in StateAfter(db0, h[..n]).reservations
    ensures !ReservesKey(h[j], key)
  {
    LegalStep(db0, h, j);
    HistoryGrows(db0, h, n, j);
    KeyUse(StateAfter(db0, h[..j]), h[j], key);
  }

  lemma KnownReservationDecides(db: Store, line: Line, key: string)
    requires key in db.reservations && db.reservations[key].cabinetId in db.cabinets
    ensures var r := db.reservations[key];
      && (r == Reservation(line.cabinetId, line.quantity) ==>
            line.cabinetId in db.cabinets
            && ReserveSpec(db, line, key) == Ok(Done(NO_WRITES, Reserved(line.cabinetId, db.cabinets[line.cabinetId]))))
      && (r != Reservation(line.cabinetId, line.quantity) ==> ReserveSpec(db, line, key) == Err(DuplicateReservation))
  {
  }

  // Once a reservation key is committed, later calls with it never write again:
  // the atomic answer is the same reservation's cabinet, or ErrDuplicateReservation
  // if the parameters differ.
  lemma ReservationIsIdempotent(db0: Store, labels: seq<Label>, i: nat, line: Line, key: string)
    requires Runs(db0, labels) && i <= |labels| && Runs(db0, labels[..i])
    requires key in After(db0, labels[..i]).db.reservations
    ensures var s, r := After(db0, labels), After(db0, labels[..i]).db.reservations[key];
      && key in s.db.reservations && s.db.reservations[key] == r
      && (r == Reservation(line.cabinetId, line.quantity) ==>
            line.cabinetId in s.db.cabinets
            && ReserveSpec(s.db, line, key) == Ok(Done(NO_WRITES, Reserved(line.cabinetId, s.db.cabinets[line.cabinetId]))))
      && (r != Reservation(line.cabinetId, line.quantity) ==>
            ReserveSpec(s.db, line, key) == Err(DuplicateReservation))
      && forall j :: |After(db0, labels[..i]).history| <= j < |s.history| ==> !ReservesKey(s.history[j], key)
  {
    CommittedRowsOnlyGrow(db0, labels, i);
    RunPrefix(db0, labels, i);
    RunInv(db0, labels);
    RunInv(db0, labels[..i]);
    var h, n := After(db0, labels).history, |After(db0, labels[..i]).history|;
    HistoryAgrees(db0, h);
    KnownReservationDecides(After(db0, labels).db, line, key);
    assert h[..n] == After(db0, labels[..i]).history;
    forall j | n <= j < |h| ensures !ReservesKey(h[j], key) {
      CommittedKeyIsNotReused(db0, h, n, j, key);
    }
  }

  // ------------------------------------------------------------------ replay

  lemma ListedLinesConsistent(db: Store, o: Id, rows: seq<ItemRow>)
    requires LinesAgree(db) && Lists(db, o, rows)
    ensures Consistent(StoredLines(rows))
  {
  }

  // A repeated request is accepted exactly when it comes from the same user and
  // its lines are as many as the stored ones and all among them, whatever row
  // order the database lists; in particular for every permutation.
  lemma ReplayAcceptance(db0: Store, labels: seq<Label>, c: Call, rows: seq<ItemRow>)
    requires Runs(db0, labels) && ValidCall(c) && c.req.Place?
    requires var db := After(db0, labels).db;
      OrderByKey(db, c.req.key).Some? && Lists(db, OrderByKey(db, c.req.key).value.id, rows)
    ensures var db := After(db0, labels).db;
      var found, stored := OrderByKey(db, c.req.key).value, StoredLines(rows);
      var accepted := found.order.userId == c.req.userId && |stored| == |c.req.lines|
                      && forall l :: l in c.req.lines ==> l in stored;
      && Perform(db, c, rows) == (if accepted then Ok(Done(NO_WRITES, Placed(found, rows))) else Err(DuplicateOrder))
      && (found.order.userId == c.req.userId && Permuted(stored, c.req.lines) ==> accepted)
      && (accepted && DistinctCabinets(c.req.lines) ==> Permuted(stored, c.req.lines))
  {
    RunInv(db0, labels);
    var db := After(db0, labels).db;
    HistoryAgrees(db0, After(db0, labels).history);
    var found, stored := OrderByKey(db, c.req.key).value, StoredLines(rows);
    ListedLinesConsistent(db, found.id, rows);
    AcceptsIffMembers(stored, c.req.lines);
    if Permuted(stored, c.req.lines) {
      PermutationAcceptedIffConsistent(stored, c.req.lines);
    }
    if Accepts(stored, c.req.lines) && DistinctCabinets(c.req.lines) {
      AcceptedDistinctRequestIsPermutation(stored, c.req.lines);
    }
  }
}
