// The atomic system: committed transactions applied one after the other.
module History {
  import opened Tables
  import opened Spec

  datatype Op =
    | Commit(call: Call)     // a ReserveStock or CreateOrder that wrote something
    | MarkEvent(id: Id)      // the worker's UPDATE of published_at

  function Marked(db: Store, id: Id): Store
    requires id in db.outbox
  {
    db.(outbox := db.outbox[id := db.outbox[id].(published := true)])
  }

  ghost predicate Effective(db: Store, op: Op) {
    match op
    case Commit(c) => ValidCall(c) && Perform(db, c, []).Ok? && Perform(db, c, []).value.writes != NO_WRITES
    case MarkEvent(id) => id in db.outbox
  }

  ghost function ApplyOp(db: Store, op: Op): Store
    requires Effective(db, op)
  {
    match op
    case Commit(c) => Overlay(db, Perform(db, c, []).value.writes)
    case MarkEvent(id) => Marked(db, id)
  }

  // Every operation of the history succeeds when its turn comes.
  ghost predicate Legal(db0: Store, h: seq<Op>)
    decreases |h|, 0
  {
    h == [] ||
    var front := h[..|h| - 1];
    Legal(db0, front) && Effective(StateAfter(db0, front), h[|h| - 1])
  }

  ghost function StateAfter(db0: Store, h: seq<Op>): Store
    requires Legal(db0, h)
    decreases |h|, 1
  {
    if h == [] then db0
    else ApplyOp(StateAfter(db0, h[..|h| - 1]), h[|h| - 1])
  }

  // Freshly migrated tables with seeded cabinets.
  ghost predicate Initial(db: Store) {
    && (forall c :: c in db.cabinets ==> 0 <= db.cabinets[c].quantity)
    && db == NO_WRITES.(cabinets := db.cabinets)
  }

  lemma LegalSnoc(db0: Store, h: seq<Op>, op: Op)
    requires Legal(db0, h) && Effective(StateAfter(db0, h), op)
    ensures Legal(db0, h + [op])
    ensures StateAfter(db0, h + [op]) == ApplyOp(StateAfter(db0, h), op)
  {
  }

  lemma {:induction false} LegalPrefix(db0: Store, h: seq<Op>, i: nat)
    requires Legal(db0, h) && i <= |h|
    ensures Legal(db0, h[..i])
    decreases |h|
  {
    if i < |h| {
      LegalPrefix(db0, h[..|h| - 1], i);
      assert h[..|h| - 1][..i] == h[..i];
    } else {
      assert h[..i] == h;
    }
  }

  lemma LegalStep(db0: Store, h: seq<Op>, i: nat)
    requires Legal(db0, h) && i < |h|
    ensures Legal(db0, h[..i]) && Legal(db0, h[..i + 1]) && Effective(StateAfter(db0, h[..i]), h[i])
    ensures StateAfter(db0, h[..i + 1]) == ApplyOp(StateAfter(db0, h[..i]), h[i])
  {
    LegalPrefix(db0, h, i);
    LegalPrefix(db0, h, i + 1);
    assert h[..i + 1][..i] == h[..i];
  }

  // ---------------------------------------------------- what one call writes

  // A successful call that writes is a fresh reservation or a fresh order.
  lemma PerformWrites(db: Store, c: Call)
    requires ValidCall(c) && Perform(db, c, []).Ok? && Perform(db, c, []).value.writes != NO_WRITES
    ensures ClaimsFree(db, Perform(db, c, []).value.writes)
    ensures ReserveLines(db, LinesOf(c.req), StockKeysOf(c), |LinesOf(c.req)|).Ok?
    ensures var w := ReserveLines(db, LinesOf(c.req), StockKeysOf(c), |LinesOf(c.req)|).value;
      && StockOnly(db, w)
      && (c.req.Reserve? ==> Perform(db, c, []).value.writes == w && c.req.key in w.reservations)
      && (c.req.Place? ==>
            && OrderByKey(db, c.req.key).None?
            && AllListed(db, c.req.lines)
            && InsertOrder(db, w, c) == Perform(db, c, []))
  {
    var lines, keys := LinesOf(c.req), StockKeysOf(c);
    match c.req {
      case Reserve(line, key) =>
        assert ReserveLines(db, lines, keys, 0) == Ok(NO_WRITES);
        assert ReserveLines(db, lines, keys, 1).Ok?;
        ReserveOnWrites(db, NO_WRITES, line, key);
      case Place(_, _, key) =>
        assert OrderByKey(db, key).None?;
        ReserveLinesWrites(db, lines, keys, |lines|);
        ItemTableKeys(c, Prices(db, lines), |lines|);
    }
  }

  lemma ApplyGrows(db: Store, op: Op)
    requires Effective(db, op)
    ensures Grows(db, ApplyOp(db, op))
  {
    match op {
      case Commit(c) =>
        PerformWrites(db, c);
        OverlayGrows(db, Perform(db, c, []).value.writes);
      case MarkEvent(id) =>
    }
  }

  lemma StepGrows(db0: Store, h: seq<Op>, i: nat)
    requires Legal(db0, h) && i < |h|
    ensures Legal(db0, h[..i]) && Legal(db0, h[..i + 1])
    ensures Grows(StateAfter(db0, h[..i]), StateAfter(db0, h[..i + 1]))
  {
    LegalStep(db0, h, i);
    ApplyGrows(StateAfter(db0, h[..i]), h[i]);
  }

  lemma ExtendGrows(a: Store, db0: Store, h: seq<Op>, j: nat)
    requires Legal(db0, h) && j < |h| && Legal(db0, h[..j]) && Grows(a, StateAfter(db0, h[..j]))
    ensures Legal(db0, h[..j + 1]) && Grows(a, StateAfter(db0, h[..j + 1]))
  {
    StepGrows(db0, h, j);
    GrowsTransitive(a, StateAfter(db0, h[..j]), StateAfter(db0, h[..j + 1]));
  }

  lemma {:induction false} HistoryGrows(db0: Store, h: seq<Op>, i: nat, j: nat)
    requires Legal(db0, h) && i <= j <= |h|
    ensures Legal(db0, h[..i]) && Legal(db0, h[..j])
    ensures Grows(StateAfter(db0, h[..i]), StateAfter(db0, h[..j]))
    decreases j
  {
    LegalPrefix(db0, h, i);
    if i < j {
      HistoryGrows(db0, h, i, j - 1);
      ExtendGrows(StateAfter(db0, h[..i]), db0, h, j - 1);
    }
  }

  lemma GrowsFromSeed(db0: Store, h: seq<Op>)
    requires Legal(db0, h)
    ensures Grows(db0, StateAfter(db0, h))
  {
    HistoryGrows(db0, h, 0, |h|);
    assert h[..0] == [] && h[..|h|] == h;
  }
}
