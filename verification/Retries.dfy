// Repeated calls under a key that is committed. A repeated call is Late if it
// looked the key up before the key's owner committed; such a call is never
// answered. Every other one is answered if its parameters are those of the
// original, and otherwise refused as a duplicate.
module Retries {
  import opened Tables
  import opened Spec
  import opened History
  import opened Machine
  import opened TxProof
  import opened Refinement
  import opened Ledger
  import opened Guarantees
  import opened Replies

  ghost predicate KeyCommitted(db: Store, c: Call) {
    match c.req
    case Reserve(_, key) => key in db.reservations
    case Place(_, _, key) => key in db.orderKeys
  }

  // The transaction passed its lookup of the key without finding it.
  predicate PastLookup(tx: Tx) {
    match tx.call.req
    case Reserve(_, _) => tx.pc.Take? || tx.pc.Record?
    case Place(_, _, _) => !tx.pc.Lookup? && !tx.pc.List?
  }

  ghost predicate Late(db: Store, tx: Tx) {
    KeyCommitted(db, tx.call) && PastLookup(tx)
  }

  ghost function LinesStored(db: Store, o: Id): set<Id> {
    set id | id in db.items && db.items[id].orderId == o
  }

  ghost predicate HasLine(db: Store, o: Id, line: Line) {
    exists id :: id in db.items && db.items[id].orderId == o
              && Line(db.items[id].cabinetId, db.items[id].quantity) == line
  }

  // The call repeats what is committed under its key: the same reservation; or
  // an order of the same user with as many lines, all of them stored.
  ghost predicate Same(db: Store, c: Call)
    requires KeyCommitted(db, c)
  {
    match c.req
    case Reserve(line, key) => db.reservations[key] == Reservation(line.cabinetId, line.quantity)
    case Place(userId, lines, key) =>
      var o := db.orderKeys[key];
      && o in db.orders && db.orders[o].userId == userId
      && |LinesStored(db, o)| == |lines|
      && forall l :: l in lines ==> HasLine(db, o, l)
  }

  function DuplicateOf(c: Call): Error {
    if c.req.Reserve? then DuplicateReservation else DuplicateOrder
  }

  // ------------------------------------------------------ what a listing shows

  ghost function IdsListed(rows: seq<ItemRow>): set<Id> {
    set row | row in rows :: row.id
  }

  lemma {:induction false} DistinctRows(rows: seq<ItemRow>)
    requires forall i, j :: 0 <= i < j < |rows| ==> rows[i].id != rows[j].id
    ensures |IdsListed(rows)| == |rows|
  {
    if rows != [] {
      var front, last := rows[..|rows| - 1], rows[|rows| - 1];
      DistinctRows(front);
      assert rows == front + [last];
      assert IdsListed(rows) == IdsListed(front) + {last.id};
      assert last.id !in IdsListed(front);
    }
  }

  lemma ListingSize(db: Store, o: Id, rows: seq<ItemRow>)
    requires Lists(db, o, rows)
    ensures |rows| == |LinesStored(db, o)|
  {
    DistinctRows(rows);
    forall id | id in LinesStored(db, o) ensures id in IdsListed(rows) {
      assert ItemRow(id, db.items[id]) in rows;
    }
    assert IdsListed(rows) == LinesStored(db, o);
  }

  lemma ListingLines(db: Store, o: Id, rows: seq<ItemRow>, line: Line)
    requires Lists(db, o, rows)
    ensures line in StoredLines(rows) <==> HasLine(db, o, line)
  {
    if line in StoredLines(rows) {
      var i :| 0 <= i < |rows| && StoredLines(rows)[i] == line;
      assert db.items[rows[i].id].orderId == o;
    }
    if HasLine(db, o, line) {
      var id :| id in db.items && db.items[id].orderId == o
             && Line(db.items[id].cabinetId, db.items[id].quantity) == line;
      var i :| 0 <= i < |rows| && rows[i] == ItemRow(id, db.items[id]);
      assert StoredLines(rows)[i] == line;
    }
  }

  // Whatever rows are listed, the replay succeeds exactly for a call that
  // repeats the stored order.
  lemma ReplayDecides(db0: Store, labels: seq<Label>, c: Call, rows: seq<ItemRow>)
    requires Runs(db0, labels) && ValidCall(c) && c.req.Place?
    requires var db := After(db0, labels).db;
      KeyCommitted(db, c) && OrderByKey(db, c.req.key).Some? && Lists(db, OrderByKey(db, c.req.key).value.id, rows)
    ensures var db := After(db0, labels).db;
      ReplayOf(OrderByKey(db, c.req.key).value, c.req, rows).Ok? <==> Same(db, c)
  {
    ReplayAcceptance(db0, labels, c, rows);
    var db := After(db0, labels).db;
    var o := db.orderKeys[c.req.key];
    ListingSize(db, o, rows);
    forall l | l in c.req.lines ensures l in StoredLines(rows) <==> HasLine(db, o, l) {
      ListingLines(db, o, rows, l);
    }
  }

  // ---------------------------------------- late calls can only be refused

  lemma HeaderClaimsKey(db: Store, tx: Tx)
    requires TxInv(db, tx) && tx.call.req.Place? && (tx.pc.InsertLine? || tx.pc.InsertEvent? || tx.pc.Finish?)
    ensures tx.call.req.key in tx.w.orderKeys && tx.call.req.key !in db.orderKeys
  {
  }

  // A late transaction has not finished, its next statement does not answer,
  // and it stays late as long as it is not refused.
  lemma LateStays(db: Store, tx: Tx, rows: seq<ItemRow>, at: nat)
    requires TxInv(db, tx) && Late(db, tx)
    ensures !tx.pc.Finish? && !Execute(db, tx, rows, at).Replied?
    ensures Execute(db, tx, rows, at).Continue? ==> Late(db, Execute(db, tx, rows, at).tx)
  {
    if tx.call.req.Place? && (tx.pc.InsertLine? || tx.pc.InsertEvent? || tx.pc.Finish?) {
      HeaderClaimsKey(db, tx);
      assert false;
    }
    if tx.call.req.Reserve? && tx.pc.Record? {
      assert StockKeysOf(tx.call)[tx.pc.i] == tx.call.req.key;
    }
  }

  // The step l gives the transaction t its successful reply.
  ghost predicate Answers(s: State, l: Label, t: TxId) {
    match l
    case Statement(u, rows) =>
      u == t && t in s.txs && WellPlaced(s.txs[t]) && !s.txs[t].pc.Finish?
      && Execute(s.db, s.txs[t], rows, |s.history|).Replied?
    case CommitTx(u, acked) => u == t && acked
    case _ => false
  }

  ghost predicate NotBegunAgain(labels: seq<Label>, n: nat, t: TxId) {
    forall j :: n <= j < |labels| && labels[j].Begin? ==> labels[j].t != t
  }

  ghost predicate LateAt(s: State, t: TxId) {
    t in s.txs ==> Late(s.db, s.txs[t])
  }

  lemma CommitGrows(db0: Store, s: State, u: TxId, acked: bool)
    requires Inv(db0, s) && Enabled(s, CommitTx(u, acked))
    ensures Grows(s.db, Next(s, CommitTx(u, acked)).db)
  {
    OverlayGrows(s.db, s.txs[u].w);
  }

  // What is known under a key stays known.
  ghost predicate KnowsMore(db: Store, db': Store) {
    && (forall k :: k in db.reservations ==> k in db'.reservations && db'.reservations[k] == db.reservations[k])
    && (forall k :: k in db.orderKeys ==> k in db'.orderKeys && db'.orderKeys[k] == db.orderKeys[k])
  }

  lemma StepKnowsMore(db0: Store, s: State, l: Label)
    requires Inv(db0, s) && Enabled(s, l)
    ensures KnowsMore(s.db, Next(s, l).db)
  {
    if l.CommitTx? {
      CommitGrows(db0, s, l.t, l.acked);
    }
  }

  lemma LateStatement(s: State, t: TxId, rows: seq<ItemRow>)
    requires Enabled(s, Statement(t, rows)) && TxInv(s.db, s.txs[t]) && Late(s.db, s.txs[t])
    ensures LateAt(Next(s, Statement(t, rows)), t) && !Answers(s, Statement(t, rows), t)
  {
    LateStays(s.db, s.txs[t], rows, |s.history|);
    ExecuteKeepsCall(s.db, s.txs[t], rows, |s.history|);
  }

  lemma LateStep(db0: Store, s: State, l: Label, t: TxId)
    requires Inv(db0, s) && Enabled(s, l) && LateAt(s, t) && (l.Begin? ==> l.t != t)
    ensures LateAt(Next(s, l), t) && !Answers(s, l, t)
  {
    if t in s.txs && l.Statement? && l.t == t {
      LateStatement(s, t, l.rows);
    } else {
      StepKnowsMore(db0, s, l);
      if t in s.txs {
        LateStays(s.db, s.txs[t], [], 0);
      }
      if t in Next(s, l).txs {
        OthersStand(s, l, t);
      }
    }
  }

  // No step from the n-th on answers t.
  ghost predicate NeverAnswered(db0: Store, labels: seq<Label>, n: nat, t: TxId)
    requires Runs(db0, labels)
    decreases |labels|
  {
    |labels| <= n ||
    var front := labels[..|labels| - 1];
    NeverAnswered(db0, front, n, t) && !Answers(After(db0, front), labels[|labels| - 1], t)
  }

  // Over the rest of any run, a late call stays late until it is gone, and no
  // step answers it.
  lemma {:induction false} LateNeverAnswered(db0: Store, labels: seq<Label>, n: nat, t: TxId)
    requires Runs(db0, labels) && n <= |labels| && NotBegunAgain(labels, n, t)
    requires Runs(db0, labels[..n]) && LateAt(After(db0, labels[..n]), t)
    ensures LateAt(After(db0, labels), t) && NeverAnswered(db0, labels, n, t)
    decreases |labels|
  {
    if n == |labels| {
      assert labels[..n] == labels;
    } else {
      var front := labels[..|labels| - 1];
      assert front[..n] == labels[..n];
      LateNeverAnswered(db0, front, n, t);
      RunInv(db0, front);
      LateStep(db0, After(db0, front), labels[|labels| - 1], t);
    }
  }

  // ------------------------------------- every other repeated call is decided

  // The key is committed and the call has not gone past its lookup; a call with
  // other parameters has not even passed the comparison.
  ghost predicate Informed(db: Store, tx: Tx) {
    && KeyCommitted(db, tx.call)
    && !PastLookup(tx)
    && (tx.call.req.Reserve? && !Same(db, tx.call) ==> tx.pc.Find?)
  }

  ghost predicate InformedAt(s: State, t: TxId, c: Call) {
    t in s.txs ==> s.txs[t].call == c && Informed(s.db, s.txs[t])
  }

  lemma InformedReserve(db: Store, tx: Tx, rows: seq<ItemRow>, at: nat)
    requires TxInv(db, tx) && tx.call.req.Reserve? && Informed(db, tx) && !tx.pc.Finish?
    requires forall k :: k in db.reservations ==> db.reservations[k].cabinetId in db.cabinets
    ensures Execute(db, tx, rows, at).Refused? <==> tx.pc.Find? && !Same(db, tx.call)
    ensures Execute(db, tx, rows, at).Refused? ==> Execute(db, tx, rows, at).error == DuplicateReservation
    ensures Execute(db, tx, rows, at).Continue? ==> Informed(db, Execute(db, tx, rows, at).tx)
  {
    assert StockKeysOf(tx.call)[tx.pc.i] == tx.call.req.key;
  }

  // same: the outcome of the comparison.
  lemma InformedOrder(db: Store, tx: Tx, rows: seq<ItemRow>, at: nat, same: bool)
    requires WellPlaced(tx) && tx.call.req.Place? && Informed(db, tx)
    requires tx.pc.Lookup? ==> OrderByKey(db, tx.call.req.key).Some?
    requires tx.pc.List? ==> (ReplayOf(tx.pc.found, tx.call.req, rows).Ok? <==> same)
    ensures Execute(db, tx, rows, at).Refused? <==> tx.pc.List? && !same
    ensures Execute(db, tx, rows, at).Refused? ==> Execute(db, tx, rows, at).error == DuplicateOrder
    ensures Execute(db, tx, rows, at).Continue? ==> Informed(db, Execute(db, tx, rows, at).tx)
  {
  }

  // The next statement of an informed call is refused exactly when it compares
  // and the parameters differ, and then as a duplicate.
  lemma InformedStatement(db0: Store, labels: seq<Label>, t: TxId, rows: seq<ItemRow>)
    requires Runs(db0, labels) && Enabled(After(db0, labels), Statement(t, rows))
    requires Informed(After(db0, labels).db, After(db0, labels).txs[t])
    ensures var s := After(db0, labels); var tx := s.txs[t];
      var r := Execute(s.db, tx, rows, |s.history|);
      && (r.Refused? <==> (tx.pc.Find? || tx.pc.List?) && !Same(s.db, tx.call))
      && (r.Refused? ==> r.error == DuplicateOf(tx.call))
      && (r.Continue? ==> Informed(s.db, r.tx))
  {
    RunInv(db0, labels);
    var s := After(db0, labels);
    var tx := s.txs[t];
    HistoryAgrees(db0, s.history);
    if tx.call.req.Reserve? {
      InformedReserve(s.db, tx, rows, |s.history|);
    } else {
      if tx.pc.List? {
        ReplayDecides(db0, labels, tx.call, rows);
      }
      InformedOrder(s.db, tx, rows, |s.history|, Same(s.db, tx.call));
    }
  }

  // So a call with equal parameters that did not miss the key is refused at no
  // statement of any run.
  lemma RetryIsNotRefused(db0: Store, labels: seq<Label>, t: TxId, rows: seq<ItemRow>)
    requires Runs(db0, labels) && Enabled(After(db0, labels), Statement(t, rows))
    requires var s := After(db0, labels); var tx := s.txs[t];
      KeyCommitted(s.db, tx.call) && Same(s.db, tx.call) && !Late(s.db, tx)
    ensures var s := After(db0, labels); !Execute(s.db, s.txs[t], rows, |s.history|).Refused?
  {
    InformedStatement(db0, labels, t, rows);
  }

  lemma InformedStays(db: Store, db': Store, tx: Tx)
    requires Informed(db, tx) && KnowsMore(db, db')
    ensures Informed(db', tx)
  {
  }

  lemma InformedStep(db0: Store, labels: seq<Label>, l: Label, t: TxId, c: Call)
    requires Runs(db0, labels) && Enabled(After(db0, labels), l) && (l.Begin? ==> l.t != t)
    requires InformedAt(After(db0, labels), t, c)
    ensures InformedAt(Next(After(db0, labels), l), t, c)
  {
    var s := After(db0, labels);
    if t in s.txs && l.Statement? && l.t == t {
      InformedStatement(db0, labels, t, l.rows);
      ExecuteKeepsCall(s.db, s.txs[t], l.rows, |s.history|);
    } else if t in Next(s, l).txs {
      RunInv(db0, labels);
      StepKnowsMore(db0, s, l);
      OthersStand(s, l, t);
      InformedStays(s.db, Next(s, l).db, s.txs[t]);
    }
  }

  lemma {:induction false} InformedAlong(db0: Store, labels: seq<Label>, n: nat, t: TxId, c: Call)
    requires Runs(db0, labels) && n <= |labels| && NotBegunAgain(labels, n, t)
    requires Runs(db0, labels[..n]) && InformedAt(After(db0, labels[..n]), t, c)
    ensures InformedAt(After(db0, labels), t, c)
    decreases |labels|
  {
    if n == |labels| {
      assert labels[..n] == labels;
    } else {
      var front := labels[..|labels| - 1];
      assert front[..n] == labels[..n];
      InformedAlong(db0, front, n, t, c);
      InformedStep(db0, front, labels[|labels| - 1], t, c);
    }
  }

  // A call that begins, at the i-th step, when its key is committed is informed
  // for as long as it lives, whatever runs beside it.
  lemma RetryIsNeverLate(db0: Store, labels: seq<Label>, i: nat, t: TxId)
    requires Runs(db0, labels) && i < |labels| && NotBegunAgain(labels, i + 1, t)
    requires labels[i].Begin? && labels[i].t == t
    requires Runs(db0, labels[..i]) && KeyCommitted(After(db0, labels[..i]).db, labels[i].call)
    ensures var s := After(db0, labels);
      t in s.txs ==> s.txs[t].call == labels[i].call && Informed(s.db, s.txs[t]) && !Late(s.db, s.txs[t])
  {
    RunPrefix(db0, labels, i + 1);
    assert labels[..i + 1][..i] == labels[..i];
    InformedAlong(db0, labels, i + 1, t, labels[i].call);
  }

  // ------------------------------------------- what is stored does not change

  lemma OrderLinesStay(db: Store, op: Op, o: Id)
    requires Effective(db, op) && o in db.orders
    ensures LinesStored(ApplyOp(db, op), o) == LinesStored(db, o)
    ensures forall id :: id in LinesStored(db, o) ==>
              id in db.items && id in ApplyOp(db, op).items && ApplyOp(db, op).items[id] == db.items[id]
  {
    ApplyGrows(db, op);
    var db' := ApplyOp(db, op);
    forall id | id in db'.items && id !in db.items ensures db'.items[id].orderId != o {
      NoLineIsAdded(db, op, o, id);
    }
  }

  lemma LineStays(db: Store, db': Store, o: Id, line: Line)
    requires LinesStored(db', o) == LinesStored(db, o)
    requires forall id :: id in LinesStored(db, o) ==> id in db.items && id in db'.items && db'.items[id] == db.items[id]
    ensures HasLine(db', o, line) <==> HasLine(db, o, line)
  {
    if HasLine(db', o, line) {
      var id :| id in db'.items && db'.items[id].orderId == o
             && Line(db'.items[id].cabinetId, db'.items[id].quantity) == line;
      assert id in LinesStored(db', o);
    }
    if HasLine(db, o, line) {
      var id :| id in db.items && db.items[id].orderId == o
             && Line(db.items[id].cabinetId, db.items[id].quantity) == line;
      assert id in LinesStored(db, o);
    }
  }

  lemma SameStays(db: Store, op: Op, c: Call)
    requires Aggregates(db) && Effective(db, op) && KeyCommitted(db, c)
    ensures KeyCommitted(ApplyOp(db, op), c) && (Same(ApplyOp(db, op), c) <==> Same(db, c))
  {
    ApplyGrows(db, op);
    if c.req.Place? {
      var o := db.orderKeys[c.req.key];
      OrderLinesStay(db, op, o);
      forall l | l in c.req.lines ensures HasLine(ApplyOp(db, op), o, l) <==> HasLine(db, o, l) {
        LineStays(db, ApplyOp(db, op), o, l);
      }
    }
  }

  ghost predicate SameIn(a: Store, b: Store, c: Call) {
    KeyCommitted(a, c) && KeyCommitted(b, c) && (Same(a, c) <==> Same(b, c))
  }

  lemma SameInBoth(a: Store, b: Store, op: Op, c: Call)
    requires SameIn(a, b, c) && Aggregates(b) && Effective(b, op)
    ensures SameIn(a, ApplyOp(b, op), c)
  {
    SameStays(b, op, c);
  }

  lemma {:induction false} SameAlong(db0: Store, h: seq<Op>, i: nat, j: nat, c: Call)
    requires Initial(db0) && Legal(db0, h) && i <= j <= |h| && Legal(db0, h[..i])
    requires KeyCommitted(StateAfter(db0, h[..i]), c)
    ensures Legal(db0, h[..j]) && SameIn(StateAfter(db0, h[..i]), StateAfter(db0, h[..j]), c)
    decreases j
  {
    if i == j {
      assert SameIn(StateAfter(db0, h[..i]), StateAfter(db0, h[..i]), c);
    } else {
      var m := j - 1;
      SameAlong(db0, h, i, m, c);
      LegalStep(db0, h, m);
      HistoryAgrees(db0, h[..m]);
      SameInBoth(StateAfter(db0, h[..i]), StateAfter(db0, h[..m]), h[m], c);
    }
  }

  lemma SameInRuns(db0: Store, labels: seq<Label>, i: nat, c: Call)
    requires Runs(db0, labels) && i <= |labels| && Runs(db0, labels[..i])
    requires KeyCommitted(After(db0, labels[..i]).db, c)
    ensures KeyCommitted(After(db0, labels).db, c)
    ensures Same(After(db0, labels).db, c) <==> Same(After(db0, labels[..i]).db, c)
  {
    RunPrefix(db0, labels, i);
    RunInv(db0, labels);
    RunInv(db0, labels[..i]);
    var h, n := After(db0, labels).history, |After(db0, labels[..i]).history|;
    assert h[..n] == After(db0, labels[..i]).history && h[..|h|] == h;
    SameAlong(db0, h, n, |h|, c);
  }

  // Such a retry is refused at no statement if it repeats what was committed
  // when it began, and otherwise never answered and refused as a duplicate.
  lemma RetryOutcome(db0: Store, labels: seq<Label>, i: nat, t: TxId, rows: seq<ItemRow>)
    requires Runs(db0, labels) && i < |labels| && NotBegunAgain(labels, i + 1, t)
    requires labels[i].Begin? && labels[i].t == t
    requires Runs(db0, labels[..i]) && KeyCommitted(After(db0, labels[..i]).db, labels[i].call)
    requires Enabled(After(db0, labels), Statement(t, rows))
    ensures var s := After(db0, labels);
      var r := Execute(s.db, s.txs[t], rows, |s.history|);
      && (Same(After(db0, labels[..i]).db, labels[i].call) ==> !r.Refused?)
      && (!Same(After(db0, labels[..i]).db, labels[i].call) ==>
            && (s.txs[t].pc.Lookup? || s.txs[t].pc.Find? || s.txs[t].pc.List?)
            && !r.Replied?
            && (!s.txs[t].pc.Lookup? ==> r == Refused(DuplicateOf(labels[i].call))))
  {
    RetryIsNeverLate(db0, labels, i, t);
    InformedStatement(db0, labels, t, rows);
    SameInRuns(db0, labels, i, labels[i].call);
    var s := After(db0, labels);
    if Execute(s.db, s.txs[t], rows, |s.history|).Replied? {
      OnlyListReplies(s.db, s.txs[t], rows, |s.history|);
    }
  }

  // ------------------------------------------- a call repeats what it committed

  lemma AcceptedIsSame(db0: Store, labels: seq<Label>, c: Call, rows: seq<ItemRow>)
    requires Runs(db0, labels) && ValidCall(c) && c.req.Place?
    requires var db := After(db0, labels).db;
      KeyCommitted(db, c) && OrderByKey(db, c.req.key).Some?
      && OrderByKey(db, c.req.key).value.order.userId == c.req.userId
      && Lists(db, OrderByKey(db, c.req.key).value.id, rows) && StoredLines(rows) == c.req.lines
    ensures Same(After(db0, labels).db, c)
  {
    ReplayAcceptance(db0, labels, c, rows);
    ReplayDecides(db0, labels, c, rows);
  }

  lemma CommittedOrderIsSame(db0: Store, labels: seq<Label>, db: Store, c: Call, repeated: Call)
    requires Runs(db0, labels) && LinesAgree(db) && Effective(db, Commit(c)) && c.req.Place?
    requires After(db0, labels).db == ApplyOp(db, Commit(c))
    requires ValidCall(repeated) && repeated.req == c.req
    ensures KeyCommitted(After(db0, labels).db, repeated) && Same(After(db0, labels).db, repeated)
  {
    NewRowsAreListed(db, c);
    FreshOrderRows(db, c);
    AcceptedIsSame(db0, labels, repeated, NewRows(c, Prices(db, c.req.lines), |c.req.lines|));
  }
}
