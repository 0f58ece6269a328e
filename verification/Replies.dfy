// What successful replies carry: the lines of the order their key resolves to,
// the same for every caller and at every later moment.
module Replies {
  import opened Tables
  import opened Spec
  import opened History
  import opened Machine
  import opened Refinement
  import opened Ledger
  import opened Guarantees

  // Later operations add no line to an order that exists.
  lemma NoLineIsAdded(db: Store, op: Op, o: Id, id: Id)
    requires Effective(db, op) && o in db.orders
    requires id in ApplyOp(db, op).items && id !in db.items
    ensures ApplyOp(db, op).items[id].orderId != o
  {
    if op.Commit? && op.call.req.Place? {
      FreshOrderRows(db, op.call);
      var k := ItemTableRow(op.call, Prices(db, op.call.req.lines), id);
    } else {
      OtherOpsRows(db, op);
      assert false;
    }
  }

  lemma ListingStays(db: Store, op: Op, o: Id, rows: seq<ItemRow>)
    requires Effective(db, op) && o in db.orders && Lists(db, o, rows)
    ensures o in ApplyOp(db, op).orders && Lists(ApplyOp(db, op), o, rows)
  {
    ApplyGrows(db, op);
    forall id | id in ApplyOp(db, op).items && ApplyOp(db, op).items[id].orderId == o
      ensures ItemRow(id, ApplyOp(db, op).items[id]) in rows
    {
      if id !in db.items {
        NoLineIsAdded(db, op, o, id);
      }
    }
  }

  lemma {:induction false} ListingStaysAlong(db0: Store, h: seq<Op>, i: nat, j: nat, o: Id, rows: seq<ItemRow>)
    requires Legal(db0, h) && i <= j <= |h| && Legal(db0, h[..i])
    requires o in StateAfter(db0, h[..i]).orders && Lists(StateAfter(db0, h[..i]), o, rows)
    ensures Legal(db0, h[..j])
    ensures o in StateAfter(db0, h[..j]).orders && Lists(StateAfter(db0, h[..j]), o, rows)
    decreases j
  {
    if i < j {
      ListingStaysAlong(db0, h, i, j - 1, o, rows);
      LegalStep(db0, h, j - 1);
      ListingStays(StateAfter(db0, h[..j - 1]), h[j - 1], o, rows);
    }
  }

  lemma NewOrderHasNoOldLine(db: Store, o: Id, id: Id)
    requires LinesAgree(db) && o !in db.orders
    ensures id in db.items ==> db.items[id].orderId != o
  {
  }

  lemma NewRowIsStored(db: Store, db': Store, c: Call, i: nat)
    requires c.req.Place? && |c.ids.itemIds| == |c.req.lines| && AddsOrder(db, db', c) && i < |c.req.lines|
    ensures var row := NewRows(c, Prices(db, c.req.lines), |c.req.lines|)[i];
      row.id in db'.items && row.item == db'.items[row.id] && row.item.orderId == c.ids.orderId
  {
    ItemTableAt(c, Prices(db, c.req.lines), |c.req.lines|, i);
  }

  lemma StoredRowIsNew(db: Store, db': Store, c: Call, id: Id)
    requires c.req.Place? && |c.ids.itemIds| == |c.req.lines| && AddsOrder(db, db', c) && LinesAgree(db)
    requires id in db'.items && db'.items[id].orderId == c.ids.orderId
    ensures ItemRow(id, db'.items[id]) in NewRows(c, Prices(db, c.req.lines), |c.req.lines|)
  {
    var prices := Prices(db, c.req.lines);
    NewOrderHasNoOldLine(db, c.ids.orderId, id);
    var k := ItemTableRow(c, prices, id);
    assert NewRows(c, prices, |c.req.lines|)[k] == ItemRow(id, db'.items[id]);
  }

  lemma NewRowsList(db: Store, db': Store, c: Call)
    requires c.req.Place? && |c.ids.itemIds| == |c.req.lines| && AddsOrder(db, db', c) && LinesAgree(db)
    ensures Lists(db', c.ids.orderId, NewRows(c, Prices(db, c.req.lines), |c.req.lines|))
  {
    forall i | 0 <= i < |c.req.lines|
      ensures var row := NewRows(c, Prices(db, c.req.lines), |c.req.lines|)[i];
        row.id in db'.items && row.item == db'.items[row.id] && row.item.orderId == c.ids.orderId
    {
      NewRowIsStored(db, db', c, i);
    }
    forall id | id in db'.items && db'.items[id].orderId == c.ids.orderId
      ensures ItemRow(id, db'.items[id]) in NewRows(c, Prices(db, c.req.lines), |c.req.lines|)
    {
      StoredRowIsNew(db, db', c, id);
    }
  }

  // The rows a fresh order answers with are those it stored, in request order.
  lemma NewRowsAreListed(db: Store, c: Call)
    requires LinesAgree(db) && Effective(db, Commit(c)) && c.req.Place?
    ensures var rows := NewRows(c, Prices(db, c.req.lines), |c.req.lines|);
      Lists(ApplyOp(db, Commit(c)), c.ids.orderId, rows) && StoredLines(rows) == c.req.lines
  {
    FreshOrderRows(db, c);
    NewRowsList(db, ApplyOp(db, Commit(c)), c);
  }

  lemma FreshAnswerRows(db: Store, a: Answer)
    requires Explains(db, a) && a.call.req.Place? && a.wrote && a.rows == [] && Effective(db, Commit(a.call))
    ensures a.reply.Placed? && a.reply.order.id == a.call.ids.orderId
    ensures a.reply.rows == NewRows(a.call, Prices(db, a.call.req.lines), |a.call.req.lines|)
  {
  }

  lemma ReplayAnswerRows(db: Store, a: Answer)
    requires KeysAgree(db) && Explains(db, a) && a.call.req.Place? && !a.wrote
    ensures a.reply.Placed? && a.reply.order.id in db.orders && Lists(db, a.reply.order.id, a.reply.rows)
    ensures |a.reply.rows| == |a.call.req.lines|
  {
    AnswerNamesOrder(db, a);
  }

  lemma FreshAnswerLists(db: Store, a: Answer)
    requires LinesAgree(db) && Explains(db, a) && a.call.req.Place? && a.wrote && a.rows == []
    requires Effective(db, Commit(a.call))
    ensures a.reply.Placed? && StoredLines(a.reply.rows) == a.call.req.lines
    ensures var db' := ApplyOp(db, Commit(a.call));
      a.reply.order.id in db'.orders && Lists(db', a.reply.order.id, a.reply.rows)
  {
    FreshAnswerRows(db, a);
    NewRowsAreListed(db, a.call);
    FreshOrderRows(db, a.call);
  }

  lemma AnswerListsOrder(db0: Store, h: seq<Op>, a: Answer)
    requires Initial(db0) && Legal(db0, h) && Justified(db0, h, a) && a.call.req.Place?
    ensures a.reply.Placed? && Lists(StateAfter(db0, h), a.reply.order.id, a.reply.rows)
    ensures a.wrote ==> StoredLines(a.reply.rows) == a.call.req.lines
  {
    HistoryAgrees(db0, h[..a.at]);
    if a.wrote {
      LegalStep(db0, h, a.at);
      FreshAnswerLists(StateAfter(db0, h[..a.at]), a);
      ListingStaysAlong(db0, h, a.at + 1, |h|, a.reply.order.id, a.reply.rows);
    } else {
      ReplayAnswerRows(StateAfter(db0, h[..a.at]), a);
      ListingStaysAlong(db0, h, a.at, |h|, a.reply.order.id, a.reply.rows);
    }
    assert h[..|h|] == h;
  }

  lemma ListedOnce(db: Store, o: Id, rows: seq<ItemRow>, row: ItemRow)
    requires Lists(db, o, rows)
    ensures multiset(rows)[row] == if row.id in db.items && db.items[row.id] == row.item && row.item.orderId == o then 1 else 0
  {
    if row in rows {
      var i :| 0 <= i < |rows| && rows[i] == row;
      var rest := rows[..i] + rows[i + 1..];
      assert rows == rows[..i] + [row] + rows[i + 1..];
      assert row !in rest;
      assert multiset(rows) == multiset(rest) + multiset{row};
    }
  }

  // Two answers of ListOrderItems on the same rows differ in order only.
  lemma ListingsArePermutations(db: Store, o: Id, a: seq<ItemRow>, b: seq<ItemRow>)
    requires Lists(db, o, a) && Lists(db, o, b)
    ensures multiset(a) == multiset(b)
  {
    forall row | row in multiset(a) || row in multiset(b) ensures multiset(a)[row] == multiset(b)[row] {
      ListedOnce(db, o, a, row);
      ListedOnce(db, o, b, row);
    }
  }

  // All successful CreateOrder replies for a key carry one order and its lines,
  // up to their order; the one that placed it carries the lines it asked for.
  lemma RepliesAgree(db0: Store, labels: seq<Label>, a: Answer, b: Answer)
    requires Runs(db0, labels) && a in After(db0, labels).answers && b in After(db0, labels).answers
    requires a.call.req.Place? && b.call.req.Place? && a.call.req.key == b.call.req.key
    ensures a.reply.Placed? && b.reply.Placed? && a.reply.order == b.reply.order
    ensures Lists(After(db0, labels).db, a.reply.order.id, a.reply.rows)
    ensures multiset(a.reply.rows) == multiset(b.reply.rows)
    ensures a.wrote ==> StoredLines(a.reply.rows) == a.call.req.lines
  {
    RunInv(db0, labels);
    var h := After(db0, labels).history;
    AnswerNamesFinalOrder(db0, h, a);
    AnswerNamesFinalOrder(db0, h, b);
    AnswerListsOrder(db0, h, a);
    AnswerListsOrder(db0, h, b);
    ListingsArePermutations(After(db0, labels).db, a.reply.order.id, a.reply.rows, b.reply.rows);
  }
}
