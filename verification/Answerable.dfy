// When a repeated call with equal parameters can still be answered: exactly
// when it is not late.
module Answerable {
  import opened Tables
  import opened Spec
  import opened Machine
  import opened TxProof
  import opened Refinement
  import opened Retries

  // -------------------------------------------------------- listings exist

  lemma {:induction false} RowsOf(items: map<Id, Item>, ids: set<Id>) returns (rows: seq<ItemRow>)
    requires ids <= items.Keys
    ensures forall i :: 0 <= i < |rows| ==> rows[i].id in ids && rows[i].item == items[rows[i].id]
    ensures forall i, j :: 0 <= i < j < |rows| ==> rows[i].id != rows[j].id
    ensures forall id :: id in ids ==> ItemRow(id, items[id]) in rows
    decreases |ids|
  {
    if ids == {} {
      rows := [];
    } else {
      var id :| id in ids;
      var rest := RowsOf(items, ids - {id});
      rows := rest + [ItemRow(id, items[id])];
      assert rows[|rest|] == ItemRow(id, items[id]);
      forall k | k in ids ensures ItemRow(k, items[k]) in rows {
        if k != id {
          assert ItemRow(k, items[k]) in rest;
        }
      }
    }
  }

  lemma ListingExists(db: Store, o: Id) returns (rows: seq<ItemRow>)
    ensures Lists(db, o, rows)
  {
    rows := RowsOf(db.items, LinesStored(db, o));
  }

  // ------------------------------------------------------ finishing a retry

  // more is a continuation of the run whose last step answers t.
  ghost predicate AnsweredBy(db0: Store, labels: seq<Label>, more: seq<Label>, t: TxId) {
    && more != [] && Runs(db0, labels + more) && NotBegunAgain(labels + more, |labels|, t)
    && var front := (labels + more)[..|labels + more| - 1];
    Answers(After(db0, front), (labels + more)[|labels + more| - 1], t)
  }

  lemma AnswerNow(db0: Store, labels: seq<Label>, more: seq<Label>, l: Label, t: TxId)
    requires Runs(db0, labels + more) && NotBegunAgain(labels + more, |labels|, t) && !l.Begin?
    requires Enabled(After(db0, labels + more), l) && Answers(After(db0, labels + more), l, t)
    ensures AnsweredBy(db0, labels, more + [l], t)
  {
    Extend(db0, labels + more, l);
    assert labels + (more + [l]) == labels + more + [l];
    assert (labels + more + [l])[..|labels + more|] == labels + more;
  }

  function StepsLeft(tx: Tx): nat {
    if tx.pc.Lookup? || tx.pc.Find? then 2 else if tx.pc.List? || tx.pc.Reload? then 1 else 0
  }

  lemma NextOfInformed(db: Store, tx: Tx, rows: seq<ItemRow>, at: nat)
    requires WellPlaced(tx) && Informed(db, tx) && !tx.pc.Finish? && !Execute(db, tx, rows, at).Refused?
    ensures Execute(db, tx, rows, at).Replied? || StepsLeft(Execute(db, tx, rows, at).tx) < StepsLeft(tx)
  {
    assert StockKeysOf(tx.call)[0] == tx.call.req.key || tx.call.req.Place?;
  }

  // A lookup, a listing and a reload wait for nobody.
  lemma InformedIsEnabled(db0: Store, s: State, t: TxId, rows: seq<ItemRow>)
    requires Inv(db0, s) && t in s.txs && Informed(s.db, s.txs[t]) && !s.txs[t].pc.Finish?
    requires s.txs[t].pc.List? ==> Lists(s.db, s.txs[t].pc.found.id, rows)
    ensures Enabled(s, Statement(t, rows))
  {
  }

  lemma InformedGoesOn(db0: Store, labels: seq<Label>, t: TxId, rows: seq<ItemRow>)
    requires Runs(db0, labels)
    requires var s := After(db0, labels);
      && t in s.txs && Informed(s.db, s.txs[t]) && Same(s.db, s.txs[t].call) && !s.txs[t].pc.Finish?
      && (s.txs[t].pc.List? ==> Lists(s.db, s.txs[t].pc.found.id, rows))
    ensures var s, l := After(db0, labels), Statement(t, rows);
      && Enabled(s, l)
      && (!Answers(s, l, t) ==>
            var s' := Next(s, l);
            && t in s'.txs && Informed(s'.db, s'.txs[t]) && Same(s'.db, s'.txs[t].call)
            && StepsLeft(s'.txs[t]) < StepsLeft(s.txs[t]))
  {
    var s := After(db0, labels);
    RunInv(db0, labels);
    InformedIsEnabled(db0, s, t, rows);
    InformedStatement(db0, labels, t, rows);
    NextOfInformed(s.db, s.txs[t], rows, |s.history|);
    ExecuteKeepsCall(s.db, s.txs[t], rows, |s.history|);
  }

  lemma {:induction false} Complete(db0: Store, labels: seq<Label>, more: seq<Label>, t: TxId) returns (done: seq<Label>)
    requires Runs(db0, labels + more) && NotBegunAgain(labels + more, |labels|, t)
    requires var s := After(db0, labels + more); t in s.txs && Informed(s.db, s.txs[t]) && Same(s.db, s.txs[t].call)
    ensures AnsweredBy(db0, labels, done, t)
    decreases var s := After(db0, labels + more); StepsLeft(s.txs[t])
  {
    var s := After(db0, labels + more);
    if s.txs[t].pc.Finish? {
      AnswerNow(db0, labels, more, CommitTx(t, true), t);
      done := more + [CommitTx(t, true)];
    } else {
      var rows := [];
      if s.txs[t].pc.List? {
        rows := ListingExists(s.db, s.txs[t].pc.found.id);
      }
      done := CompleteStep(db0, labels, more, t, rows);
    }
  }

  lemma {:induction false} CompleteStep(db0: Store, labels: seq<Label>, more: seq<Label>, t: TxId, rows: seq<ItemRow>)
    returns (done: seq<Label>)
    requires Runs(db0, labels + more) && NotBegunAgain(labels + more, |labels|, t)
    requires var s := After(db0, labels + more);
      && t in s.txs && Informed(s.db, s.txs[t]) && Same(s.db, s.txs[t].call) && !s.txs[t].pc.Finish?
      && (s.txs[t].pc.List? ==> Lists(s.db, s.txs[t].pc.found.id, rows))
    ensures AnsweredBy(db0, labels, done, t)
    decreases var s := After(db0, labels + more); StepsLeft(s.txs[t]), 0
  {
    var s, l := After(db0, labels + more), Statement(t, rows);
    InformedGoesOn(db0, labels + more, t, rows);
    if Answers(s, l, t) {
      AnswerNow(db0, labels, more, l, t);
      done := more + [l];
    } else {
      Extend(db0, labels + more, l);
      assert labels + (more + [l]) == labels + more + [l];
      done := Complete(db0, labels, more + [l], t);
    }
  }

  // With the key committed and equal parameters, the call can still be answered
  // if and only if it is not late.
  lemma AnswerableExactlyWhenNotLate(db0: Store, labels: seq<Label>, t: TxId)
    requires Runs(db0, labels)
    requires var s := After(db0, labels);
      t in s.txs && KeyCommitted(s.db, s.txs[t].call) && Same(s.db, s.txs[t].call)
    ensures var s := After(db0, labels);
      !Late(s.db, s.txs[t]) <==> exists more :: AnsweredBy(db0, labels, more, t)
  {
    assert labels + [] == labels && (labels + [])[..|labels|] == labels;
    if !Late(After(db0, labels).db, After(db0, labels).txs[t]) {
      var more := Complete(db0, labels, [], t);
    } else {
      forall more ensures !AnsweredBy(db0, labels, more, t) {
        if AnsweredBy(db0, labels, more, t) {
          assert (labels + more)[..|labels|] == labels;
          LateNeverAnswered(db0, labels + more, |labels|, t);
        }
      }
    }
  }
}
