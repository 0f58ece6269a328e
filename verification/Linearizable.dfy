// Successful calls are linearizable: each reply is explained by the rows
// committed at some moment between its call's beginning and its answer.
module Linearizable {
  import opened Tables
  import opened Spec
  import opened Machine
  import opened Refinement
  import opened Guarantees
  import opened Retries

  // Of a call that began when n operations were committed.
  ghost predicate BegunAt(s: State, t: TxId, c: Call, n: nat) {
    && n <= |s.history|
    && (t in s.txs ==>
          && s.txs[t].call == c
          && (s.txs[t].pc.Finish? ==> s.txs[t].pc.answer.call == c)
          && (s.txs[t].pc.Finish? && !s.txs[t].pc.answer.wrote ==> n <= s.txs[t].pc.answer.at <= |s.history|))
  }

  lemma ExecuteAnswers(db: Store, tx: Tx, rows: seq<ItemRow>, at: nat)
    requires WellPlaced(tx) && !tx.pc.Finish?
    ensures var r := Execute(db, tx, rows, at);
      && (r.Continue? ==> r.tx.call == tx.call)
      && (r.Continue? && r.tx.pc.Finish? ==> r.tx.pc.answer.call == tx.call && r.tx.pc.answer.at == at)
      && (r.Replied? ==> r.answer.call == tx.call && r.answer.at == at && !r.answer.wrote)
  {
  }

  lemma BegunStep(s: State, l: Label, t: TxId, c: Call, n: nat)
    requires Enabled(s, l) && BegunAt(s, t, c, n) && !(l.Begin? && l.t == t)
    ensures BegunAt(Next(s, l), t, c, n)
  {
    if l.Statement? && l.t == t {
      ExecuteAnswers(s.db, s.txs[t], l.rows, |s.history|);
    } else if t in Next(s, l).txs {
      OthersStand(s, l, t);
    }
  }

  lemma {:induction false} BegunAlong(db0: Store, labels: seq<Label>, m: nat, t: TxId, c: Call, n: nat)
    requires Runs(db0, labels) && m <= |labels| && NotBegunAgain(labels, m, t)
    requires Runs(db0, labels[..m]) && BegunAt(After(db0, labels[..m]), t, c, n)
    ensures BegunAt(After(db0, labels), t, c, n)
    decreases |labels|
  {
    if m == |labels| {
      assert labels[..m] == labels;
    } else {
      var front := labels[..|labels| - 1];
      assert front[..m] == labels[..m];
      BegunAlong(db0, front, m, t, c, n);
      BegunStep(After(db0, front), labels[|labels| - 1], t, c, n);
    }
  }

  lemma AnswerInInterval(s: State, l: Label, t: TxId, c: Call, n: nat)
    requires Enabled(s, l) && BegunAt(s, t, c, n) && Answers(s, l, t)
    ensures var s' := Next(s, l);
      && s'.answers != []
      && var a := s'.answers[|s'.answers| - 1];
      && s'.answers == s.answers + [a] && a.call == c
      && n <= a.at && (if a.wrote then a.at + 1 else a.at) <= |s'.history|
  {
    if l.Statement? {
      ExecuteAnswers(s.db, s.txs[t], l.rows, |s.history|);
    }
  }

  // The last step of the run answers, with a, the call that t began at the i-th.
  ghost predicate CallAnswered(db0: Store, labels: seq<Label>, i: nat, t: TxId, a: Answer) {
    && i + 1 < |labels| && Runs(db0, labels)
    && labels[i].Begin? && labels[i].t == t
    && var front := labels[..|labels| - 1];
    && NotBegunAgain(front, i + 1, t)
    && Answers(After(db0, front), labels[|labels| - 1], t)
    && After(db0, labels).answers == After(db0, front).answers + [a]
  }

  lemma LastAnswer(s: State, l: Label, t: TxId, c: Call, n: nat, a: Answer)
    requires Enabled(s, l) && BegunAt(s, t, c, n) && Answers(s, l, t) && Next(s, l).answers == s.answers + [a]
    ensures a.call == c && n <= a.at && (if a.wrote then a.at + 1 else a.at) <= |Next(s, l).history|
  {
    AnswerInInterval(s, l, t, c, n);
    var answers := Next(s, l).answers;
    assert a == answers[|answers| - 1];
  }

  lemma BegunByNow(db0: Store, labels: seq<Label>, i: nat, t: TxId)
    requires Runs(db0, labels) && i < |labels| && NotBegunAgain(labels, i + 1, t)
    requires labels[i].Begin? && labels[i].t == t
    ensures Runs(db0, labels[..i])
    ensures BegunAt(After(db0, labels), t, labels[i].call, |After(db0, labels[..i]).history|)
  {
    RunPrefix(db0, labels, i);
    RunPrefix(db0, labels, i + 1);
    assert labels[..i + 1][..i] == labels[..i];
    BegunAlong(db0, labels, i + 1, t, labels[i].call, |After(db0, labels[..i]).history|);
  }

  // The point of the history that explains a reply lies within its call: not
  // before the beginning, nor after the answer.
  lemma RepliesAreLinearizable(db0: Store, labels: seq<Label>, i: nat, t: TxId, a: Answer)
    requires CallAnswered(db0, labels, i, t, a)
    ensures a.call == labels[i].call && Justified(db0, After(db0, labels).history, a)
    ensures Runs(db0, labels[..i]) && |After(db0, labels[..i]).history| <= a.at
    ensures (if a.wrote then a.at + 1 else a.at) <= |After(db0, labels).history|
  {
    var front := labels[..|labels| - 1];
    assert front[..i] == labels[..i];
    BegunByNow(db0, front, i, t);
    LastAnswer(After(db0, front), labels[|labels| - 1], t, labels[i].call, |After(db0, labels[..i]).history|, a);
    RunInv(db0, labels);
    assert a in After(db0, labels).answers;
  }

  // So replies respect real time: a call that begins after another has been
  // answered is explained no earlier than that one, and after it if it wrote.
  lemma RealTimeOrder(db0: Store, early: seq<Label>, h: nat, u: TxId, a: Answer,
                      labels: seq<Label>, i: nat, t: TxId, b: Answer)
    requires CallAnswered(db0, early, h, u, a) && CallAnswered(db0, labels, i, t, b)
    requires |early| <= i && early == labels[..|early|]
    ensures (if a.wrote then a.at + 1 else a.at) <= b.at
  {
    RepliesAreLinearizable(db0, early, h, u, a);
    RepliesAreLinearizable(db0, labels, i, t, b);
    RunPrefix(db0, labels, i);
    RunPrefix(db0, labels[..i], |early|);
    assert labels[..i][..|early|] == early;
  }
}
