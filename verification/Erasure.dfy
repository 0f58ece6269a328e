// A failed call leaves no trace: taking all its steps out of a run leaves a run
// that ends in the same rows, history, replies, broker log, workers and other
// transactions. Nobody can tell that it was ever there.
module Erasure {
  import opened Tables
  import opened Spec
  import opened Machine
  import opened Guarantees

  predicate StepOf(l: Label, t: TxId) {
    match l
    case Begin(u, _) => u == t
    case Statement(u, _) => u == t
    case Abort(u) => u == t
    case CommitTx(u, _) => u == t
    case _ => false
  }

  // The steps without those of t from the i-th to the j-th.
  function Erase(labels: seq<Label>, i: nat, j: nat, t: TxId): seq<Label> {
    if labels == [] then []
    else
      var k := |labels| - 1;
      Erase(labels[..k], i, j, t) + if i <= k <= j && StepOf(labels[k], t) then [] else [labels[k]]
  }

  // The step l ends t without a reply: an abort, or a refused statement.
  ghost predicate Failure(s: State, l: Label, t: TxId) {
    match l
    case Abort(u) => u == t
    case Statement(u, rows) =>
      u == t && t in s.txs && WellPlaced(s.txs[t]) && !s.txs[t].pc.Finish?
      && Execute(s.db, s.txs[t], rows, |s.history|).Refused?
    case _ => false
  }

  // The call that t begins at the i-th step fails at the j-th.
  ghost predicate Fails(db0: Store, labels: seq<Label>, i: nat, j: nat, t: TxId) {
    && i < j < |labels|
    && labels[i].Begin? && labels[i].t == t
    && (forall k :: i < k < j && (labels[k].Begin? || labels[k].CommitTx?) ==> labels[k].t != t)
    && Runs(db0, labels[..j]) && Failure(After(db0, labels[..j]), labels[j], t)
  }

  // Equal but for the record of refusals.
  ghost predicate Alike(s: State, s': State) {
    s' == s.(refusals := s'.refusals)
  }

  ghost predicate AlikeBut(s: State, s': State, t: TxId) {
    s' == s.(txs := s.txs - {t}, refusals := s'.refusals)
  }

  // ------------------------------------------------------------ step by step

  lemma AlikeStep(s: State, s': State, l: Label)
    requires Alike(s, s') && Enabled(s, l)
    ensures Enabled(s', l) && Alike(Next(s, l), Next(s', l))
  {
  }

  lemma MapsWithout<K, V>(m: map<K, V>, k: K, other: K, v: V)
    requires k != other
    ensures m[other := v] - {k} == (m - {k})[other := v]
    ensures m - {other} - {k} == m - {k} - {other}
  {
  }

  lemma OtherStatement(s: State, s': State, u: TxId, rows: seq<ItemRow>, t: TxId)
    requires AlikeBut(s, s', t) && Enabled(s, Statement(u, rows)) && u != t
    ensures Enabled(s', Statement(u, rows)) && AlikeBut(Next(s, Statement(u, rows)), Next(s', Statement(u, rows)), t)
  {
    match Execute(s.db, s.txs[u], rows, |s.history|) {
      case Continue(tx) => MapsWithout(s.txs, t, u, tx);
      case _ => MapsWithout(s.txs, t, u, s.txs[u]);
    }
  }

  lemma OtherStep(s: State, s': State, l: Label, t: TxId)
    requires AlikeBut(s, s', t) && Enabled(s, l) && !StepOf(l, t)
    ensures Enabled(s', l) && AlikeBut(Next(s, l), Next(s', l), t)
  {
    match l {
      case Begin(u, c) => MapsWithout(s.txs, t, u, Start(c));
      case Statement(u, rows) => OtherStatement(s, s', u, rows, t);
      case Abort(u) => MapsWithout(s.txs, t, u, s.txs[u]);
      case CommitTx(u, _) => MapsWithout(s.txs, t, u, s.txs[u]);
      case _ =>
    }
  }

  lemma BeginStep(s: State, s': State, t: TxId, c: Call)
    requires Alike(s, s') && Enabled(s, Begin(t, c))
    ensures AlikeBut(Next(s, Begin(t, c)), s', t)
  {
    assert s.txs[t := Start(c)] - {t} == s.txs;
  }

  // A statement that goes on, seen by the others.
  lemma OwnStatement(s: State, s': State, t: TxId, rows: seq<ItemRow>)
    requires AlikeBut(s, s', t) && Enabled(s, Statement(t, rows)) && t in Next(s, Statement(t, rows)).txs
    ensures AlikeBut(Next(s, Statement(t, rows)), s', t)
  {
    var tx := Next(s, Statement(t, rows)).txs[t];
    assert s.txs[t := tx] - {t} == s.txs - {t};
  }

  lemma FailureStep(s: State, s': State, l: Label, t: TxId)
    requires AlikeBut(s, s', t) && Enabled(s, l) && Failure(s, l, t)
    ensures Alike(Next(s, l), s')
  {
  }

  // A step of t itself: its first, its last, or one between.
  lemma OwnStep(s: State, s': State, l: Label, t: TxId, first: bool, last: bool)
    requires Enabled(s, l) && StepOf(l, t) && !(first && last)
    requires if first then l.Begin? && Alike(s, s') else AlikeBut(s, s', t)
    requires last ==> Failure(s, l, t)
    requires !first && !last ==> !l.Begin? && !l.CommitTx? && t in Next(s, l).txs
    ensures if last then Alike(Next(s, l), s') else AlikeBut(Next(s, l), s', t)
  {
    if first {
      BeginStep(s, s', t, l.call);
    } else if last {
      FailureStep(s, s', l, t);
    } else {
      OwnStatement(s, s', t, l.rows);
    }
  }

  // ------------------------------------------- the call lives until it fails

  lemma GoneStep(s: State, l: Label, t: TxId)
    requires Enabled(s, l) && t !in s.txs && !(l.Begin? && l.t == t)
    ensures t !in Next(s, l).txs
  {
  }

  lemma PrefixStep(db0: Store, labels: seq<Label>, m: nat)
    requires Runs(db0, labels) && m < |labels|
    ensures Runs(db0, labels[..m]) && Runs(db0, labels[..m + 1]) && Enabled(After(db0, labels[..m]), labels[m])
    ensures After(db0, labels[..m + 1]) == Next(After(db0, labels[..m]), labels[m])
  {
    RunPrefix(db0, labels, m);
    RunPrefix(db0, labels, m + 1);
    assert labels[..m + 1][..m] == labels[..m];
  }

  lemma {:induction false} LivesUntilFailure(db0: Store, labels: seq<Label>, i: nat, j: nat, t: TxId, m: nat)
    requires Runs(db0, labels) && Fails(db0, labels, i, j, t) && i < m <= j
    ensures Runs(db0, labels[..m]) && t in After(db0, labels[..m]).txs
    decreases j - m
  {
    PrefixStep(db0, labels, m);
    if m < j {
      LivesUntilFailure(db0, labels, i, j, t, m + 1);
      if t !in After(db0, labels[..m]).txs {
        GoneStep(After(db0, labels[..m]), labels[m], t);
        assert false;
      }
    }
  }

  // ------------------------------------------------------------- the theorem

  ghost predicate ErasedTo(db0: Store, labels: seq<Label>, i: nat, j: nat, t: TxId, m: nat)
    requires m <= |labels| && Runs(db0, labels[..m])
  {
    var erased := Erase(labels[..m], i, j, t);
    && Runs(db0, erased)
    && if i < m <= j then AlikeBut(After(db0, labels[..m]), After(db0, erased), t)
       else Alike(After(db0, labels[..m]), After(db0, erased))
  }

  lemma EraseNext(labels: seq<Label>, i: nat, j: nat, t: TxId, m: nat)
    requires m < |labels|
    ensures var before := Erase(labels[..m], i, j, t);
      Erase(labels[..m + 1], i, j, t)
        == if i <= m <= j && StepOf(labels[m], t) then before else before + [labels[m]]
  {
    assert labels[..m + 1][..m] == labels[..m];
  }

  lemma KeptStep(db0: Store, labels: seq<Label>, i: nat, j: nat, t: TxId, m: nat)
    requires Runs(db0, labels) && m < |labels| && i < j && Runs(db0, labels[..m])
    requires ErasedTo(db0, labels, i, j, t, m) && !(i <= m <= j && StepOf(labels[m], t))
    requires m != i && m != j
    ensures Runs(db0, labels[..m + 1]) && ErasedTo(db0, labels, i, j, t, m + 1)
  {
    var s, erased := After(db0, labels[..m]), Erase(labels[..m], i, j, t);
    PrefixStep(db0, labels, m);
    EraseNext(labels, i, j, t, m);
    if i < m <= j {
      OtherStep(s, After(db0, erased), labels[m], t);
    } else {
      AlikeStep(s, After(db0, erased), labels[m]);
    }
    Extend(db0, erased, labels[m]);
  }

  lemma ErasedStep(db0: Store, labels: seq<Label>, i: nat, j: nat, t: TxId, m: nat)
    requires Runs(db0, labels) && m < |labels| && Fails(db0, labels, i, j, t) && Runs(db0, labels[..m])
    requires ErasedTo(db0, labels, i, j, t, m) && i <= m <= j && StepOf(labels[m], t)
    ensures Runs(db0, labels[..m + 1]) && ErasedTo(db0, labels, i, j, t, m + 1)
  {
    var s, s' := After(db0, labels[..m]), After(db0, Erase(labels[..m], i, j, t));
    PrefixStep(db0, labels, m);
    EraseNext(labels, i, j, t, m);
    if i < m < j {
      LivesUntilFailure(db0, labels, i, j, t, m + 1);
    }
    OwnStep(s, s', labels[m], t, m == i, m == j);
  }

  lemma {:induction false} ErasedPrefix(db0: Store, labels: seq<Label>, i: nat, j: nat, t: TxId, m: nat)
    requires Runs(db0, labels) && Fails(db0, labels, i, j, t) && m <= |labels|
    ensures Runs(db0, labels[..m]) && ErasedTo(db0, labels, i, j, t, m)
  {
    RunPrefix(db0, labels, m);
    if m == 0 {
      assert labels[..0] == [];
      RunPrefix(db0, labels, 0);
    } else {
      var k := m - 1;
      ErasedPrefix(db0, labels, i, j, t, k);
      if i <= k <= j && StepOf(labels[k], t) {
        ErasedStep(db0, labels, i, j, t, k);
      } else {
        KeptStep(db0, labels, i, j, t, k);
      }
      assert k + 1 == m;
    }
  }

  // The steps of a call that is refused or aborted can be erased from any run.
  lemma FailedCallsLeaveNoTrace(db0: Store, labels: seq<Label>, i: nat, j: nat, t: TxId)
    requires Runs(db0, labels) && Fails(db0, labels, i, j, t)
    ensures Runs(db0, Erase(labels, i, j, t))
    ensures var s, s' := After(db0, labels), After(db0, Erase(labels, i, j, t));
      && s'.db == s.db && s'.history == s.history && s'.answers == s.answers && s'.broker == s.broker
      && s'.workers == s.workers && s'.txs == s.txs
  {
    ErasedPrefix(db0, labels, i, j, t, |labels|);
    assert labels[..|labels|] == labels;
  }
}
