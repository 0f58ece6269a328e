// N callers race for one cabinet: with distinct unused keys and no faults,
// exactly as many succeed as the stock allows, under every interleaving.
module Race {
  import opened Arithmetic
  import opened MapSums
  import opened Tables
  import opened Spec
  import opened Machine
  import opened Refinement

  // A step of a race for line: the callers ask for the same line under keys
  // that nobody uses, no transaction aborts, every commit is acknowledged.
  ghost predicate RaceLabel(s: State, l: Label, line: Line) {
    match l
    case Begin(_, c) =>
      && c.req.Reserve? && c.req.line == line
      && c.req.key !in s.db.reservations
      && (forall u :: u in s.txs && s.txs[u].call.req.Reserve? ==> s.txs[u].call.req.key != c.req.key)
    case Abort(_) => false
    case CommitTx(_, acked) => acked
    case _ => true
  }

  ghost predicate RaceRun(db0: Store, labels: seq<Label>, line: Line)
    requires Runs(db0, labels)
    decreases |labels|
  {
    labels == [] ||
    var front := labels[..|labels| - 1];
    RaceRun(db0, front, line) && RaceLabel(After(db0, front), labels[|labels| - 1], line)
  }

  function Begins(labels: seq<Label>): nat {
    if labels == [] then 0
    else Begins(labels[..|labels| - 1]) + if labels[|labels| - 1].Begin? then 1 else 0
  }

  // A caller has not met its own key, and holds the row only with stock enough.
  ghost predicate Racer(db: Store, tx: Tx, line: Line)
    requires line.cabinetId in db.cabinets
  {
    && tx.call.req.Reserve? && tx.call.req.line == line
    && tx.call.req.key !in db.reservations
    && match tx.pc
       case Find(i) => i == 0 && tx.w == NO_WRITES
       case Take(i) => i == 0 && tx.w == NO_WRITES
       case Record(i) => i == 0 && tx.w.reservations == map[] && Holds(db, tx, line)
       case Finish(a) =>
         && a.wrote && a.reply.Reserved? && Holds(db, tx, line)
         && tx.w.reservations.Keys == {tx.call.req.key}
       case _ => false
  }

  ghost predicate Holds(db: Store, tx: Tx, line: Line)
    requires line.cabinetId in db.cabinets
  {
    && db.cabinets[line.cabinetId].quantity >= line.quantity
    && tx.w.cabinets == map[line.cabinetId :=
         db.cabinets[line.cabinetId].(quantity := db.cabinets[line.cabinetId].quantity - line.quantity)]
  }

  ghost predicate RacersInv(s: State, line: Line)
    requires line.cabinetId in s.db.cabinets
  {
    && (forall t :: t in s.txs ==> Racer(s.db, s.txs[t], line))
    && (forall t, u :: t in s.txs && u in s.txs && t != u ==> s.txs[t].call.req.key != s.txs[u].call.req.key)
  }

  // Everybody is accounted for, each success took its quantity, and nobody was
  // refused while there was enough.
  ghost predicate Score(seeded: int, left: int, s: State, q: int, n: nat) {
    && |s.answers| + |s.refusals| + |s.txs.Keys| == n
    && 0 <= left == seeded - q * |s.answers|
    && (forall r :: r in s.refusals ==> r.error == InsufficientStock)
    && (s.refusals != [] ==> left < q)
  }

  ghost predicate RaceInv(db0: Store, s: State, line: Line, n: nat)
    requires line.cabinetId in db0.cabinets
  {
    && line.cabinetId in s.db.cabinets
    && RacersInv(s, line)
    && Score(db0.cabinets[line.cabinetId].quantity, s.db.cabinets[line.cabinetId].quantity, s, line.quantity, n)
  }

  // One statement of a racer: it goes on, or it is refused for lack of stock.
  lemma RacerStep(db: Store, tx: Tx, rows: seq<ItemRow>, at: nat, line: Line)
    requires line.cabinetId in db.cabinets && WellPlaced(tx) && Racer(db, tx, line) && !tx.pc.Finish?
    ensures match Execute(db, tx, rows, at)
            case Continue(tx') => Racer(db, tx', line) && tx'.call == tx.call
            case Refused(e) => e == InsufficientStock && db.cabinets[line.cabinetId].quantity < line.quantity
            case Replied(_) => false
  {
  }

  lemma RemoveOne<T>(a: set<T>, x: T)
    requires x in a
    ensures |a - {x}| == |a| - 1
  {
  }

  // Adding or replacing one racer.
  lemma PutRacer(s: State, t: TxId, tx: Tx, line: Line)
    requires line.cabinetId in s.db.cabinets && RacersInv(s, line) && Racer(s.db, tx, line)
    requires forall u :: u in s.txs && u != t ==> s.txs[u].call.req.key != tx.call.req.key
    ensures RacersInv(s.(txs := s.txs[t := tx]), line)
  {
  }

  lemma StatementRace(db0: Store, s: State, t: TxId, rows: seq<ItemRow>, line: Line, n: nat)
    requires line.cabinetId in db0.cabinets && RaceInv(db0, s, line, n)
    requires Enabled(s, Statement(t, rows))
    ensures RaceInv(db0, Next(s, Statement(t, rows)), line, n)
  {
    var s' := Next(s, Statement(t, rows));
    RacerStep(s.db, s.txs[t], rows, |s.history|, line);
    match Execute(s.db, s.txs[t], rows, |s.history|) {
      case Continue(tx) =>
        PutRacer(s, t, tx, line);
        assert s'.txs.Keys == s.txs.Keys;
      case Refused(_) =>
        RemoveOne(s.txs.Keys, t);
        assert s'.txs.Keys == s.txs.Keys - {t};
    }
  }

  // Only one racer can hold the row, so a commit leaves the others as they were.
  lemma CommitKeepsRacer(s: State, t: TxId, u: TxId, line: Line)
    requires t in s.txs && u in s.txs && t != u && line.cabinetId in s.db.cabinets
    requires Racer(s.db, s.txs[t], line) && Racer(s.db, s.txs[u], line) && s.txs[t].pc.Finish?
    requires Disjoint(s.txs[t].w, s.txs[u].w) && s.txs[t].call.req.key != s.txs[u].call.req.key
    ensures line.cabinetId in Overlay(s.db, s.txs[t].w).cabinets
    ensures Racer(Overlay(s.db, s.txs[t].w), s.txs[u], line)
  {
  }

  lemma MulNext(q: int, n: int)
    ensures q * (n + 1) == q * n + q
  {
  }

  lemma CommitRacers(db0: Store, s: State, t: TxId, line: Line)
    requires line.cabinetId in s.db.cabinets && RacersInv(s, line)
    requires TxsInv(db0, s) && Enabled(s, CommitTx(t, true))
    ensures var s' := Next(s, CommitTx(t, true));
      && line.cabinetId in s'.db.cabinets && RacersInv(s', line)
      && s.db.cabinets[line.cabinetId].quantity >= line.quantity
      && s'.db.cabinets[line.cabinetId].quantity == s.db.cabinets[line.cabinetId].quantity - line.quantity
  {
    var s' := Next(s, CommitTx(t, true));
    assert Racer(s.db, s.txs[t], line);
    forall u | u in s'.txs ensures Racer(s'.db, s'.txs[u], line) {
      CommitKeepsRacer(s, t, u, line);
    }
  }

  lemma ScoreCommit(seeded: int, left: int, s: State, s': State, q: int, n: nat)
    requires Score(seeded, left, s, q, n) && left >= q
    requires |s'.answers| == |s.answers| + 1 && s'.refusals == s.refusals && |s'.txs.Keys| == |s.txs.Keys| - 1
    ensures Score(seeded, left - q, s', q, n)
  {
  }

  lemma CommitCount(s: State, t: TxId)
    requires Enabled(s, CommitTx(t, true))
    ensures var s' := Next(s, CommitTx(t, true));
      |s'.answers| == |s.answers| + 1 && s'.refusals == s.refusals && |s'.txs.Keys| == |s.txs.Keys| - 1
  {
  }

  lemma CommitRace(db0: Store, s: State, t: TxId, line: Line, n: nat)
    requires line.cabinetId in db0.cabinets && RaceInv(db0, s, line, n) && TxsInv(db0, s)
    requires Enabled(s, CommitTx(t, true))
    ensures RaceInv(db0, Next(s, CommitTx(t, true)), line, n)
  {
    CommitRacers(db0, s, t, line);
    CommitCount(s, t);
    ScoreCommit(db0.cabinets[line.cabinetId].quantity, s.db.cabinets[line.cabinetId].quantity,
                s, Next(s, CommitTx(t, true)), line.quantity, n);
  }

  lemma BeginRace(db0: Store, s: State, t: TxId, c: Call, line: Line, n: nat)
    requires line.cabinetId in db0.cabinets && RaceInv(db0, s, line, n)
    requires Enabled(s, Begin(t, c)) && RaceLabel(s, Begin(t, c), line)
    ensures RaceInv(db0, Next(s, Begin(t, c)), line, n + 1)
  {
    forall u | u in s.txs ensures s.txs[u].call.req.key != c.req.key {
      assert Racer(s.db, s.txs[u], line);
    }
    PutRacer(s, t, Start(c), line);
    assert Next(s, Begin(t, c)).txs.Keys == s.txs.Keys + {t};
  }

  lemma WorkerRace(db0: Store, s: State, l: Label, line: Line, n: nat)
    requires line.cabinetId in db0.cabinets && RaceInv(db0, s, line, n) && Enabled(s, l)
    requires l.ListBatch? || l.Publish? || l.Mark? || l.Crash?
    ensures RaceInv(db0, Next(s, l), line, n)
  {
    var s' := Next(s, l);
    assert s'.db.cabinets == s.db.cabinets && s'.db.reservations == s.db.reservations;
    forall t | t in s'.txs ensures Racer(s'.db, s'.txs[t], line) {
      assert Racer(s.db, s.txs[t], line);
    }
  }

  lemma StepRace(db0: Store, s: State, l: Label, line: Line, n: nat)
    requires line.cabinetId in db0.cabinets && RaceInv(db0, s, line, n) && TxsInv(db0, s)
    requires Enabled(s, l) && RaceLabel(s, l, line)
    ensures RaceInv(db0, Next(s, l), line, if l.Begin? then n + 1 else n)
  {
    match l {
      case Begin(t, c) => BeginRace(db0, s, t, c, line, n);
      case Statement(t, rows) => StatementRace(db0, s, t, rows, line, n);
      case CommitTx(t, _) => CommitRace(db0, s, t, line, n);
      case _ => WorkerRace(db0, s, l, line, n);
    }
  }

  lemma {:induction false} RunRace(db0: Store, labels: seq<Label>, line: Line)
    requires Runs(db0, labels) && RaceRun(db0, labels, line) && line.cabinetId in db0.cabinets
    ensures RaceInv(db0, After(db0, labels), line, Begins(labels))
    decreases |labels|
  {
    if labels != [] {
      var front := labels[..|labels| - 1];
      RunRace(db0, front, line);
      RunInv(db0, front);
      StepRace(db0, After(db0, front), labels[|labels| - 1], line, Begins(front));
    }
  }

  function Min(a: int, b: int): int {
    if a <= b then a else b
  }

  lemma Quotient(s: int, q: int, a: int)
    requires 0 < q && 0 <= s - q * a
    ensures a <= s / q
    ensures s - q * a < q ==> a == s / q
  {
    assert s == q * (s / q) + s % q;
    if a > s / q {
      MulNext(q, s / q);
      MulMonotone(s / q + 1, a, q);
    }
    if a < s / q {
      MulNext(q, a);
      MulMonotone(a + 1, s / q, q);
    }
  }

  // When everybody has been answered, the successes are the smaller of the
  // number of callers and the number of times the stock covers the quantity;
  // all others were refused for insufficient stock.
  lemma CountedRace(db0: Store, labels: seq<Label>, line: Line)
    requires Runs(db0, labels) && RaceRun(db0, labels, line)
    requires line.cabinetId in db0.cabinets && 0 < line.quantity
    requires After(db0, labels).txs == map[]
    ensures var s, n, stock := After(db0, labels), Begins(labels), db0.cabinets[line.cabinetId].quantity;
      && |s.answers| == Min(n, stock / line.quantity)
      && |s.refusals| == n - |s.answers|
      && (forall r :: r in s.refusals ==> r.error == InsufficientStock)
      && line.cabinetId in s.db.cabinets
      && s.db.cabinets[line.cabinetId].quantity == stock - line.quantity * |s.answers|
  {
    RunRace(db0, labels, line);
    var s := After(db0, labels);
    Quotient(db0.cabinets[line.cabinetId].quantity, line.quantity, |s.answers|);
  }

  // ------------------------------------------------- a race can always go on

  // The step of a racer that need not wait, if there is one for t.
  function NextOf(tx: Tx, t: TxId): Label {
    if tx.pc.Finish? then CommitTx(t, true) else Statement(t, [])
  }

  ghost predicate HoldsRow(tx: Tx, line: Line) {
    line.cabinetId in tx.w.cabinets
  }

  lemma RacerMoves(db0: Store, s: State, t: TxId, line: Line)
    requires TxsInv(db0, s) && line.cabinetId in s.db.cabinets && RacersInv(s, line) && t in s.txs
    requires HoldsRow(s.txs[t], line) || forall u :: u in s.txs ==> !HoldsRow(s.txs[u], line)
    ensures Enabled(s, NextOf(s.txs[t], t))
  {
    var tx := s.txs[t];
    assert Racer(s.db, tx, line);
    if !tx.pc.Finish? {
      assert LinesOf(tx.call.req) == [line] && StockKeysOf(tx.call) == [tx.call.req.key];
      forall u | u in s.txs && u != t ensures !Conflicts(tx, s.txs[u].w) {
        assert Racer(s.db, s.txs[u], line);
      }
    }
  }

  // While a racer is live, some racer's next step is enabled.
  lemma SomeRacerMoves(db0: Store, s: State, line: Line) returns (t: TxId)
    requires TxsInv(db0, s) && line.cabinetId in s.db.cabinets && RacersInv(s, line) && s.txs != map[]
    ensures t in s.txs && Enabled(s, NextOf(s.txs[t], t))
  {
    if u :| u in s.txs && HoldsRow(s.txs[u], line) {
      t := u;
    } else {
      t :| t in s.txs;
    }
    RacerMoves(db0, s, t, line);
  }

  function StepsOf(tx: Tx): int {
    if tx.pc.Find? then 4 else if tx.pc.Take? then 3 else if tx.pc.Record? then 2 else 1
  }

  ghost function StepsToGo(txs: map<TxId, Tx>): int {
    Sum<TxId>(map t: TxId | t in txs :: StepsOf(txs[t]))
  }

  lemma StepsToGoPut(txs: map<TxId, Tx>, t: TxId, tx: Tx)
    requires t in txs
    ensures StepsToGo(txs[t := tx]) == StepsToGo(txs) - StepsOf(txs[t]) + StepsOf(tx)
  {
    var m: map<TxId, int>, more := map u: TxId | u in txs :: StepsOf(txs[u]), txs[t := tx];
    SumUpdate<TxId>(m, t, StepsOf(tx));
    assert (map u: TxId | u in more :: StepsOf(more[u])) == m[t := StepsOf(tx)];
  }

  lemma StepsToGoDrop(txs: map<TxId, Tx>, t: TxId)
    requires t in txs
    ensures StepsToGo(txs - {t}) == StepsToGo(txs) - StepsOf(txs[t])
  {
    var m: map<TxId, int>, less := map u: TxId | u in txs :: StepsOf(txs[u]), txs - {t};
    SumRemove<TxId>(m, t);
    assert (map u: TxId | u in less :: StepsOf(less[u])) == m - {t};
  }

  lemma {:induction false} StepsToGoCount(txs: map<TxId, Tx>)
    ensures StepsToGo(txs) >= 0
    decreases |txs|
  {
    if txs != map[] {
      var t :| t in txs;
      StepsToGoDrop(txs, t);
      StepsToGoCount(txs - {t});
    }
  }

  lemma RacerGetsNearer(db: Store, tx: Tx, line: Line, at: nat)
    requires line.cabinetId in db.cabinets && WellPlaced(tx) && Racer(db, tx, line) && !tx.pc.Finish?
    ensures var r := Execute(db, tx, [], at);
      !r.Replied? && (r.Continue? ==> StepsOf(r.tx) < StepsOf(tx))
  {
    RacerStep(db, tx, [], at, line);
  }

  lemma MoveGetsNearer(db0: Store, s: State, t: TxId, line: Line)
    requires TxsInv(db0, s) && line.cabinetId in s.db.cabinets && RacersInv(s, line)
    requires t in s.txs && Enabled(s, NextOf(s.txs[t], t))
    ensures StepsToGo(Next(s, NextOf(s.txs[t], t)).txs) < StepsToGo(s.txs)
  {
    StepsToGoDrop(s.txs, t);
    if !s.txs[t].pc.Finish? {
      RacerGetsNearer(s.db, s.txs[t], line, |s.history|);
      match Execute(s.db, s.txs[t], [], |s.history|) {
        case Continue(tx) => StepsToGoPut(s.txs, t, tx);
        case _ =>
      }
    }
  }

  lemma RaceExtend(db0: Store, labels: seq<Label>, l: Label, line: Line)
    requires Runs(db0, labels) && RaceRun(db0, labels, line) && Enabled(After(db0, labels), l)
    requires RaceLabel(After(db0, labels), l, line) && !l.Begin?
    ensures Runs(db0, labels + [l]) && RaceRun(db0, labels + [l], line)
    ensures After(db0, labels + [l]) == Next(After(db0, labels), l) && Begins(labels + [l]) == Begins(labels)
  {
    Extend(db0, labels, l);
    assert (labels + [l])[..|labels|] == labels;
  }

  lemma RaceMoves(db0: Store, labels: seq<Label>, line: Line) returns (l: Label)
    requires Runs(db0, labels) && RaceRun(db0, labels, line) && line.cabinetId in db0.cabinets
    requires After(db0, labels).txs != map[]
    ensures Enabled(After(db0, labels), l) && RaceLabel(After(db0, labels), l, line) && !l.Begin?
    ensures StepsToGo(Next(After(db0, labels), l).txs) < StepsToGo(After(db0, labels).txs)
  {
    RunRace(db0, labels, line);
    RunInv(db0, labels);
    var s := After(db0, labels);
    var t := SomeRacerMoves(db0, s, line);
    l := NextOf(s.txs[t], t);
    MoveGetsNearer(db0, s, t, line);
  }

  // Every race can be run to its end without new callers, so that everybody is
  // answered and the count applies.
  lemma {:induction false} RaceCanFinish(db0: Store, labels: seq<Label>, line: Line) returns (all: seq<Label>)
    requires Runs(db0, labels) && RaceRun(db0, labels, line) && line.cabinetId in db0.cabinets
    ensures labels <= all && Runs(db0, all) && RaceRun(db0, all, line) && Begins(all) == Begins(labels)
    ensures After(db0, all).txs == map[]
    decreases StepsToGo(After(db0, labels).txs)
  {
    all := labels;
    if After(db0, labels).txs != map[] {
      var l := RaceMoves(db0, labels, line);
      RaceExtend(db0, labels, l, line);
      StepsToGoCount(Next(After(db0, labels), l).txs);
      all := RaceCanFinish(db0, labels + [l], line);
    }
  }
}
