// Runs in which one of two equal, overlapping calls loses: it is refused as a
// duplicate although an atomic call would return the original result.
module Losers {
  import opened Tables
  import opened Replay
  import opened StockKeys
  import opened Spec
  import opened History
  import opened Machine
  import opened TxProof
  import opened Refinement
  import opened Ledger
  import opened Value
  import opened Outcome
  import opened Retries

  // ------------------------------------------------------ a losing reservation

  function ReserveCall(line: Line, key: string): Call {
    Call(Reserve(line, key), Ids("", [], ""), 0)
  }

  function TakingTx(line: Line, key: string): Tx {
    Start(ReserveCall(line, key)).(pc := Take(0))
  }

  function Less(row: Cabinet, q: int): Cabinet {
    row.(quantity := row.quantity - q)
  }

  function RecordingTx(line: Line, key: string, row: Cabinet): Tx {
    TakingTx(line, key).(pc := Record(0), w := NO_WRITES.(cabinets := map[line.cabinetId := Less(row, line.quantity)]))
  }

  // Two equal calls begin and look the key up before either writes.
  lemma BothLookUp(db0: Store, line: Line, key: string) returns (labels: seq<Label>)
    requires Initial(db0) && 0 < line.quantity <= MAX_INT32
    ensures Runs(db0, labels)
    ensures After(db0, labels) == Boot(db0).(txs := map[0 := TakingTx(line, key), 1 := TakingTx(line, key)])
  {
    var c := ReserveCall(line, key);
    Extend(db0, [], Begin(0, c));
    labels := [Begin(0, c)];
    assert [] + labels == labels;
    Extend(db0, labels, Begin(1, c));
    labels := labels + [Begin(1, c)];
    Extend(db0, labels, Statement(0, []));
    labels := labels + [Statement(0, [])];
    Extend(db0, labels, Statement(1, []));
    labels := labels + [Statement(1, [])];
    assert After(db0, labels).txs == map[0 := TakingTx(line, key), 1 := TakingTx(line, key)];
  }

  // The rows once one of the calls has committed.
  function AfterFirst(db0: Store, line: Line, key: string): Store
    requires line.cabinetId in db0.cabinets
  {
    Overlay(db0, FinishedTx(line, key, db0.cabinets[line.cabinetId], 0).w)
  }

  function FinishedTx(line: Line, key: string, row: Cabinet, at: nat): Tx {
    var left := Less(row, line.quantity);
    var w := AddReservation(NO_WRITES, left, line, key);
    RecordingTx(line, key, row).(w := w, pc := Finish(Answer(ReserveCall(line, key), [], Reserved(line.cabinetId, left), at, true)))
  }

  lemma FirstTakes(db0: Store, line: Line, key: string) returns (labels: seq<Label>)
    requires Initial(db0) && 0 < line.quantity <= MAX_INT32
    requires line.cabinetId in db0.cabinets && db0.cabinets[line.cabinetId].quantity >= line.quantity
    ensures Runs(db0, labels)
    ensures After(db0, labels) == Boot(db0).(txs := map[
      0 := RecordingTx(line, key, db0.cabinets[line.cabinetId]), 1 := TakingTx(line, key)])
  {
    labels := BothLookUp(db0, line, key);
    Extend(db0, labels, Statement(0, []));
    labels := labels + [Statement(0, [])];
    assert After(db0, labels).txs == map[0 := RecordingTx(line, key, db0.cabinets[line.cabinetId]), 1 := TakingTx(line, key)];
  }

  lemma FirstWrites(db0: Store, line: Line, key: string) returns (labels: seq<Label>)
    requires Initial(db0) && 0 < line.quantity <= MAX_INT32
    requires line.cabinetId in db0.cabinets && db0.cabinets[line.cabinetId].quantity >= line.quantity
    ensures Runs(db0, labels)
    ensures After(db0, labels) == Boot(db0).(txs := map[
      0 := FinishedTx(line, key, db0.cabinets[line.cabinetId], 0), 1 := TakingTx(line, key)])
  {
    var row := db0.cabinets[line.cabinetId];
    labels := FirstTakes(db0, line, key);
    assert Execute(db0, RecordingTx(line, key, row), [], 0) == Continue(FinishedTx(line, key, row, 0));
    Extend(db0, labels, Statement(0, []));
    labels := labels + [Statement(0, [])];
    assert After(db0, labels).txs == map[0 := FinishedTx(line, key, row, 0), 1 := TakingTx(line, key)];
  }

  lemma FirstCommits(db0: Store, line: Line, key: string) returns (labels: seq<Label>)
    requires Initial(db0) && 0 < line.quantity <= MAX_INT32
    requires line.cabinetId in db0.cabinets && db0.cabinets[line.cabinetId].quantity >= line.quantity
    ensures Runs(db0, labels)
    ensures var s := After(db0, labels);
      && s.db == AfterFirst(db0, line, key) && s.txs == map[1 := TakingTx(line, key)]
      && s.refusals == [] && s.answers == [FinishedTx(line, key, db0.cabinets[line.cabinetId], 0).pc.answer]
  {
    labels := FirstWrites(db0, line, key);
    Extend(db0, labels, CommitTx(0, true));
    labels := labels + [CommitTx(0, true)];
    assert After(db0, labels).txs == map[1 := TakingTx(line, key)];
  }

  lemma SecondTakes(db0: Store, line: Line, key: string) returns (labels: seq<Label>)
    requires Initial(db0) && 0 < line.quantity <= MAX_INT32
    requires line.cabinetId in db0.cabinets && db0.cabinets[line.cabinetId].quantity >= 2 * line.quantity
    ensures Runs(db0, labels)
    ensures var s := After(db0, labels);
      && s.db == AfterFirst(db0, line, key)
      && s.txs == map[1 := RecordingTx(line, key, s.db.cabinets[line.cabinetId])]
      && s.refusals == [] && s.answers == [FinishedTx(line, key, db0.cabinets[line.cabinetId], 0).pc.answer]
  {
    labels := FirstCommits(db0, line, key);
    var row := AfterFirst(db0, line, key).cabinets[line.cabinetId];
    Extend(db0, labels, Statement(1, []));
    labels := labels + [Statement(1, [])];
    assert After(db0, labels).txs == map[1 := RecordingTx(line, key, row)];
  }

  // The promise that the same key returns the original result fails for two
  // overlapping equal calls, whatever the line and the key: with stock for both
  // the second is refused as a duplicate, although on the rows it was refused
  // on an atomic call would return the reservation.
  lemma OverlappingRetryIsRefused(db0: Store, line: Line, key: string) returns (labels: seq<Label>)
    requires Initial(db0) && 0 < line.quantity <= MAX_INT32
    requires line.cabinetId in db0.cabinets && db0.cabinets[line.cabinetId].quantity >= 2 * line.quantity
    ensures Runs(db0, labels)
    ensures var s, c := After(db0, labels), ReserveCall(line, key);
      && ValidCall(c)
      && |s.answers| == 1 && s.answers[0].call == c
      && s.refusals == [Refusal(c, DuplicateReservation, s.db)]
      && line.cabinetId in s.db.cabinets
      && Perform(s.db, c, []) == Ok(Done(NO_WRITES, Reserved(line.cabinetId, s.db.cabinets[line.cabinetId])))
  {
    labels := SecondTakes(db0, line, key);
    Extend(db0, labels, Statement(1, []));
    labels := labels + [Statement(1, [])];
  }

  // ------------------------------------------ a transaction running by itself

  // Nobody else has written anything.
  ghost predicate Alone(s: State, t: TxId) {
    t in s.txs && forall u :: u in s.txs && u != t ==> s.txs[u].w == NO_WRITES
  }

  // Nothing is in the way of the order: of its stock, and, if it is to be
  // inserted, of its rows.
  ghost predicate Clear(db: Store, c: Call, insert: bool) {
    && ValidCall(c) && c.req.Place?
    && AllListed(db, c.req.lines) && FreshCall(db, c)
    && ReserveLines(db, c.req.lines, StockKeysOf(c), |c.req.lines|).Ok?
    && (insert ==>
          && c.ids.orderId !in db.orders && c.req.key !in db.orderKeys
          && ItemIdsFree(db, c.ids.itemIds) && c.ids.eventId !in db.outbox)
  }

  predicate Arrived(tx: Tx, insert: bool) {
    if insert then tx.pc.Finish? else tx.pc.InsertHeader?
  }

  // Past the lookup and not yet there.
  predicate UnderWay(tx: Tx, insert: bool) {
    && tx.call.req.Place? && !tx.pc.Lookup? && !tx.pc.List? && !Arrived(tx, insert)
    && (insert || tx.pc.Price? || tx.pc.Find? || tx.pc.Reload? || tx.pc.Take? || tx.pc.Record?)
  }

  function StatementsLeft(tx: Tx): int {
    var n := |LinesOf(tx.call.req)|;
    match tx.pc
    case Price(i) => 6 * n + 2 - i
    case Find(i) => n + 2 + 4 * (n - i)
    case Reload(i) => n + 2 + 4 * (n - i) - 1
    case Take(i) => n + 2 + 4 * (n - i) - 1
    case Record(i) => n + 2 + 4 * (n - i) - 2
    case InsertHeader => n + 2
    case InsertLine(i) => n + 1 - i
    case InsertEvent => 1
    case _ => 0
  }

  lemma ReservingGoesOn(db: Store, tx: Tx, at: nat)
    requires TxInv(db, tx) && Clear(db, tx.call, false)
    requires tx.pc.Find? || tx.pc.Reload? || tx.pc.Take? || tx.pc.Record?
    ensures Execute(db, tx, [], at).Continue?
  {
    var lines, keys, i := tx.call.req.lines, StockKeysOf(tx.call), tx.pc.i;
    if !tx.pc.Record? && ReserveOn(db, tx.w, lines[i], keys[i]).Err? {
      RefusalStops(db, lines, keys, i, |lines|);
      assert false;
    }
  }

  lemma InsertingGoesOn(db: Store, tx: Tx, at: nat)
    requires TxInv(db, tx) && Clear(db, tx.call, true)
    requires tx.pc.InsertHeader? || tx.pc.InsertLine? || tx.pc.InsertEvent?
    ensures Execute(db, tx, [], at).Continue?
  {
    var lines, ids := tx.call.req.lines, tx.call.ids.itemIds;
    ReserveLinesWrites(db, lines, StockKeysOf(tx.call), |lines|);
    if tx.pc.InsertLine? {
      ItemTableKeys(tx.call, tx.prices, tx.pc.i);
      assert ids[tx.pc.i] !in ids[..tx.pc.i];
    }
  }

  lemma GoesOn(db: Store, tx: Tx, at: nat, insert: bool)
    requires TxInv(db, tx) && Clear(db, tx.call, insert) && UnderWay(tx, insert)
    ensures Execute(db, tx, [], at).Continue?
  {
    if tx.pc.Price? {
    } else if tx.pc.InsertHeader? || tx.pc.InsertLine? || tx.pc.InsertEvent? {
      InsertingGoesOn(db, tx, at);
    } else {
      ReservingGoesOn(db, tx, at);
    }
  }

  lemma GetsNearer(db: Store, tx: Tx, at: nat, insert: bool)
    requires WellPlaced(tx) && UnderWay(tx, insert) && Execute(db, tx, [], at).Continue?
    ensures var tx' := Execute(db, tx, [], at).tx;
      && tx'.call == tx.call
      && (UnderWay(tx', insert) || Arrived(tx', insert))
      && 0 <= StatementsLeft(tx') < StatementsLeft(tx)
  {
  }

  lemma AloneIsEnabled(db0: Store, s: State, t: TxId)
    requires Inv(db0, s) && Alone(s, t) && !s.txs[t].pc.List? && !s.txs[t].pc.Finish?
    ensures Enabled(s, Statement(t, []))
  {
  }

  // One statement of a transaction that runs by itself.
  lemma AloneStep(db0: Store, labels: seq<Label>, t: TxId, insert: bool)
    requires Runs(db0, labels) && Alone(After(db0, labels), t)
    requires var s := After(db0, labels); UnderWay(s.txs[t], insert) && Clear(s.db, s.txs[t].call, insert)
    ensures var s := After(db0, labels);
      && Enabled(s, Statement(t, []))
      && Execute(s.db, s.txs[t], [], |s.history|).Continue?
      && var tx' := Execute(s.db, s.txs[t], [], |s.history|).tx;
      && tx'.call == s.txs[t].call && (UnderWay(tx', insert) || Arrived(tx', insert))
      && 0 <= StatementsLeft(tx') < StatementsLeft(s.txs[t])
  {
    RunInv(db0, labels);
    var s := After(db0, labels);
    AloneIsEnabled(db0, s, t);
    GoesOn(s.db, s.txs[t], |s.history|, insert);
    GetsNearer(s.db, s.txs[t], |s.history|, insert);
  }

  lemma PutTwice(txs: map<TxId, Tx>, t: TxId, tx: Tx, tx': Tx)
    ensures txs[t := tx][t := tx'] == txs[t := tx']
  {
  }

  lemma AloneMoves(db0: Store, labels: seq<Label>, t: TxId, insert: bool)
    requires Runs(db0, labels) && Alone(After(db0, labels), t)
    requires var s := After(db0, labels); UnderWay(s.txs[t], insert) && Clear(s.db, s.txs[t].call, insert)
    ensures var all := labels + [Statement(t, [])];
      && Runs(db0, all) && t in After(db0, all).txs
      && var s, tx' := After(db0, labels), After(db0, all).txs[t];
      && After(db0, all) == s.(txs := s.txs[t := tx']) && tx'.call == s.txs[t].call
      && (UnderWay(tx', insert) || Arrived(tx', insert))
      && 0 <= StatementsLeft(tx') < StatementsLeft(s.txs[t])
  {
    AloneStep(db0, labels, t, insert);
    Extend(db0, labels, Statement(t, []));
  }

  // It gets there, and nothing but itself has changed.
  lemma {:induction false} RunAlone(db0: Store, labels: seq<Label>, t: TxId, insert: bool) returns (all: seq<Label>)
    requires Runs(db0, labels) && Alone(After(db0, labels), t)
    requires var s := After(db0, labels); UnderWay(s.txs[t], insert) && Clear(s.db, s.txs[t].call, insert)
    ensures Runs(db0, all) && t in After(db0, all).txs
    ensures var s, tx' := After(db0, labels), After(db0, all).txs[t];
      After(db0, all) == s.(txs := s.txs[t := tx']) && tx'.call == s.txs[t].call && Arrived(tx', insert)
    decreases StatementsLeft(After(db0, labels).txs[t])
  {
    AloneMoves(db0, labels, t, insert);
    all := labels + [Statement(t, [])];
    if !Arrived(After(db0, all).txs[t], insert) {
      var more := RunAlone(db0, all, t, insert);
      PutTwice(After(db0, labels).txs, t, After(db0, all).txs[t], After(db0, more).txs[t]);
      all := more;
    }
  }

  // ----------------------------------------------------------- a losing order

  // Equal requests, with ids drawn apart.
  ghost predicate EqualOrders(c0: Call, c1: Call) {
    && ValidCall(c0) && ValidCall(c1) && c0.req.Place? && c0.req == c1.req
    && ColonFree(c0.ids.orderId) && ColonFree(c1.ids.orderId) && c0.ids.orderId != c1.ids.orderId
    && Distinct(c0.ids.itemIds)
  }

  // Lines that two orders can be served with.
  ghost predicate StockForTwo(db: Store, lines: seq<Line>) {
    && Consistent(lines)
    && forall k :: 0 <= k < |lines| ==>
         lines[k].cabinetId in db.cabinets && db.cabinets[lines[k].cabinetId].quantity >= 2 * lines[k].quantity
  }

  function PricingTx(c: Call): Tx {
    Start(c).(pc := Price(0))
  }

  lemma BothOrdersLookUp(db0: Store, c0: Call, c1: Call) returns (labels: seq<Label>)
    requires Initial(db0) && EqualOrders(c0, c1)
    ensures Runs(db0, labels)
    ensures After(db0, labels) == Boot(db0).(txs := map[0 := PricingTx(c0), 1 := PricingTx(c1)])
  {
    labels := [];
    Extend(db0, labels, Begin(0, c0));
    labels := labels + [Begin(0, c0)];
    Extend(db0, labels, Begin(1, c1));
    labels := labels + [Begin(1, c1)];
    Extend(db0, labels, Statement(0, []));
    labels := labels + [Statement(0, [])];
    Extend(db0, labels, Statement(1, []));
    labels := labels + [Statement(1, [])];
    assert After(db0, labels).txs == map[0 := PricingTx(c0), 1 := PricingTx(c1)];
  }

  lemma FeasibleIfStocked(db: Store, lines: seq<Line>)
    requires Consistent(lines)
    requires forall k :: 0 <= k < |lines| ==> !Short(db, lines, k)
    ensures Feasible(db, lines, |lines|)
  {
  }

  lemma FirstIsClear(db0: Store, c0: Call)
    requires Initial(db0) && ValidCall(c0) && c0.req.Place? && Distinct(c0.ids.itemIds) && StockForTwo(db0, c0.req.lines)
    ensures Clear(db0, c0, true)
  {
    assert forall k :: 0 <= k < |c0.req.lines| ==> c0.req.lines[k] in c0.req.lines;
    FeasibleIfStocked(db0, c0.req.lines);
    LinesDecide(db0, c0, |c0.req.lines|);
  }

  lemma KeysApart(c0: Call, c1: Call, j: nat, k: nat)
    requires EqualOrders(c0, c1) && j < |c0.req.lines| && k < |c1.req.lines|
    ensures StockKeysOf(c0)[j] != StockKeysOf(c1)[k]
  {
    if StockKeysOf(c0)[j] == StockKeysOf(c1)[k] {
      StockKeyInjective(c0.ids.orderId, c0.req.lines[j].cabinetId, c1.ids.orderId, c1.req.lines[k].cabinetId);
    }
  }

  lemma KeyApart(c0: Call, c1: Call, k: nat)
    requires EqualOrders(c0, c1) && k < |c1.req.lines|
    ensures forall j :: 0 <= j < |c0.req.lines| ==> StockKeysOf(c0)[j] != StockKeysOf(c1)[k]
  {
    forall j | 0 <= j < |c0.req.lines| ensures StockKeysOf(c0)[j] != StockKeysOf(c1)[k] {
      KeysApart(c0, c1, j, k);
    }
  }

  lemma SecondStaysFresh(db0: Store, c0: Call, c1: Call)
    requires Initial(db0) && EqualOrders(c0, c1) && Effective(db0, Commit(c0))
    ensures FreshCall(ApplyOp(db0, Commit(c0)), c1)
  {
    FreshOrderReservations(db0, c0);
    forall k | 0 <= k < |c1.req.lines| ensures StockKeysOf(c1)[k] !in ApplyOp(db0, Commit(c0)).reservations {
      KeyApart(c0, c1, k);
    }
  }

  // After the first order is committed there is stock for the second.
  lemma SecondIsClear(db0: Store, c0: Call, c1: Call)
    requires Initial(db0) && EqualOrders(c0, c1) && StockForTwo(db0, c0.req.lines) && Effective(db0, Commit(c0))
    ensures Clear(ApplyOp(db0, Commit(c0)), c1, false)
  {
    var db1, lines := ApplyOp(db0, Commit(c0)), c1.req.lines;
    SecondStaysFresh(db0, c0, c1);
    FreshOrderStock(db0, c0);
    FeasibleIfStocked(db1, lines);
    LinesDecide(db1, c1, |lines|);
  }

  lemma FinishedOrderWrote(db: Store, tx: Tx)
    requires TxInv(db, tx) && tx.call.req.Place? && tx.pc.Finish?
    ensures tx.pc.answer.wrote && tx.pc.answer.call == tx.call
  {
  }

  lemma FirstFinishes(db0: Store, c0: Call, c1: Call) returns (labels: seq<Label>)
    requires Initial(db0) && EqualOrders(c0, c1) && StockForTwo(db0, c0.req.lines)
    ensures Runs(db0, labels)
    ensures var s := After(db0, labels);
      && 0 in s.txs && s == Boot(db0).(txs := map[0 := s.txs[0], 1 := PricingTx(c1)])
      && s.txs[0].call == c0 && s.txs[0].pc.Finish? && s.txs[0].pc.answer.wrote && s.txs[0].pc.answer.call == c0
  {
    var front := BothOrdersLookUp(db0, c0, c1);
    FirstIsClear(db0, c0);
    labels := RunAlone(db0, front, 0, true);
    var txs, tx := map[0 := PricingTx(c0), 1 := PricingTx(c1)], After(db0, labels).txs[0];
    assert txs[0 := tx] == map[0 := tx, 1 := PricingTx(c1)];
    RunInv(db0, labels);
    FinishedOrderWrote(db0, tx);
  }

  lemma FirstTakesEffect(db0: Store, tx: Tx)
    requires TxInv(db0, tx) && tx.pc.Finish? && tx.pc.answer.wrote
    ensures Effective(db0, Commit(tx.call)) && ApplyOp(db0, Commit(tx.call)) == Overlay(db0, tx.w)
  {
    FinishPerforms(db0, tx);
  }

  lemma CommitFirst(db0: Store, s: State, c1: Call)
    requires 0 in s.txs && s == Boot(db0).(txs := map[0 := s.txs[0], 1 := PricingTx(c1)])
    requires s.txs[0].pc.Finish? && s.txs[0].pc.answer.wrote && s.txs[0].pc.answer.call == s.txs[0].call
    ensures Enabled(s, CommitTx(0, true))
    ensures var s' := Next(s, CommitTx(0, true));
      && s'.db == Overlay(db0, s.txs[0].w) && s'.txs == map[1 := PricingTx(c1)]
      && s'.refusals == [] && |s'.answers| == 1 && s'.answers[0].call == s.txs[0].call && s'.answers[0].wrote
  {
    assert s.txs - {0} == map[1 := PricingTx(c1)];
  }

  lemma FirstOrderCommits(db0: Store, c0: Call, c1: Call) returns (labels: seq<Label>)
    requires Initial(db0) && EqualOrders(c0, c1) && StockForTwo(db0, c0.req.lines)
    ensures Runs(db0, labels) && Effective(db0, Commit(c0))
    ensures var s := After(db0, labels);
      && s.db == ApplyOp(db0, Commit(c0)) && s.txs == map[1 := PricingTx(c1)]
      && s.refusals == [] && |s.answers| == 1 && s.answers[0].call == c0 && s.answers[0].wrote
  {
    var front := FirstFinishes(db0, c0, c1);
    RunInv(db0, front);
    FirstTakesEffect(db0, After(db0, front).txs[0]);
    CommitFirst(db0, After(db0, front), c1);
    Extend(db0, front, CommitTx(0, true));
    labels := front + [CommitTx(0, true)];
  }

  lemma SecondReachesInsert(db0: Store, c0: Call, c1: Call) returns (labels: seq<Label>)
    requires Initial(db0) && EqualOrders(c0, c1) && StockForTwo(db0, c0.req.lines)
    ensures Runs(db0, labels) && Effective(db0, Commit(c0))
    ensures var s := After(db0, labels);
      && s.db == ApplyOp(db0, Commit(c0)) && s.txs.Keys == {1} && s.txs[1].call == c1 && s.txs[1].pc.InsertHeader? && WellPlaced(s.txs[1])
      && s.refusals == [] && |s.answers| == 1 && s.answers[0].call == c0 && s.answers[0].wrote
  {
    var front := FirstOrderCommits(db0, c0, c1);
    SecondIsClear(db0, c0, c1);
    labels := RunAlone(db0, front, 1, false);
    RunInv(db0, labels);
  }

  // A call equal to the one that placed the order repeats what is stored.
  lemma EqualCallIsSame(db0: Store, labels: seq<Label>, c0: Call, c1: Call)
    requires Runs(db0, labels) && Initial(db0) && EqualOrders(c0, c1) && Effective(db0, Commit(c0))
    requires After(db0, labels).db == ApplyOp(db0, Commit(c0))
    ensures KeyCommitted(After(db0, labels).db, c1) && Same(After(db0, labels).db, c1)
  {
    InitialAgrees(db0);
    CommittedOrderIsSame(db0, labels, db0, c0, c1);
  }

  lemma ReplaysAtomically(db0: Store, labels: seq<Label>, c: Call)
    requires Runs(db0, labels) && ValidCall(c) && c.req.Place?
    requires KeyCommitted(After(db0, labels).db, c) && Same(After(db0, labels).db, c)
    ensures var db := After(db0, labels).db;
      forall rows :: PossibleListing(db, c, rows) ==> Perform(db, c, rows).Ok? && Perform(db, c, rows).value.writes == NO_WRITES
  {
    var db := After(db0, labels).db;
    forall rows | PossibleListing(db, c, rows)
      ensures Perform(db, c, rows).Ok? && Perform(db, c, rows).value.writes == NO_WRITES
    {
      ReplayDecides(db0, labels, c, rows);
    }
  }

  lemma HeaderCollides(s: State, c1: Call)
    requires s.txs.Keys == {1} && WellPlaced(s.txs[1]) && s.txs[1].call == c1 && s.txs[1].pc.InsertHeader?
    requires c1.req.Place? && c1.req.key in s.db.orderKeys
    ensures Enabled(s, Statement(1, []))
    ensures Next(s, Statement(1, [])) == s.(txs := s.txs - {1}, refusals := s.refusals + [Refusal(c1, DuplicateOrder, s.db)])
  {
  }

  lemma FirstOrderClaims(db0: Store, c0: Call)
    requires Effective(db0, Commit(c0)) && c0.req.Place?
    ensures c0.req.key in ApplyOp(db0, Commit(c0)).orderKeys
  {
    FreshOrderRows(db0, c0);
  }

  lemma SecondIsRefused(db0: Store, c0: Call, c1: Call) returns (labels: seq<Label>)
    requires Initial(db0) && EqualOrders(c0, c1) && StockForTwo(db0, c0.req.lines)
    ensures Runs(db0, labels) && Effective(db0, Commit(c0))
    ensures var s := After(db0, labels);
      && s.db == ApplyOp(db0, Commit(c0)) && |s.answers| == 1 && s.answers[0].call == c0 && s.answers[0].wrote
      && s.refusals == [Refusal(c1, DuplicateOrder, s.db)]
  {
    var front := SecondReachesInsert(db0, c0, c1);
    FirstOrderClaims(db0, c0);
    HeaderCollides(After(db0, front), c1);
    Extend(db0, front, Statement(1, []));
    labels := front + [Statement(1, [])];
  }

  // The same for orders: for all lines with stock for both, two equal calls
  // look up, one commits, and the other is refused as a duplicate order,
  // although on the rows it was refused on an atomic call would replay.
  lemma OverlappingOrderIsRefused(db0: Store, c0: Call, c1: Call) returns (labels: seq<Label>)
    requires Initial(db0) && EqualOrders(c0, c1) && StockForTwo(db0, c0.req.lines)
    ensures Runs(db0, labels)
    ensures var s := After(db0, labels);
      && |s.answers| == 1 && s.answers[0].call == c0 && s.answers[0].wrote
      && s.refusals == [Refusal(c1, DuplicateOrder, s.db)]
      && KeyCommitted(s.db, c1) && Same(s.db, c1)
      && forall rows :: PossibleListing(s.db, c1, rows) ==>
           Perform(s.db, c1, rows).Ok? && Perform(s.db, c1, rows).value.writes == NO_WRITES
  {
    labels := SecondIsRefused(db0, c0, c1);
    EqualCallIsSame(db0, labels, c0, c1);
    ReplaysAtomically(db0, labels, c1);
  }
}
