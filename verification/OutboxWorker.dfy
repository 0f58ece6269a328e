// The worker's ProcessBatch as it is written, the steps of the interleaved
// system it amounts to, and how soon repeated batches publish a row.
module OutboxWorker {
  import opened Tables
  import opened Machine

  // What becomes of one event: whether Publish returns without error, and
  // whether the UPDATE that marks it does.
  datatype EventFate = EventFate(published: bool, marked: bool)

  ghost function IdsOf(batch: seq<EventRow>): set<Id> {
    set row | row in batch :: row.id
  }

  // Rows of the batch that end up marked.
  ghost function Done(batch: seq<EventRow>, fate: Id -> EventFate): set<Id> {
    set row | row in batch && fate(row.id).published && fate(row.id).marked :: row.id
  }

  function MarkAll(outbox: map<Id, Event>, ids: set<Id>): map<Id, Event> {
    map id | id in outbox :: if id in ids then outbox[id].(published := true) else outbox[id]
  }

  // The messages the broker accepts, in batch order.
  function Sent(batch: seq<EventRow>, fate: Id -> EventFate): seq<Message> {
    if batch == [] then []
    else
      var row := batch[|batch| - 1];
      Sent(batch[..|batch| - 1], fate) + if fate(row.id).published then [MessageOf(row.event)] else []
  }

  ghost function Unpublished(outbox: map<Id, Event>): set<Id> {
    set id | id in outbox && !outbox[id].published
  }

  lemma NextOldest(outbox: map<Id, Event>, batch: seq<EventRow>, limit: nat, best: Id)
    requires IsBatch(outbox, limit, batch) && best in Unpublished(outbox) - IdsOf(batch)
    requires forall id :: id in Unpublished(outbox) - IdsOf(batch) ==> outbox[best].createdAt <= outbox[id].createdAt
    ensures IsBatch(outbox, limit + 1, batch + [EventRow(best, outbox[best])])
  {
    var more := batch + [EventRow(best, outbox[best])];
    assert EventRow(best, outbox[best]) !in batch;
    forall id | id in outbox && !outbox[id].published && EventRow(id, outbox[id]) !in more
      ensures |more| == limit + 1 && forall row :: row in more ==> row.event.createdAt <= outbox[id].createdAt
    {
      assert EventRow(id, outbox[id]) !in batch && id in Unpublished(outbox);
      if id in IdsOf(batch) {
        ListedRow(outbox, limit, batch, id);
        assert false;
      }
    }
  }

  lemma ListedRow(outbox: map<Id, Event>, limit: nat, batch: seq<EventRow>, id: Id)
    requires IsBatch(outbox, limit, batch) && id in IdsOf(batch)
    ensures id in outbox && EventRow(id, outbox[id]) in batch
  {
    var i :| 0 <= i < |batch| && batch[i].id == id;
    assert batch[i] == EventRow(id, outbox[id]);
  }

  lemma NothingLeft(outbox: map<Id, Event>, batch: seq<EventRow>, n: nat, limit: nat)
    requires IsBatch(outbox, n, batch) && n <= limit && Unpublished(outbox) - IdsOf(batch) == {}
    ensures IsBatch(outbox, limit, batch)
  {
    forall id | id in outbox && !outbox[id].published ensures EventRow(id, outbox[id]) in batch {
      assert id in Unpublished(outbox) && id !in Unpublished(outbox) - IdsOf(batch);
      ListedRow(outbox, n, batch, id);
    }
  }

  class Publisher {
    var log: seq<Message>

    constructor ()
      ensures log == []
    {
      log := [];
    }

    method Publish(message: Message, accept: bool) returns (ok: bool)
      modifies this
      ensures ok == accept
      ensures log == if accept then old(log) + [message] else old(log)
    {
      if accept {
        log := log + [message];
      }
      ok := accept;
    }
  }

  class OutboxTable {
    var rows: map<Id, Event>

    constructor (rows: map<Id, Event>)
      ensures this.rows == rows
    {
      this.rows := rows;
    }

    // The oldest of the ids in pool.
    method Oldest(pool: set<Id>) returns (best: Id)
      requires pool != {} && pool <= rows.Keys
      ensures best in pool
      ensures forall id :: id in pool ==> rows[best].createdAt <= rows[id].createdAt
    {
      best :| best in pool;
      var rest := pool - {best};
      while rest != {}
        invariant rest <= pool && best in pool
        invariant forall id :: id in pool && id !in rest ==> rows[best].createdAt <= rows[id].createdAt
        decreases rest
      {
        var id :| id in rest;
        if rows[id].createdAt < rows[best].createdAt {
          best := id;
        }
        rest := rest - {id};
      }
    }

    // SELECT ... WHERE published_at IS NULL ORDER BY created_at ASC LIMIT limit
    method ListUnpublished(limit: nat) returns (batch: seq<EventRow>)
      ensures IsBatch(rows, limit, batch)
      ensures |batch| <= limit && forall i :: 0 <= i < |batch| ==> batch[i].id in rows && batch[i].event == rows[batch[i].id]
      ensures forall i, j :: 0 <= i < j < |batch| ==>
                batch[i].id != batch[j].id && rows[batch[i].id].createdAt <= rows[batch[j].id].createdAt
    {
      batch := [];
      var pool := set id | id in rows && !rows[id].published;
      while |batch| < limit && pool != {}
        invariant |batch| <= limit && IsBatch(rows, |batch|, batch)
        invariant pool == Unpublished(rows) - IdsOf(batch)
        decreases limit - |batch|
      {
        var id := Oldest(pool);
        NextOldest(rows, batch, |batch|, id);
        assert IdsOf(batch + [EventRow(id, rows[id])]) == IdsOf(batch) + {id};
        batch := batch + [EventRow(id, rows[id])];
        pool := pool - {id};
      }
      if pool == {} {
        NothingLeft(rows, batch, |batch|, limit);
      }
    }

    // UPDATE ... SET published_at = NOW() WHERE id = id
    method MarkPublished(id: Id, succeed: bool) returns (ok: bool)
      modifies this
      ensures ok == succeed
      ensures rows == if succeed then MarkAll(old(rows), {id}) else old(rows)
    {
      if succeed {
        rows := MarkAll(rows, {id});
      }
      ok := succeed;
    }
  }

  // Publishing fails for the poisoned events only; marking works.
  function Steady(poisoned: set<Id>): Id -> EventFate {
    id => EventFate(id !in poisoned, true)
  }

  // Repeated batches on the outbox, with no new commits in between.
  ghost predicate Rounds(tables: seq<map<Id, Event>>, batches: seq<seq<EventRow>>, poisoned: set<Id>) {
    && |tables| == |batches| + 1
    && forall i :: 0 <= i < |batches| ==>
         && IsBatch(tables[i], BATCH_LIMIT, batches[i])
         && tables[i + 1] == MarkAll(tables[i], Done(batches[i], Steady(poisoned)))
  }

  lemma DoneSnoc(batch: seq<EventRow>, fate: Id -> EventFate, i: nat)
    requires i < |batch|
    ensures var f, done := fate(batch[i].id), Done(batch[..i], fate);
      Done(batch[..i + 1], fate) == if f.published && f.marked then done + {batch[i].id} else done
    ensures var f, sent := fate(batch[i].id), Sent(batch[..i], fate);
      Sent(batch[..i + 1], fate) == if f.published then sent + [MessageOf(batch[i].event)] else sent
  {
    assert batch[..i + 1] == batch[..i] + [batch[i]];
    assert batch[..i + 1][..i] == batch[..i];
  }

  lemma MarkAllTwice(outbox: map<Id, Event>, a: set<Id>, b: set<Id>)
    ensures MarkAll(MarkAll(outbox, a), b) == MarkAll(outbox, a + b)
    ensures MarkAll(outbox, {}) == outbox
  {
  }

  lemma NothingHandled(rows: map<Id, Event>, batch: seq<EventRow>, fate: Id -> EventFate)
    ensures MarkAll(rows, Done(batch[..0], fate)) == rows && Sent(batch[..0], fate) == []
  {
    assert Done(batch[..0], fate) == {};
    MarkAllTwice(rows, {}, {});
  }

  // What the first i rows make of a table and a log.
  ghost predicate Handled(rows: map<Id, Event>, log: seq<Message>, rows': map<Id, Event>, log': seq<Message>,
                          batch: seq<EventRow>, fate: Id -> EventFate, i: nat)
    requires i <= |batch|
  {
    rows' == MarkAll(rows, Done(batch[..i], fate)) && log' == log + Sent(batch[..i], fate)
  }

  lemma HandledNext(rows: map<Id, Event>, log: seq<Message>, before: map<Id, Event>, logBefore: seq<Message>,
                    after: map<Id, Event>, logAfter: seq<Message>, batch: seq<EventRow>, fate: Id -> EventFate, i: nat)
    requires i < |batch| && Handled(rows, log, before, logBefore, batch, fate, i)
    requires var f := fate(batch[i].id);
      && logAfter == (if f.published then logBefore + [MessageOf(batch[i].event)] else logBefore)
      && after == (if f.published && f.marked then MarkAll(before, {batch[i].id}) else before)
    ensures Handled(rows, log, after, logAfter, batch, fate, i + 1)
  {
    DoneSnoc(batch, fate, i);
    MarkAllTwice(rows, Done(batch[..i], fate), {batch[i].id});
  }

  // The ids of the rows whose messages the broker accepts, in batch order.
  ghost function SentIds(batch: seq<EventRow>, fate: Id -> EventFate): seq<Id> {
    if batch == [] then []
    else
      var row := batch[|batch| - 1];
      SentIds(batch[..|batch| - 1], fate) + if fate(row.id).published then [row.id] else []
  }

  // A batch of rows of the table, each once, oldest first.
  ghost predicate InOrder(outbox: map<Id, Event>, batch: seq<EventRow>) {
    && (forall i :: 0 <= i < |batch| ==> batch[i].id in outbox && batch[i].event == outbox[batch[i].id])
    && (forall i, j :: 0 <= i < j < |batch| ==>
          batch[i].id != batch[j].id && outbox[batch[i].id].createdAt <= outbox[batch[j].id].createdAt)
  }

  // Messages that are those of the given rows, each row once, oldest first.
  ghost predicate Tells(outbox: map<Id, Event>, ids: seq<Id>, messages: seq<Message>) {
    && |messages| == |ids|
    && (forall k :: 0 <= k < |ids| ==>
          ids[k] in outbox && messages[k] == Message(outbox[ids[k]].eventType, outbox[ids[k]].payload))
    && (forall j, k :: 0 <= j < k < |ids| ==>
          ids[j] != ids[k] && outbox[ids[j]].createdAt <= outbox[ids[k]].createdAt)
  }

  lemma {:induction false} SentTells(outbox: map<Id, Event>, batch: seq<EventRow>, fate: Id -> EventFate)
    requires InOrder(outbox, batch)
    ensures Tells(outbox, SentIds(batch, fate), Sent(batch, fate))
    ensures forall id :: id in SentIds(batch, fate) <==>
              fate(id).published && exists i :: 0 <= i < |batch| && batch[i].id == id
  {
    if batch != [] {
      var front, row := batch[..|batch| - 1], batch[|batch| - 1];
      SentTells(outbox, front, fate);
      forall k | 0 <= k < |SentIds(front, fate)|
        ensures SentIds(front, fate)[k] != row.id
        ensures outbox[SentIds(front, fate)[k]].createdAt <= outbox[row.id].createdAt
      {
        assert SentIds(front, fate)[k] in SentIds(front, fate);
        var i :| 0 <= i < |front| && front[i].id == SentIds(front, fate)[k];
        assert front[i] == batch[i];
      }
      forall id | fate(id).published && exists i :: 0 <= i < |batch| && batch[i].id == id
        ensures id in SentIds(batch, fate)
      {
        var i :| 0 <= i < |batch| && batch[i].id == id;
        if i < |front| {
          assert front[i].id == id;
        }
      }
      forall id | id in SentIds(batch, fate) ensures exists i :: 0 <= i < |batch| && batch[i].id == id {
        if id in SentIds(front, fate) {
          var i :| 0 <= i < |front| && front[i].id == id;
          assert batch[i].id == id;
        } else {
          assert batch[|batch| - 1].id == id;
        }
      }
    }
  }

  // What becomes of the rows, one by one.
  lemma DoneRows(outbox: map<Id, Event>, batch: seq<EventRow>, fate: Id -> EventFate)
    ensures var after := MarkAll(outbox, Done(batch, fate));
      && after.Keys == outbox.Keys
      && forall id :: id in outbox ==>
           if (exists i :: 0 <= i < |batch| && batch[i].id == id) && fate(id).published && fate(id).marked
           then after[id] == outbox[id].(published := true) else after[id] == outbox[id]
  {
    forall id | id in outbox
      ensures id in Done(batch, fate) <==>
        (exists i :: 0 <= i < |batch| && batch[i].id == id) && fate(id).published && fate(id).marked
    {
      if i :| 0 <= i < |batch| && batch[i].id == id {
        assert batch[i] in batch;
      }
    }
  }

  lemma ShortBatchIsComplete(outbox: map<Id, Event>, limit: nat, batch: seq<EventRow>)
    requires IsBatch(outbox, limit, batch) && |batch| < limit
    ensures forall id :: id in outbox && !outbox[id].published ==> exists i :: 0 <= i < |batch| && batch[i].id == id
  {
    forall id | id in outbox && !outbox[id].published ensures exists i :: 0 <= i < |batch| && batch[i].id == id {
      var i :| 0 <= i < |batch| && batch[i] == EventRow(id, outbox[id]);
    }
  }

  class Worker {
    const table: OutboxTable
    const publisher: Publisher

    constructor (table: OutboxTable, publisher: Publisher)
      ensures this.table == table && this.publisher == publisher
    {
      this.table := table;
      this.publisher := publisher;
    }

    // A row is marked only after it has been published; a failing row is
    // skipped and the loop goes on. sent are the ids of the published rows.
    method ProcessBatch(listed: bool, fate: Id -> EventFate)
      returns (ghost batch: seq<EventRow>, ghost sent: seq<Id>)
      modifies table, publisher
      ensures !listed ==> table.rows == old(table.rows) && publisher.log == old(publisher.log)
      // At most 25 rows, oldest first, and all unpublished ones if fewer.
      ensures listed ==> IsBatch(old(table.rows), 25, batch) && InOrder(old(table.rows), batch) && |batch| <= 25
      ensures listed && |batch| < 25 ==> forall id :: id in old(table.rows) && !old(table.rows)[id].published ==>
                exists i :: 0 <= i < |batch| && batch[i].id == id
      // Exactly the published and marked ones change, and only in the flag.
      ensures listed ==> table.rows == MarkAll(old(table.rows), Done(batch, fate))
      ensures listed ==> table.rows.Keys == old(table.rows).Keys && forall id :: id in old(table.rows) ==>
                if (exists i :: 0 <= i < |batch| && batch[i].id == id) && fate(id).published && fate(id).marked
                then table.rows[id] == old(table.rows)[id].(published := true)
                else table.rows[id] == old(table.rows)[id]
      // The messages of the published ones are appended, oldest first, as stored.
      ensures listed ==> publisher.log == old(publisher.log) + Sent(batch, fate)
      ensures listed ==>
        && old(publisher.log) <= publisher.log
        && Tells(old(table.rows), sent, publisher.log[|old(publisher.log)|..])
      ensures listed ==> forall id :: id in sent <==>
                fate(id).published && exists i :: 0 <= i < |batch| && batch[i].id == id
    {
      if !listed {
        return [], [];
      }
      var events := table.ListUnpublished(BATCH_LIMIT);
      batch := events;
      ghost var rows, log := table.rows, publisher.log;
      NothingHandled(rows, events, fate);
      for i := 0 to |events|
        invariant Handled(rows, log, table.rows, publisher.log, events, fate, i)
      {
        ghost var before, logBefore := table.rows, publisher.log;
        var ok := publisher.Publish(MessageOf(events[i].event), fate(events[i].id).published);
        if !ok {
          HandledNext(rows, log, before, logBefore, table.rows, publisher.log, events, fate, i);
          continue;
        }
        var marked := table.MarkPublished(events[i].id, fate(events[i].id).marked);
        HandledNext(rows, log, before, logBefore, table.rows, publisher.log, events, fate, i);
      }
      assert events[..|events|] == events;
      sent := SentIds(batch, fate);
      SentTells(rows, batch, fate);
      DoneRows(rows, batch, fate);
      if |batch| < 25 {
        ShortBatchIsComplete(rows, 25, batch);
      }
      assert publisher.log[|log|..] == Sent(batch, fate);
    }

    // n ticks, while nothing else commits: a batch each.
    method Run(n: nat, poisoned: set<Id>)
      returns (ghost tables: seq<map<Id, Event>>, ghost batches: seq<seq<EventRow>>)
      modifies table, publisher
      ensures Rounds(tables, batches, poisoned) && |batches| == n
      ensures tables[0] == old(table.rows) && tables[n] == table.rows
    {
      tables, batches := [table.rows], [];
      for i := 0 to n
        invariant Rounds(tables, batches, poisoned) && |batches| == i
        invariant tables[0] == old(table.rows) && tables[i] == table.rows
      {
        ghost var batch, sent := ProcessBatch(true, Steady(poisoned));
        tables, batches := tables + [table.rows], batches + [batch];
      }
    }
  }

  // ------------------------------------------------- a batch as system steps

  function RowLabels(v: WorkerId, f: EventFate): seq<Label> {
    if f.published then [Publish(v, true, true), Mark(v, f.marked, f.marked)] else [Publish(v, false, false)]
  }

  function BatchLabels(v: WorkerId, batch: seq<EventRow>, fate: Id -> EventFate): seq<Label> {
    if batch == [] then []
    else
      BatchLabels(v, batch[..|batch| - 1], fate) + RowLabels(v, fate(batch[|batch| - 1].id))
  }

  // Where the worker stands after the first i rows.
  ghost predicate AtRow(s: State, s': State, v: WorkerId, batch: seq<EventRow>, fate: Id -> EventFate, i: nat)
    requires i <= |batch|
  {
    && v in s'.workers && s'.workers[v] == Machine.Worker(batch, i, false)
    && s'.db == s.db.(outbox := MarkAll(s.db.outbox, Done(batch[..i], fate)))
    && s'.broker == s.broker + Sent(batch[..i], fate)
    && s'.txs == s.txs && s'.answers == s.answers && s'.refusals == s.refusals
  }

  lemma MarkedIsMarkAll(db: Store, outbox: map<Id, Event>, ids: set<Id>, id: Id)
    requires id in outbox && db.outbox == MarkAll(outbox, ids)
    ensures db.(outbox := db.outbox[id := db.outbox[id].(published := true)]) == db.(outbox := MarkAll(outbox, ids + {id}))
  {
  }

  lemma SkippedRow(s: State, s': State, v: WorkerId, batch: seq<EventRow>, fate: Id -> EventFate, i: nat)
    requires i < |batch| && AtRow(s, s', v, batch, fate, i) && !fate(batch[i].id).published
    ensures Enabled(s', Publish(v, false, false))
    ensures AtRow(s, Next(s', Publish(v, false, false)), v, batch, fate, i + 1)
  {
    DoneSnoc(batch, fate, i);
  }

  // Published but not yet marked.
  ghost predicate SentRow(s: State, s': State, v: WorkerId, batch: seq<EventRow>, fate: Id -> EventFate, i: nat)
    requires i < |batch|
  {
    && v in s'.workers && s'.workers[v] == Machine.Worker(batch, i, true)
    && s'.db == s.db.(outbox := MarkAll(s.db.outbox, Done(batch[..i], fate)))
    && s'.broker == s.broker + Sent(batch[..i], fate) + [MessageOf(batch[i].event)]
    && s'.txs == s.txs && s'.answers == s.answers && s'.refusals == s.refusals
  }

  lemma PublishedRow(s: State, s': State, v: WorkerId, batch: seq<EventRow>, fate: Id -> EventFate, i: nat)
    requires i < |batch| && AtRow(s, s', v, batch, fate, i)
    ensures Enabled(s', Publish(v, true, true))
    ensures SentRow(s, Next(s', Publish(v, true, true)), v, batch, fate, i)
  {
  }

  lemma MarkedRow(s: State, s': State, v: WorkerId, batch: seq<EventRow>, fate: Id -> EventFate, i: nat)
    requires i < |batch| && SentRow(s, s', v, batch, fate, i)
    requires fate(batch[i].id).published && batch[i].id in s.db.outbox
    ensures var f := fate(batch[i].id);
      Enabled(s', Mark(v, f.marked, f.marked)) && AtRow(s, Next(s', Mark(v, f.marked, f.marked)), v, batch, fate, i + 1)
  {
    DoneSnoc(batch, fate, i);
    MarkedIsMarkAll(s'.db, s.db.outbox, Done(batch[..i], fate), batch[i].id);
  }

  lemma RowSteps(s: State, db0: Store, labels: seq<Label>, v: WorkerId, batch: seq<EventRow>, fate: Id -> EventFate, i: nat)
    requires i < |batch| && Runs(db0, labels) && AtRow(s, After(db0, labels), v, batch, fate, i)
    requires batch[i].id in s.db.outbox
    ensures Runs(db0, labels + RowLabels(v, fate(batch[i].id)))
    ensures AtRow(s, After(db0, labels + RowLabels(v, fate(batch[i].id))), v, batch, fate, i + 1)
  {
    var f := fate(batch[i].id);
    if f.published {
      PublishedRow(s, After(db0, labels), v, batch, fate, i);
      Extend(db0, labels, Publish(v, true, true));
      var sent := labels + [Publish(v, true, true)];
      MarkedRow(s, After(db0, sent), v, batch, fate, i);
      Extend(db0, sent, Mark(v, f.marked, f.marked));
      assert labels + RowLabels(v, f) == sent + [Mark(v, f.marked, f.marked)];
    } else {
      SkippedRow(s, After(db0, labels), v, batch, fate, i);
      Extend(db0, labels, Publish(v, false, false));
    }
  }

  lemma BatchListed(s: State, v: WorkerId, batch: seq<EventRow>, fate: Id -> EventFate)
    requires Enabled(s, ListBatch(v, batch))
    ensures AtRow(s, Next(s, ListBatch(v, batch)), v, batch, fate, 0)
  {
    NothingHandled(s.db.outbox, batch, fate);
  }

  function LabelsTo(v: WorkerId, batch: seq<EventRow>, fate: Id -> EventFate, i: nat): seq<Label>
    requires i <= |batch|
  {
    [ListBatch(v, batch)] + BatchLabels(v, batch[..i], fate)
  }

  lemma LabelsNext(labels: seq<Label>, v: WorkerId, batch: seq<EventRow>, fate: Id -> EventFate, i: nat)
    requires i < |batch|
    ensures labels + LabelsTo(v, batch, fate, i + 1)
         == labels + LabelsTo(v, batch, fate, i) + RowLabels(v, fate(batch[i].id))
  {
    assert batch[..i + 1][..i] == batch[..i];
  }

  // ProcessBatch continues any run of the interleaved system: listing, then
  // publish and mark row by row, with the table and the log it leaves.
  lemma {:induction false} BatchIsARun(db0: Store, labels: seq<Label>, v: WorkerId, batch: seq<EventRow>,
                                       fate: Id -> EventFate, i: nat)
    requires Runs(db0, labels) && !Busy(After(db0, labels), v)
    requires IsBatch(After(db0, labels).db.outbox, 25, batch) && i <= |batch|
    ensures var all := labels + LabelsTo(v, batch, fate, i);
      Runs(db0, all) && AtRow(After(db0, labels), After(db0, all), v, batch, fate, i)
  {
    if i == 0 {
      Extend(db0, labels, ListBatch(v, batch));
      BatchListed(After(db0, labels), v, batch, fate);
      assert LabelsTo(v, batch, fate, 0) == [ListBatch(v, batch)];
    } else {
      var k := i - 1;
      BatchIsARun(db0, labels, v, batch, fate, k);
      LabelsNext(labels, v, batch, fate, k);
      RowSteps(After(db0, labels), db0, labels + LabelsTo(v, batch, fate, k), v, batch, fate, k);
      assert k + 1 == i;
    }
  }
}
