// How soon repeated batches publish a row when some events can never be
// published: within a bound while fewer than a batch of failing rows are ahead
// of it, and never otherwise.
module OutboxProgress {
  import opened Arithmetic
  import opened Tables
  import opened Machine
  import opened OutboxWorker

  // Unpublished rows no younger than row r, r among them.
  ghost function Ahead(outbox: map<Id, Event>, r: Id): set<Id>
    requires r in outbox
  {
    set id | id in outbox && !outbox[id].published && outbox[id].createdAt <= outbox[r].createdAt
  }

  ghost predicate Waiting(outbox: map<Id, Event>, r: Id) {
    r in outbox && !outbox[r].published
  }

  lemma DoneIsHealthy(batch: seq<EventRow>, poisoned: set<Id>)
    ensures Done(batch, Steady(poisoned)) == IdsOf(batch) - poisoned
  {
  }

  lemma {:induction false} DistinctIds(batch: seq<EventRow>)
    requires forall i, j :: 0 <= i < j < |batch| ==> batch[i].id != batch[j].id
    ensures |IdsOf(batch)| == |batch|
  {
    if batch != [] {
      var front, last := batch[..|batch| - 1], batch[|batch| - 1];
      DistinctIds(front);
      assert batch == front + [last];
      assert IdsOf(batch) == IdsOf(front) + {last.id};
      assert last.id !in IdsOf(front);
    }
  }

  lemma SubsetSize<T>(a: set<T>, b: set<T>)
    requires a <= b
    ensures |a| <= |b| && |b - a| == |b| - |a|
  {
  }

  lemma SplitSize<T>(a: set<T>, p: set<T>)
    ensures |a| == |a * p| + |a - p|
  {
  }

  // The batch either contains r or is full of rows ahead of r.
  lemma BatchFillsWithAhead(outbox: map<Id, Event>, batch: seq<EventRow>, r: Id)
    requires IsBatch(outbox, 25, batch) && Waiting(outbox, r) && r !in IdsOf(batch)
    ensures IdsOf(batch) <= Ahead(outbox, r) && |IdsOf(batch)| == 25
  {
    assert EventRow(r, outbox[r]) !in batch;
    DistinctIds(batch);
  }

  lemma HealthyTakenAway(ahead: set<Id>, ids: set<Id>, poisoned: set<Id>)
    requires ids <= ahead
    ensures var left := ahead - (ids - poisoned);
      && left * poisoned == ahead * poisoned
      && |left - poisoned| + |ids| <= |ahead - poisoned| + |ahead * poisoned|
  {
    var left := ahead - (ids - poisoned);
    assert left * poisoned == ahead * poisoned;
    assert left - poisoned == (ahead - poisoned) - (ids - poisoned);
    SubsetSize(ids - poisoned, ahead - poisoned);
    SubsetSize(ids * poisoned, ahead * poisoned);
    SplitSize(ids, poisoned);
  }

  // One round takes every healthy row of a full batch away from in front of r.
  lemma RoundAdvances(outbox: map<Id, Event>, batch: seq<EventRow>, poisoned: set<Id>, r: Id)
    requires IsBatch(outbox, 25, batch) && Waiting(outbox, r) && r !in poisoned
    requires Waiting(MarkAll(outbox, Done(batch, Steady(poisoned))), r)
    ensures var outbox' := MarkAll(outbox, Done(batch, Steady(poisoned)));
      && Ahead(outbox', r) * poisoned == Ahead(outbox, r) * poisoned
      && |Ahead(outbox', r) - poisoned| + 25 <= |Ahead(outbox, r) - poisoned| + |Ahead(outbox, r) * poisoned|
  {
    var ids := IdsOf(batch);
    DoneIsHealthy(batch, poisoned);
    BatchFillsWithAhead(outbox, batch, r);
    assert Ahead(MarkAll(outbox, Done(batch, Steady(poisoned))), r) == Ahead(outbox, r) - (ids - poisoned);
    HealthyTakenAway(Ahead(outbox, r), ids, poisoned);
  }

  lemma RowStays(tables: seq<map<Id, Event>>, batches: seq<seq<EventRow>>, poisoned: set<Id>, r: Id, i: nat)
    requires Rounds(tables, batches, poisoned) && i < |batches| && r in tables[i]
    ensures r in tables[i + 1] && tables[i + 1][r] == tables[i][r].(published := tables[i + 1][r].published)
    ensures tables[i][r].published ==> tables[i + 1][r].published
  {
  }

  // Row r is published, or the queue in front of it has shrunk by the healthy
  // share of i batches.
  ghost predicate Shrunk(first: map<Id, Event>, now: map<Id, Event>, poisoned: set<Id>, r: Id, i: nat)
    requires r in first && r in now
  {
    Waiting(now, r) ==>
      && Ahead(now, r) * poisoned == Ahead(first, r) * poisoned
      && |Ahead(now, r) - poisoned| + i * (25 - |Ahead(first, r) * poisoned|) <= |Ahead(first, r) - poisoned|
  }

  lemma ShrinksAgain(first: map<Id, Event>, now: map<Id, Event>, batch: seq<EventRow>, poisoned: set<Id>, r: Id, i: nat)
    requires r in first && r in now && r !in poisoned && Shrunk(first, now, poisoned, r, i)
    requires IsBatch(now, 25, batch)
    ensures r in MarkAll(now, Done(batch, Steady(poisoned)))
    ensures Shrunk(first, MarkAll(now, Done(batch, Steady(poisoned))), poisoned, r, i + 1)
  {
    var next := MarkAll(now, Done(batch, Steady(poisoned)));
    if Waiting(next, r) {
      RoundAdvances(now, batch, poisoned, r);
      var share := 25 - |Ahead(first, r) * poisoned|;
      assert (i + 1) * share == i * share + share;
    }
  }

  lemma {:induction false} QueueShrinks(tables: seq<map<Id, Event>>, batches: seq<seq<EventRow>>, poisoned: set<Id>,
                                        r: Id, i: nat)
    requires Rounds(tables, batches, poisoned) && i <= |batches|
    requires Waiting(tables[0], r) && r !in poisoned
    ensures r in tables[i] && Shrunk(tables[0], tables[i], poisoned, r, i)
  {
    if i > 0 {
      QueueShrinks(tables, batches, poisoned, r, i - 1);
      ShrinksAgain(tables[0], tables[i - 1], batches[i - 1], poisoned, r, i - 1);
    }
  }

  // With h healthy rows and k failing ones ahead of it (itself included), a
  // healthy row is published within the first n batches once n * (25 - k) >= h.
  lemma PublishedWithin(tables: seq<map<Id, Event>>, batches: seq<seq<EventRow>>, poisoned: set<Id>, r: Id)
    requires Rounds(tables, batches, poisoned) && Waiting(tables[0], r) && r !in poisoned
    requires |batches| * (25 - |Ahead(tables[0], r) * poisoned|) >= |Ahead(tables[0], r) - poisoned|
    ensures r in tables[|batches|] && tables[|batches|][r].published
  {
    QueueShrinks(tables, batches, poisoned, r, |batches|);
    if Waiting(tables[|batches|], r) {
      RowIsAheadOfItself(tables[|batches|], poisoned, r);
      assert false;
    }
  }

  lemma RowIsAheadOfItself(outbox: map<Id, Event>, poisoned: set<Id>, r: Id)
    requires Waiting(outbox, r) && r !in poisoned
    ensures |Ahead(outbox, r) - poisoned| > 0
  {
    assert r in Ahead(outbox, r) - poisoned;
  }

  lemma FewerAheadThanInAll(all: set<Id>, ahead: set<Id>, poisoned: set<Id>, n: nat)
    requires ahead <= all
    requires n * (25 - |all * poisoned|) >= |all - poisoned|
    ensures n * (25 - |ahead * poisoned|) >= |ahead - poisoned|
  {
    SubsetSize(ahead * poisoned, all * poisoned);
    SubsetSize(ahead - poisoned, all - poisoned);
    MulMonotone(25 - |all * poisoned|, 25 - |ahead * poisoned|, n);
  }

  // The whole table: h healthy and k < 25 failing unpublished rows need at most
  // ceil(h / (25 - k)) batches.
  lemma AllHealthyPublishedWithin(tables: seq<map<Id, Event>>, batches: seq<seq<EventRow>>, poisoned: set<Id>)
    requires Rounds(tables, batches, poisoned)
    requires |Unpublished(tables[0]) * poisoned| < 25
    requires |batches| * (25 - |Unpublished(tables[0]) * poisoned|) >= |Unpublished(tables[0]) - poisoned|
    ensures forall r :: r in tables[0] && r !in poisoned ==> r in tables[|batches|] && tables[|batches|][r].published
  {
    forall r | r in tables[0] && r !in poisoned ensures r in tables[|batches|] && tables[|batches|][r].published {
      if Waiting(tables[0], r) {
        FewerAheadThanInAll(Unpublished(tables[0]), Ahead(tables[0], r), poisoned, |batches|);
        PublishedWithin(tables, batches, poisoned, r);
      } else {
        PublishedStays(tables, batches, poisoned, r, |batches|);
      }
    }
  }

  lemma {:induction false} PublishedStays(tables: seq<map<Id, Event>>, batches: seq<seq<EventRow>>, poisoned: set<Id>,
                                          r: Id, i: nat)
    requires Rounds(tables, batches, poisoned) && i <= |batches|
    requires r in tables[0] && tables[0][r].published
    ensures r in tables[i] && tables[i][r].published
  {
    if i > 0 {
      PublishedStays(tables, batches, poisoned, r, i - 1);
      RowStays(tables, batches, poisoned, r, i - 1);
    }
  }

  // ------------------------------------------------------------- starvation

  // A batch of failing rows, all strictly older than r.
  ghost predicate Blocked(outbox: map<Id, Event>, poisoned: set<Id>, r: Id, older: set<Id>) {
    && Waiting(outbox, r)
    && |older| >= 25
    && forall id :: id in older ==> id in poisoned && Waiting(outbox, id) && outbox[id].createdAt < outbox[r].createdAt
  }

  lemma OlderRowListedFirst(outbox: map<Id, Event>, batch: seq<EventRow>, row: EventRow, id: Id)
    requires IsBatch(outbox, 25, batch) && row in batch
    requires Waiting(outbox, id) && outbox[id].createdAt < row.event.createdAt
    ensures id in IdsOf(batch)
  {
  }

  lemma BlockedRowNotListed(outbox: map<Id, Event>, batch: seq<EventRow>, poisoned: set<Id>, r: Id, older: set<Id>)
    requires IsBatch(outbox, 25, batch) && Blocked(outbox, poisoned, r, older)
    ensures r !in IdsOf(batch)
  {
    if r in IdsOf(batch) {
      var row :| row in batch && row.id == r;
      forall id | id in older ensures id in IdsOf(batch) {
        OlderRowListedFirst(outbox, batch, row, id);
      }
      DistinctIds(batch);
      assert r !in older;
      SubsetSize(older + {r}, IdsOf(batch));
    }
  }

  lemma {:induction false} BlockedForever(tables: seq<map<Id, Event>>, batches: seq<seq<EventRow>>, poisoned: set<Id>,
                                          r: Id, older: set<Id>, i: nat)
    requires Rounds(tables, batches, poisoned) && i <= |batches|
    requires Blocked(tables[0], poisoned, r, older)
    ensures Blocked(tables[i], poisoned, r, older)
  {
    if i > 0 {
      BlockedForever(tables, batches, poisoned, r, older, i - 1);
      BlockedRowNotListed(tables[i - 1], batches[i - 1], poisoned, r, older);
      DoneIsHealthy(batches[i - 1], poisoned);
    }
  }

  // If a batch of failing rows is older than every healthy one, a batch changes
  // nothing.
  lemma FullyBlockedBatchChangesNothing(outbox: map<Id, Event>, batch: seq<EventRow>, poisoned: set<Id>, older: set<Id>)
    requires IsBatch(outbox, 25, batch)
    requires forall r :: Waiting(outbox, r) && r !in poisoned ==> Blocked(outbox, poisoned, r, older)
    ensures MarkAll(outbox, Done(batch, Steady(poisoned))) == outbox
  {
    DoneIsHealthy(batch, poisoned);
    forall id | id in IdsOf(batch) ensures id in poisoned {
      if id !in poisoned {
        assert Waiting(outbox, id);
        BlockedRowNotListed(outbox, batch, poisoned, id, older);
        assert false;
      }
    }
    assert Done(batch, Steady(poisoned)) == {};
    MarkAllTwice(outbox, {}, {});
  }

  // Failing rows older than r.
  ghost function FailingBefore(outbox: map<Id, Event>, poisoned: set<Id>, r: Id): set<Id>
    requires r in outbox
  {
    set id | id in outbox && id in poisoned && !outbox[id].published && outbox[id].createdAt < outbox[r].createdAt
  }

  // Exactly when a healthy row gets out: if no failing row shares its creation
  // time, enough batches publish it if and only if fewer than 25 failing rows
  // are older.
  lemma PublishedExactlyWhen(tables: seq<map<Id, Event>>, batches: seq<seq<EventRow>>, poisoned: set<Id>, r: Id)
    requires Rounds(tables, batches, poisoned) && Waiting(tables[0], r) && r !in poisoned
    requires forall id :: id in tables[0] && id in poisoned && !tables[0][id].published ==>
               tables[0][id].createdAt != tables[0][r].createdAt
    requires |batches| >= |Ahead(tables[0], r) - poisoned|
    ensures r in tables[|batches|]
    ensures tables[|batches|][r].published <==> |FailingBefore(tables[0], poisoned, r)| < 25
  {
    var older := FailingBefore(tables[0], poisoned, r);
    assert Ahead(tables[0], r) * poisoned == older;
    if |older| < 25 {
      MulMonotone(1, 25 - |older|, |batches|);
      PublishedWithin(tables, batches, poisoned, r);
    } else {
      assert Blocked(tables[0], poisoned, r, older);
      BlockedForever(tables, batches, poisoned, r, older, |batches|);
    }
  }

  // ------------------------------------------------ ties in the creation time

  lemma OldestOf(outbox: map<Id, Event>, pool: set<Id>) returns (best: Id)
    requires pool != {} && pool <= outbox.Keys
    ensures best in pool && forall id :: id in pool ==> outbox[best].createdAt <= outbox[id].createdAt
    decreases |pool|
  {
    best :| best in pool;
    if pool != {best} {
      var other := OldestOf(outbox, pool - {best});
      if outbox[other].createdAt < outbox[best].createdAt {
        best := other;
      }
    }
  }

  lemma {:induction false} BatchExists(outbox: map<Id, Event>, limit: nat) returns (batch: seq<EventRow>)
    ensures IsBatch(outbox, limit, batch)
  {
    if limit == 0 {
      batch := [];
    } else {
      batch := BatchExists(outbox, limit - 1);
      var rest := Unpublished(outbox) - IdsOf(batch);
      if rest != {} {
        var best := OldestOf(outbox, rest);
        NextOldest(outbox, batch, limit - 1, best);
        batch := batch + [EventRow(best, outbox[best])];
      } else {
        NothingLeft(outbox, batch, limit - 1, limit);
      }
    }
  }

  // A batch of the other rows is full of rows no younger than r.
  lemma OthersComeFirst(outbox: map<Id, Event>, batch: seq<EventRow>, poisoned: set<Id>, r: Id)
    requires Waiting(outbox, r) && r !in poisoned && |Ahead(outbox, r) * poisoned| >= 25
    requires IsBatch(outbox - {r}, 25, batch)
    ensures |batch| == 25 && forall row :: row in batch ==> row.event.createdAt <= outbox[r].createdAt
  {
    var others, failing := outbox - {r}, Ahead(outbox, r) * poisoned;
    DistinctIds(batch);
    if failing <= IdsOf(batch) {
      SubsetSize(failing, IdsOf(batch));
      assert IdsOf(batch) - failing == {};
      forall row | row in batch ensures row.event.createdAt <= outbox[r].createdAt {
        assert row.id in IdsOf(batch) && row.id !in IdsOf(batch) - failing;
        assert row.id in Ahead(outbox, r);
      }
    } else {
      var id :| id in failing && id !in IdsOf(batch);
      assert EventRow(id, others[id]) !in batch;
    }
  }

  // So the database may list that batch, leaving r out.
  lemma BatchWithout(outbox: map<Id, Event>, poisoned: set<Id>, r: Id) returns (batch: seq<EventRow>)
    requires Waiting(outbox, r) && r !in poisoned && |Ahead(outbox, r) * poisoned| >= 25
    ensures IsBatch(outbox, 25, batch) && r !in IdsOf(batch)
  {
    batch := BatchExists(outbox - {r}, 25);
    OthersComeFirst(outbox, batch, poisoned, r);
    forall id | id in outbox && !outbox[id].published && EventRow(id, outbox[id]) !in batch
      ensures forall row :: row in batch ==> row.event.createdAt <= outbox[id].createdAt
    {
      if id != r {
        assert EventRow(id, (outbox - {r})[id]) !in batch;
      }
    }
  }

  lemma FailingStayAhead(outbox: map<Id, Event>, batch: seq<EventRow>, poisoned: set<Id>, r: Id)
    requires Waiting(outbox, r) && r !in IdsOf(batch)
    ensures var outbox' := MarkAll(outbox, Done(batch, Steady(poisoned)));
      Waiting(outbox', r) && Ahead(outbox', r) * poisoned == Ahead(outbox, r) * poisoned
  {
    DoneIsHealthy(batch, poisoned);
  }

  lemma {:induction false} StarvingRounds(first: map<Id, Event>, poisoned: set<Id>, r: Id, n: nat)
    returns (tables: seq<map<Id, Event>>, batches: seq<seq<EventRow>>)
    requires Waiting(first, r) && r !in poisoned && |Ahead(first, r) * poisoned| >= 25
    ensures Rounds(tables, batches, poisoned) && |batches| == n && tables[0] == first
    ensures Waiting(tables[n], r) && Ahead(tables[n], r) * poisoned == Ahead(first, r) * poisoned
  {
    if n == 0 {
      tables, batches := [first], [];
    } else {
      var m := n - 1;
      var ts, bs := StarvingRounds(first, poisoned, r, m);
      var batch := BatchWithout(ts[m], poisoned, r);
      FailingStayAhead(ts[m], batch, poisoned, r);
      tables, batches := AnotherRound(ts, bs, poisoned, batch);
    }
  }

  lemma AnotherRound(ts: seq<map<Id, Event>>, bs: seq<seq<EventRow>>, poisoned: set<Id>, batch: seq<EventRow>)
    returns (tables: seq<map<Id, Event>>, batches: seq<seq<EventRow>>)
    requires Rounds(ts, bs, poisoned) && IsBatch(ts[|bs|], 25, batch)
    ensures Rounds(tables, batches, poisoned) && |batches| == |bs| + 1 && tables[0] == ts[0]
    ensures tables[|batches|] == MarkAll(ts[|bs|], Done(batch, Steady(poisoned)))
  {
    tables, batches := ts + [MarkAll(ts[|bs|], Done(batch, Steady(poisoned)))], bs + [batch];
  }

  // Ties included: whatever the database lists first, n batches publish r if
  // and only if fewer than 25 failing rows are no younger than it.
  lemma SurelyPublishedExactlyWhen(first: map<Id, Event>, poisoned: set<Id>, r: Id, n: nat)
    requires Waiting(first, r) && r !in poisoned && n >= |Ahead(first, r) - poisoned|
    ensures (forall tables: seq<map<Id, Event>>, batches: seq<seq<EventRow>> ::
               Rounds(tables, batches, poisoned) && tables[0] == first && |batches| == n ==>
                 r in tables[n] && tables[n][r].published)
        <==> |Ahead(first, r) * poisoned| < 25
  {
    if |Ahead(first, r) * poisoned| < 25 {
      forall tables: seq<map<Id, Event>>, batches: seq<seq<EventRow>> |
        Rounds(tables, batches, poisoned) && tables[0] == first && |batches| == n
        ensures r in tables[n] && tables[n][r].published
      {
        MulMonotone(1, 25 - |Ahead(first, r) * poisoned|, n);
        PublishedWithin(tables, batches, poisoned, r);
      }
    } else {
      var tables, batches := StarvingRounds(first, poisoned, r, n);
    }
  }

  // ------------------------------------------------------- the running worker

  // After n ticks every healthy row is out, if n * (25 - k) >= h for the h
  // healthy and k < 25 failing rows that were waiting.
  method RunUntilHealthyRowsAreOut(worker: OutboxWorker.Worker, n: nat, poisoned: set<Id>)
    requires |Unpublished(worker.table.rows) * poisoned| < 25
    requires n * (25 - |Unpublished(worker.table.rows) * poisoned|) >= |Unpublished(worker.table.rows) - poisoned|
    modifies worker.table, worker.publisher
    ensures forall r :: r in old(worker.table.rows) && r !in poisoned ==>
              r in worker.table.rows && worker.table.rows[r].published
  {
    ghost var tables, batches := worker.Run(n, poisoned);
    AllHealthyPublishedWithin(tables, batches, poisoned);
  }
}
