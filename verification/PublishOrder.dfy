// Oldest first, over runs: between two listings a worker publishes rows in the
// order of their creation, from a batch of at most 25.
module PublishOrder {
  import opened Tables
  import opened Machine
  import opened OutboxSafety

  ghost predicate Sorted(batch: seq<EventRow>) {
    forall i, j :: 0 <= i < j < |batch| ==> batch[i].event.createdAt <= batch[j].event.createdAt
  }

  ghost predicate SortedBatches(s: State) {
    forall v :: v in s.workers ==> Sorted(s.workers[v].batch) && |s.workers[v].batch| <= 25
  }

  lemma StepSorted(s: State, l: Label)
    requires SortedBatches(s) && Enabled(s, l)
    ensures SortedBatches(Next(s, l))
  {
  }

  lemma {:induction false} RunSorted(db0: Store, labels: seq<Label>)
    requires Runs(db0, labels)
    ensures SortedBatches(After(db0, labels))
    decreases |labels|
  {
    if labels != [] {
      var front := labels[..|labels| - 1];
      RunSorted(db0, front);
      StepSorted(After(db0, front), labels[|labels| - 1]);
    }
  }

  // From the n-th step on, v lists no new batch.
  ghost predicate NoListing(labels: seq<Label>, n: nat, v: WorkerId) {
    forall j :: n <= j < |labels| && labels[j].ListBatch? ==> labels[j].v != v
  }

  // The worker, if still there, is past row n of the batch.
  ghost predicate PastRow(s: State, v: WorkerId, batch: seq<EventRow>, n: nat) {
    v in s.workers ==> s.workers[v].batch == batch && n <= s.workers[v].next
  }

  lemma PastRowStep(s: State, l: Label, v: WorkerId, batch: seq<EventRow>, n: nat)
    requires Enabled(s, l) && PastRow(s, v, batch, n) && (l.ListBatch? ==> l.v != v)
    ensures PastRow(Next(s, l), v, batch, n)
  {
  }

  lemma {:induction false} StaysPastRow(db0: Store, labels: seq<Label>, m: nat, v: WorkerId, batch: seq<EventRow>, n: nat)
    requires Runs(db0, labels) && m <= |labels| && NoListing(labels, m, v)
    requires Runs(db0, labels[..m]) && PastRow(After(db0, labels[..m]), v, batch, n)
    ensures PastRow(After(db0, labels), v, batch, n)
    decreases |labels|
  {
    if m == |labels| {
      assert labels[..m] == labels;
    } else {
      var front := labels[..|labels| - 1];
      assert front[..m] == labels[..m];
      StaysPastRow(db0, front, m, v, batch, n);
      PastRowStep(After(db0, front), labels[|labels| - 1], v, batch, n);
    }
  }

  // The row that v publishes next.
  ghost function AtHand(s: State, v: WorkerId): EventRow
    requires Busy(s, v)
  {
    s.workers[v].batch[s.workers[v].next]
  }

  // A publishing step sends the stored type and payload of the row at hand.
  lemma PublishSendsStoredRow(db0: Store, labels: seq<Label>, v: WorkerId, delivered: bool, ok: bool)
    requires Runs(db0, labels) && Enabled(After(db0, labels), Publish(v, delivered, ok))
    ensures var s := After(db0, labels);
      && AtHand(s, v).id in s.db.outbox
      && var row := s.db.outbox[AtHand(s, v).id];
      && row.createdAt == AtHand(s, v).event.createdAt
      && Next(s, Publish(v, delivered, ok)).broker
           == if delivered then s.broker + [Message(row.eventType, row.payload)] else s.broker
  {
    RunOutbox(db0, labels);
    assert WorkerInv(After(db0, labels).db, After(db0, labels).broker, After(db0, labels).workers[v]);
  }

  // A row that v publishes at the m-th step is no younger in the table than one
  // that it publishes later without listing in between.
  lemma OldestPublishedFirst(db0: Store, labels: seq<Label>, m: nat, v: WorkerId, delivered: bool, ok: bool)
    requires Runs(db0, labels) && m <= |labels| && NoListing(labels, m, v) && Runs(db0, labels[..m])
    requires Busy(After(db0, labels[..m]), v)
    requires Enabled(After(db0, labels), Publish(v, delivered, ok))
    ensures var first, second, outbox := AtHand(After(db0, labels[..m]), v).id, AtHand(After(db0, labels), v).id,
                                         After(db0, labels).db.outbox;
      first in outbox && second in outbox && outbox[first].createdAt <= outbox[second].createdAt
  {
    var s0, s := After(db0, labels[..m]), After(db0, labels);
    StaysPastRow(db0, labels, m, v, s0.workers[v].batch, s0.workers[v].next);
    RunSorted(db0, labels);
    RunOutbox(db0, labels);
    assert WorkerInv(s.db, s.broker, s.workers[v]);
  }

  // In every run, however old its batch is by now, a worker holds at most 25
  // rows of the table, with non-decreasing creation times there.
  lemma BatchesAreSmallAndSorted(db0: Store, labels: seq<Label>, v: WorkerId)
    requires Runs(db0, labels) && v in After(db0, labels).workers
    ensures var batch, outbox := After(db0, labels).workers[v].batch, After(db0, labels).db.outbox;
      && |batch| <= 25
      && (forall i :: 0 <= i < |batch| ==> batch[i].id in outbox)
      && forall i, j :: 0 <= i < j < |batch| ==> outbox[batch[i].id].createdAt <= outbox[batch[j].id].createdAt
  {
    RunSorted(db0, labels);
    RunOutbox(db0, labels);
    assert WorkerInv(After(db0, labels).db, After(db0, labels).broker, After(db0, labels).workers[v]);
  }
}
