/** Exactly when a tick, whatever its publishes answer, keeps events in commit order. */
module RelayOrder {
  import opened Domain
  import opened Writer
  import opened WriterInvariants
  import opened Selection
  import opened Relay
  import opened RelayTick

  type Order = (nat, nat) -> bool

  /** Every copy in the log is preceded by a copy of each row that comes before it. */
  ghost predicate Keeps(log: seq<nat>, before: Order) {
    forall a, j :: 0 <= j < |log| && before(a, log[j]) ==> a in log[..j]
  }

  /** Whatever comes before a row that goes through is in the log already, or goes through in
      the same batch with a lower id. */
  ghost predicate NothingSkipped(log: seq<nat>, batch: seq<nat>, publish: nat -> Outcome, before: Order) {
    forall a, b :: b in batch && !publish(b).Failed? && before(a, b) && a !in log ==>
      a in batch && a < b && !publish(a).Failed?
  }

  lemma {:induction false} AppendsContent(batch: seq<nat>, publish: nat -> Outcome)
    requires Sorted(IdLess, batch)
    ensures forall x :: x in Appends(batch, publish) <==> x in batch && !publish(x).Failed?
    ensures Sorted(IdLess, Appends(batch, publish))
  {
    if batch != [] {
      AppendsContent(batch[1..], publish);
      assert batch == [batch[0]] + batch[1..];
      forall x | x in batch[1..] ensures IdLess(batch[0], x) {
        var i :| 0 <= i < |batch| - 1 && batch[1..][i] == x;
        assert IdLess(batch[0], batch[i + 1]);
      }
    }
  }

  /** In an ascending list an entry has exactly the lower entries before it. */
  lemma AscendingBefore(added: seq<nat>, p: nat, a: nat)
    requires Sorted(IdLess, added) && p < |added|
    ensures a in added[..p] <==> a in added && a < added[p]
  {
    assert forall i, j :: 0 <= i < j < |added| ==> added[i] < added[j];
    if a in added && a < added[p] {
      var q :| 0 <= q < |added| && added[q] == a;
      assert added[..p][q] == a;
    }
  }

  lemma AfterLog(log: seq<nat>, added: seq<nat>, p: nat)
    requires p < |added|
    ensures (log + added)[|log| + p] == added[p] && (log + added)[..|log| + p] == log + added[..p]
  {
  }

  lemma KeptSkipsNothing(log: seq<nat>, batch: seq<nat>, publish: nat -> Outcome, before: Order)
    requires Sorted(IdLess, batch) && Keeps(log + Appends(batch, publish), before)
    ensures NothingSkipped(log, batch, publish, before)
  {
    var added := Appends(batch, publish);
    AppendsContent(batch, publish);
    forall a, b | b in batch && !publish(b).Failed? && before(a, b) && a !in log
      ensures a in batch && a < b && !publish(a).Failed?
    {
      assert b in added;
      var p :| 0 <= p < |added| && added[p] == b;
      AfterLog(log, added, p);
      AscendingBefore(added, p, a);
    }
  }

  lemma SkippingNothingKeeps(log: seq<nat>, batch: seq<nat>, publish: nat -> Outcome, before: Order, a: nat, j: nat)
    requires Sorted(IdLess, batch) && Keeps(log, before) && NothingSkipped(log, batch, publish, before)
    requires j < |log + Appends(batch, publish)| && before(a, (log + Appends(batch, publish))[j])
    ensures a in (log + Appends(batch, publish))[..j]
  {
    var added := Appends(batch, publish);
    if j < |log| {
      assert (log + added)[j] == log[j] && (log + added)[..j] == log[..j];
    } else {
      AfterLog(log, added, j - |log|);
      AddedInOrder(log, batch, publish, before, a, j - |log|);
    }
  }

  lemma AddedInOrder(log: seq<nat>, batch: seq<nat>, publish: nat -> Outcome, before: Order, a: nat, p: nat)
    requires Sorted(IdLess, batch) && NothingSkipped(log, batch, publish, before)
    requires p < |Appends(batch, publish)| && before(a, Appends(batch, publish)[p])
    ensures a in log || a in Appends(batch, publish)[..p]
  {
    var added := Appends(batch, publish);
    AppendsContent(batch, publish);
    assert added[p] in added;
    AscendingBefore(added, p, a);
  }

  /** For any order: appending what a batch gets through keeps it if and only if nothing is skipped. */
  lemma AppendsKeepIff(log: seq<nat>, batch: seq<nat>, publish: nat -> Outcome, before: Order)
    requires Sorted(IdLess, batch) && Keeps(log, before)
    ensures Keeps(log + Appends(batch, publish), before) <==> NothingSkipped(log, batch, publish, before)
  {
    var log' := log + Appends(batch, publish);
    if Keeps(log', before) {
      KeptSkipsNothing(log, batch, publish, before);
    }
    if NothingSkipped(log, batch, publish, before) {
      forall a, j | 0 <= j < |log'| && before(a, log'[j]) ensures a in log'[..j] {
        SkippingNothingKeeps(log, batch, publish, before, a, j);
      }
    }
  }

  // ---- Commit order within a chat, and of conflicting events ----

  /** Which events must keep their commit order. */
  type Relation = (Event, Event) -> bool

  predicate SameChat(e: Event, f: Event) { PartitionKey(e) == PartitionKey(f) }

  /** `a` was committed before `b` and the two are related. */
  ghost predicate AheadBy(db: Db, rel: Relation, a: nat, b: nat) {
    a in db.outbox && b in db.outbox && rel(db.outbox[a], db.outbox[b]) && Precedes(db.commits, a, b)
  }

  ghost function By(db: Db, rel: Relation): Order { (a: nat, b: nat) => AheadBy(db, rel, a, b) }

  ghost function Batch(s: Outbox): seq<nat> {
    Lowest(s.db.outbox.Keys - s.bus.published, BATCH)
  }

  /** In-chat order. While the log keeps each chat's commit order, the next tick of any relay
      keeps it if and only if, for every row of its batch that is not refused and every row of
      the same chat committed earlier and not logged yet, the earlier row is in the batch, has
      the lower id and is not refused either. */
  lemma TickKeepsChatOrderIff(relays: nat, before: seq<Action>, r: nat, publish: nat -> Outcome, mark: nat -> bool)
    requires Idle(Run(relays, before), r) && Keeps(Run(relays, before).bus.log, By(Run(relays, before).db, SameChat))
    ensures var s := Run(relays, before); var s' := Run(relays, before + TickActions(s, r, publish, mark));
            Keeps(s'.bus.log, By(s'.db, SameChat))
            <==> forall a, b :: b in Batch(s) && !publish(b).Failed?
                                && AheadBy(s.db, SameChat, a, b) && a !in s.bus.log ==>
                   a in Batch(s) && a < b && !publish(a).Failed?
  {
    var s := Run(relays, before);
    TickRuns(relays, before, r, publish, mark);
    LowestSpec(s.db.outbox.Keys - s.bus.published, BATCH);
    AppendsKeepIff(s.bus.log, Batch(s), publish, By(s.db, SameChat));
    assert forall a, b :: By(s.db, SameChat)(a, b) <==> AheadBy(s.db, SameChat, a, b);
  }

  lemma ConflictIsAhead(db: Db, a: nat, b: nat)
    requires CommitOrder(db) && AheadBy(db, Conflict, a, b)
    ensures Ahead(db, a, b)
  {
    var i, j :| 0 <= i < j < |db.commits| && db.commits[i] == a && db.commits[j] == b;
  }

  /** Among conflicting events a batch skips a row only by refusing it. */
  lemma ConflictsSkipped(s: Outbox, publish: nat -> Outcome)
    requires Inv(s.db) && Conserved(s)
    ensures NothingSkipped(s.bus.log, Batch(s), publish, By(s.db, Conflict))
            <==> !exists a, b :: a in Batch(s) && b in Batch(s) && AheadBy(s.db, Conflict, a, b)
                                 && a !in s.bus.log && publish(a).Failed? && !publish(b).Failed?
  {
    assert forall a, b :: By(s.db, Conflict)(a, b) <==> AheadBy(s.db, Conflict, a, b);
    FetchOrdered(s);
    forall a, b | b in Batch(s) && AheadBy(s.db, Conflict, a, b) ensures a < b && (a in Batch(s) || a in s.bus.log) {
      ConflictIsAhead(s.db, a, b);
    }
  }

  /** Conflicting events: the tick keeps their commit order if and only if it refuses no row
      without a copy while it gets through a conflicting row that committed later. */
  lemma TickKeepsConflictOrderIff(relays: nat, before: seq<Action>, r: nat, publish: nat -> Outcome, mark: nat -> bool)
    requires Idle(Run(relays, before), r) && Keeps(Run(relays, before).bus.log, By(Run(relays, before).db, Conflict))
    ensures var s := Run(relays, before); var s' := Run(relays, before + TickActions(s, r, publish, mark));
            Keeps(s'.bus.log, By(s'.db, Conflict))
            <==> !exists a, b :: a in Batch(s) && b in Batch(s) && AheadBy(s.db, Conflict, a, b)
                                 && a !in s.bus.log && publish(a).Failed? && !publish(b).Failed?
  {
    var s := Run(relays, before);
    TickRuns(relays, before, r, publish, mark);
    LowestSpec(s.db.outbox.Keys - s.bus.published, BATCH);
    AppendsKeepIff(s.bus.log, Batch(s), publish, By(s.db, Conflict));
    RunConserves(relays, before);
    ConflictsSkipped(s, publish);
  }

  // ---- The order the run lemmas use, and pairs of one batch ----

  /** A row fails while one it is ahead of, in the same batch, goes through. */
  ghost predicate Overtaken(s: Outbox, batch: seq<nat>, publish: nat -> Outcome) {
    exists a, b :: a in batch && b in batch && Ahead(s.db, a, b)
                   && a !in s.bus.log && publish(a).Failed? && !publish(b).Failed?
  }

  /** For rows with ascending ids, of any chats: order survives a tick if and only if no refused
      row without a copy is overtaken by a row of the batch it is ahead of. */
  lemma TickKeepsOrderIff(s: Outbox, batch: seq<nat>, publish: nat -> Outcome)
    requires Conserved(s) && LogOrdered(s) && batch == Lowest(s.db.outbox.Keys - s.bus.published, BATCH)
    ensures LogOrdered(s.(bus := s.bus.(log := s.bus.log + Appends(batch, publish))))
            <==> !Overtaken(s, batch, publish)
  {
    FetchOrdered(s);
    ghost var ahead: Order := (a: nat, b: nat) => Ahead(s.db, a, b);
    assert forall a, b :: ahead(a, b) <==> Ahead(s.db, a, b);
    AppendsKeepIff(s.bus.log, batch, publish, ahead);
    var s' := s.(bus := s.bus.(log := s.bus.log + Appends(batch, publish)));
    assert LogOrdered(s') <==> Keeps(s'.bus.log, ahead);
  }

  lemma SortedPrecedes(log: seq<nat>, added: seq<nat>, a: nat, b: nat)
    requires Sorted(IdLess, added) && a in added && b in added && a < b
    ensures Precedes(log + added, a, b)
  {
    assert forall i, j :: 0 <= i < j < |added| ==> added[i] < added[j];
    var p :| 0 <= p < |added| && added[p] == a;
    var q :| 0 <= q < |added| && added[q] == b;
    assert (log + added)[|log| + p] == a && (log + added)[|log| + q] == b;
  }

  lemma PrecedesSorted(log: seq<nat>, added: seq<nat>, a: nat, b: nat)
    requires Sorted(IdLess, added) && a !in log && b !in log && Precedes(log + added, a, b)
    ensures a < b
  {
    var i, j :| 0 <= i < j < |log + added| && (log + added)[i] == a && (log + added)[j] == b;
    assert added[i - |log|] == a && added[j - |log|] == b;
    assert IdLess(added[i - |log|], added[j - |log|]);
  }

  /** Two new rows of one clean batch, whatever order they committed in: `a` is logged before
      `b` if and only if it has the lower id. */
  lemma TickOrdersPairIff(s: Outbox, batch: seq<nat>, publish: nat -> Outcome, a: nat, b: nat)
    requires batch == Lowest(s.db.outbox.Keys - s.bus.published, BATCH) && forall id :: publish(id).Appended?
    requires a in batch && b in batch && a !in s.bus.log && b !in s.bus.log
    ensures Precedes(s.bus.log + Appends(batch, publish), a, b) <==> a < b
  {
    LowestSpec(s.db.outbox.Keys - s.bus.published, BATCH);
    AppendsContent(batch, publish);
    if a < b {
      SortedPrecedes(s.bus.log, Appends(batch, publish), a, b);
    }
    if Precedes(s.bus.log + Appends(batch, publish), a, b) {
      PrecedesSorted(s.bus.log, Appends(batch, publish), a, b);
    }
  }
}
