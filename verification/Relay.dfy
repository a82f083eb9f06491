/** Any number of outbox relays polling one table while writers keep committing.

    Relays take no locks: each fetches the lowest pending ids, then publishes and marks them
    one by one; another relay, a writer or a crash may act between any two of those steps. */
module Relay {
  import opened Domain
  import opened Writer
  import opened WriterInvariants
  import opened Selection

  const BATCH: nat := 100

  /** `batch` is what is left of the fetched rows; `marking` says its head has been published
      and waits for its mark. `done` is history: the rows this relay has marked. */
  datatype Worker = Worker(batch: seq<nat>, marking: bool, done: set<nat>)

  /** `log` is the broker's append-only log of outbox ids. `faults` is history: one entry for
      each copy whose mark was lost, whose relay crashed before the mark, or whose publish
      reported an error after the broker had appended it. */
  datatype Bus = Bus(workers: seq<Worker>, published: set<nat>, log: seq<nat>, faults: multiset<nat>)

  datatype Step =
    | Fetch(r: nat)
    | Publish(r: nat)
    | PublishFails(r: nat)       // error, nothing appended: `tick` goes on to the next row
    | PublishUnknown(r: nat)     // error reported although the broker appended
    | Mark(r: nat)
    | MarkLost(r: nat)
    | Crash(r: nat)

  predicate IdLess(a: nat, b: nat) { a < b }

  lemma IdOrder()
    ensures StrictOrder(IdLess)
  {
  }

  /** SELECT ... WHERE published_at IS NULL ORDER BY id ASC LIMIT n. */
  ghost function Lowest(pending: set<nat>, n: nat): seq<nat> {
    IdOrder();
    First(IdLess, pending, n)
  }

  lemma LowestSpec(pending: set<nat>, n: nat)
    ensures IsFirst(IdLess, pending, n, Lowest(pending, n))
    ensures |pending| <= n ==> forall x :: x in pending ==> x in Lowest(pending, n)
  {
    IdOrder();
    FirstIsFirst(IdLess, pending, n);
  }

  predicate Busy(bus: Bus, r: nat, marking: bool) {
    r < |bus.workers| && bus.workers[r].batch != [] && bus.workers[r].marking == marking
  }

  predicate CanStep(bus: Bus, s: Step) {
    match s
    case Fetch(r) => r < |bus.workers| && bus.workers[r].batch == []
    case Publish(r) => Busy(bus, r, false)
    case PublishFails(r) => Busy(bus, r, false)
    case PublishUnknown(r) => Busy(bus, r, false)
    case Mark(r) => Busy(bus, r, true)
    case MarkLost(r) => Busy(bus, r, true)
    case Crash(r) => r < |bus.workers|
  }

  ghost function Relayed(outbox: map<nat, Event>, bus: Bus, s: Step): Bus {
    if !CanStep(bus, s) then bus else
    var w := bus.workers[s.r];
    match s
    case Fetch(r) =>
      bus.(workers := bus.workers[r := w.(batch := Lowest(outbox.Keys - bus.published, BATCH), marking := false)])
    case Publish(r) =>
      bus.(workers := bus.workers[r := w.(marking := true)], log := bus.log + [w.batch[0]])
    case PublishFails(r) =>
      bus.(workers := bus.workers[r := w.(batch := w.batch[1..])])
    case PublishUnknown(r) =>
      bus.(workers := bus.workers[r := w.(batch := w.batch[1..])],
           log := bus.log + [w.batch[0]], faults := bus.faults + multiset{w.batch[0]})
    case Mark(r) =>
      bus.(workers := bus.workers[r := Worker(w.batch[1..], false, w.done + {w.batch[0]})],
           published := bus.published + {w.batch[0]})
    case MarkLost(r) =>
      bus.(workers := bus.workers[r := w.(batch := w.batch[1..], marking := false)],
           faults := bus.faults + multiset{w.batch[0]})
    case Crash(r) =>
      bus.(workers := bus.workers[r := w.(batch := [], marking := false)],
           faults := if Busy(bus, r, true) then bus.faults + multiset{w.batch[0]} else bus.faults)
  }

  datatype Outbox = Outbox(db: Db, bus: Bus)

  datatype Action = Writes(write: Label) | Relays(step: Step)

  function Start(relays: nat): Outbox {
    Outbox(EMPTY_DB, Bus(seq(relays, _ => Worker([], false, {})), {}, [], multiset{}))
  }

  ghost function Act(s: Outbox, a: Action): Outbox {
    match a
    case Writes(l) => s.(db := Next(s.db, l))
    case Relays(step) => s.(bus := Relayed(s.db.outbox, s.bus, step))
  }

  /** The state after a schedule of writer and relay steps. */
  ghost function Run(relays: nat, schedule: seq<Action>): Outbox {
    if schedule == [] then Start(relays)
    else Act(Run(relays, schedule[..|schedule| - 1]), schedule[|schedule| - 1])
  }

  // ---- No loss and no phantom ----

  ghost predicate Conserved(s: Outbox) {
    && (forall k :: k in s.bus.published ==> k in s.bus.log)
    && (forall k :: k in s.bus.log ==> k in s.db.outbox)
    && (forall r, k :: 0 <= r < |s.bus.workers| && k in s.bus.workers[r].batch ==> k in s.db.outbox)
    && (forall r :: 0 <= r < |s.bus.workers| && s.bus.workers[r].marking ==>
          s.bus.workers[r].batch != [] && s.bus.workers[r].batch[0] in s.bus.log)
  }

  lemma OutboxGrows(db: Db, l: Label)
    requires IdsFresh(db)
    ensures forall k :: k in db.outbox ==> k in Next(db, l).outbox && Next(db, l).outbox[k] == db.outbox[k]
  {
  }

  lemma WriteKeepsConserved(s: Outbox, l: Label)
    requires IdsFresh(s.db) && Conserved(s)
    ensures Conserved(Act(s, Writes(l)))
  {
    OutboxGrows(s.db, l);
  }

  lemma LowestPending(pending: set<nat>, n: nat)
    ensures forall k :: k in Lowest(pending, n) ==> k in pending
  {
    LowestSpec(pending, n);
  }

  lemma FetchKeepsConserved(s: Outbox, r: nat)
    requires Conserved(s)
    ensures Conserved(Act(s, Relays(Fetch(r))))
  {
    LowestPending(s.db.outbox.Keys - s.bus.published, BATCH);
  }

  lemma RelayKeepsConserved(s: Outbox, step: Step)
    requires Conserved(s) && !step.Fetch?
    ensures Conserved(Act(s, Relays(step)))
  {
    if CanStep(s.bus, step) {
      var w := s.bus.workers[step.r];
      if w.batch != [] {
        assert w.batch[0] in w.batch && forall k :: k in w.batch[1..] ==> k in w.batch;
      }
    }
  }

  // ---- First copies in commit order ----

  ghost predicate Precedes(s: seq<nat>, a: nat, b: nat) {
    exists i, j :: 0 <= i < j < |s| && s[i] == a && s[j] == b
  }

  /** `a` was committed before `b` and has the lower id, as is always so when they conflict. */
  ghost predicate Ahead(db: Db, a: nat, b: nat) {
    a < b && a in db.outbox && b in db.outbox && Precedes(db.commits, a, b)
  }

  /** Every copy of a row is preceded by a copy of each row ahead of it. */
  ghost predicate LogOrdered(s: Outbox) {
    forall a, j :: 0 <= j < |s.bus.log| && Ahead(s.db, a, s.bus.log[j]) ==> a in s.bus.log[..j]
  }

  /** What a relay is about to publish is ahead of nothing it has skipped. */
  ghost predicate BatchesOrdered(s: Outbox) {
    forall r :: 0 <= r < |s.bus.workers| ==> BatchOrdered(s, s.bus.workers[r].batch)
  }

  ghost predicate BatchOrdered(s: Outbox, batch: seq<nat>) {
    && Sorted(IdLess, batch)
    && (forall a, b :: b in batch && Ahead(s.db, a, b) ==> a in batch || a in s.bus.log)
  }

  lemma FetchOrdered(s: Outbox)
    requires Conserved(s)
    ensures BatchOrdered(s, Lowest(s.db.outbox.Keys - s.bus.published, BATCH))
  {
    var pending := s.db.outbox.Keys - s.bus.published;
    var batch := Lowest(pending, BATCH);
    LowestSpec(pending, BATCH);
    forall a, b | b in batch && Ahead(s.db, a, b) ensures a in batch || a in s.bus.log {
      assert a in pending && a !in batch ==> IdLess(b, a);
    }
  }

  lemma TailOrdered(s: Outbox, batch: seq<nat>, s': Outbox)
    requires batch != [] && BatchOrdered(s, batch) && s'.db == s.db
    requires batch[0] in s'.bus.log && forall k :: k in s.bus.log ==> k in s'.bus.log
    ensures BatchOrdered(s', batch[1..])
  {
    assert forall a :: a in batch ==> a == batch[0] || a in batch[1..];
  }

  lemma HeadOrdered(s: Outbox, r: nat)
    requires LogOrdered(s) && BatchesOrdered(s) && Busy(s.bus, r, false)
    ensures LogOrdered(s.(bus := s.bus.(log := s.bus.log + [s.bus.workers[r].batch[0]])))
  {
    var batch := s.bus.workers[r].batch;
    assert BatchOrdered(s, batch);
    var log' := s.bus.log + [batch[0]];
    forall a, j | 0 <= j < |log'| && Ahead(s.db, a, log'[j]) ensures a in log'[..j] {
      if j < |s.bus.log| {
        assert a in s.bus.log[..j] && log'[..j] == s.bus.log[..j];
      } else {
        assert log'[..j] == s.bus.log;
        assert batch[0] in batch && (a in batch || a in s.bus.log);
        assert forall i :: 0 < i < |batch| ==> IdLess(batch[0], batch[i]);
      }
    }
  }

  lemma RelayKeepsOrder(s: Outbox, step: Step)
    requires Conserved(s) && LogOrdered(s) && BatchesOrdered(s) && !step.PublishFails?
    ensures LogOrdered(Act(s, Relays(step))) && BatchesOrdered(Act(s, Relays(step)))
  {
    if CanStep(s.bus, step) {
      var s' := Act(s, Relays(step));
      if step.Publish? || step.PublishUnknown? {
        HeadOrdered(s, step.r);
      }
      forall r | 0 <= r < |s'.bus.workers| ensures BatchOrdered(s', s'.bus.workers[r].batch) {
        assert BatchOrdered(s, s.bus.workers[r].batch);
        if r == step.r {
          if step.Fetch? {
            FetchOrdered(s);
          } else if !step.Publish? && !step.Crash? {
            TailOrdered(s, s.bus.workers[r].batch, s');
          }
        }
      }
    }
  }

  /** A newly committed row is ahead of no row committed before it. */
  lemma CommitIsLast(db: Db, l: Label, a: nat, b: nat)
    requires IdsFresh(db) && CommitLog(db) && b in db.outbox && Ahead(Next(db, l), a, b)
    ensures Ahead(db, a, b)
  {
    if l.Commit? && Enabled(db, l) {
      var commits := CommitTxn(db, l.t).commits;
      var i, j :| 0 <= i < j < |commits| && commits[i] == a && commits[j] == b;
      assert commits[..|db.commits|] == db.commits && commits[|db.commits|] !in db.outbox;
      assert db.commits[i] == a && db.commits[j] == b;
    }
  }

  lemma WriteKeepsOrder(s: Outbox, l: Label)
    requires Inv(s.db) && Conserved(s) && LogOrdered(s) && BatchesOrdered(s)
    ensures LogOrdered(Act(s, Writes(l))) && BatchesOrdered(Act(s, Writes(l)))
  {
    var s' := Act(s, Writes(l));
    forall a, j | 0 <= j < |s'.bus.log| && Ahead(s'.db, a, s'.bus.log[j]) ensures a in s'.bus.log[..j] {
      CommitIsLast(s.db, l, a, s'.bus.log[j]);
    }
    forall r | 0 <= r < |s'.bus.workers| ensures BatchOrdered(s', s'.bus.workers[r].batch) {
      assert BatchOrdered(s, s.bus.workers[r].batch);
      forall a, b | b in s.bus.workers[r].batch && Ahead(s'.db, a, b)
        ensures a in s.bus.workers[r].batch || a in s.bus.log
      {
        CommitIsLast(s.db, l, a, b);
      }
    }
  }

  /** No publish in the schedule reports an error without having appended. */
  predicate NoPublishLost(schedule: seq<Action>) {
    forall i :: 0 <= i < |schedule| ==> !(schedule[i].Relays? && schedule[i].step.PublishFails?)
  }

  lemma {:induction false} RunConserves(relays: nat, schedule: seq<Action>)
    ensures Inv(Run(relays, schedule).db) && Conserved(Run(relays, schedule))
  {
    if schedule != [] {
      var s, a := Run(relays, schedule[..|schedule| - 1]), schedule[|schedule| - 1];
      RunConserves(relays, schedule[..|schedule| - 1]);
      if a.Writes? {
        WriteKeepsConserved(s, a.write);
        InvStep(s.db, a.write);
      } else if a.step.Fetch? {
        FetchKeepsConserved(s, a.step.r);
      } else {
        RelayKeepsConserved(s, a.step);
      }
    }
  }

  lemma {:induction false} RunOrdered(relays: nat, schedule: seq<Action>)
    requires NoPublishLost(schedule)
    ensures LogOrdered(Run(relays, schedule)) && BatchesOrdered(Run(relays, schedule))
  {
    if schedule != [] {
      var s, a := Run(relays, schedule[..|schedule| - 1]), schedule[|schedule| - 1];
      RunOrdered(relays, schedule[..|schedule| - 1]);
      RunConserves(relays, schedule[..|schedule| - 1]);
      if a.Writes? {
        WriteKeepsOrder(s, a.write);
      } else {
        RelayKeepsOrder(s, a.step);
      }
    }
  }

  /** Commits i < j with ascending outbox ids: if the later commit has any copy in the log, the
      earlier commit has one before it. Holds for any number of relays, crashes and lost marks. */
  lemma AscendingIdsLoggedInCommitOrder(relays: nat, schedule: seq<Action>, i: nat, j: nat, p: nat)
    requires NoPublishLost(schedule)
    requires var s := Run(relays, schedule);
             && i < j < |s.db.commits| && s.db.commits[i] < s.db.commits[j]
             && p < |s.bus.log| && s.bus.log[p] == s.db.commits[j]
    ensures var s := Run(relays, schedule);
            exists q :: 0 <= q < p && s.bus.log[q] == s.db.commits[i]
  {
    var s := Run(relays, schedule);
    RunConserves(relays, schedule);
    RunOrdered(relays, schedule);
    assert Ahead(s.db, s.db.commits[i], s.bus.log[p]);
    var q :| 0 <= q < p && s.bus.log[..p][q] == s.db.commits[i];
  }

  /** Conflicting events always have ascending ids, so they are logged in commit order. */
  lemma ConflictsLoggedInCommitOrder(relays: nat, schedule: seq<Action>, i: nat, j: nat, p: nat)
    requires NoPublishLost(schedule)
    requires var s := Run(relays, schedule);
             && i < j < |s.db.commits| && p < |s.bus.log| && s.bus.log[p] == s.db.commits[j]
             && s.db.commits[i] in s.db.outbox && s.db.commits[j] in s.db.outbox
             && Conflict(s.db.outbox[s.db.commits[i]], s.db.outbox[s.db.commits[j]])
    ensures var s := Run(relays, schedule);
            exists q :: 0 <= q < p && s.bus.log[q] == s.db.commits[i]
  {
    RunConserves(relays, schedule);
    AscendingIdsLoggedInCommitOrder(relays, schedule, i, j, p);
  }

  /** In every reachable state each commit has its own outbox row, rows are never lost or
      invented on the way to the log, and a row is pending exactly while it is unmarked. */
  lemma NoLossNoPhantom(relays: nat, schedule: seq<Action>)
    ensures var s := Run(relays, schedule);
            && (forall k :: k in s.db.outbox <==> k in s.db.commits)
            && (forall i, j :: 0 <= i < j < |s.db.commits| ==> s.db.commits[i] != s.db.commits[j])
            && (forall k :: k in s.bus.log ==> k in s.db.commits)
            && (forall k :: k in s.bus.published ==> k in s.bus.log)
            && (forall k :: k in s.db.commits ==> k in s.bus.log || k in s.db.outbox.Keys - s.bus.published)
  {
    RunConserves(relays, schedule);
  }
}
