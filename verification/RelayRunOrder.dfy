/** Commit order over whole runs, whatever interleaves: exactly which appends keep it, and exactly
    when every loss-free way of relaying keeps it within each chat. */
module RelayRunOrder {
  import opened Domain
  import opened Writer
  import opened WriterInvariants
  import opened Selection
  import opened Sequences
  import opened Relay
  import opened RelayTick
  import opened RelayOrder

  /** The row an action appends to the log. */
  function Appended(s: Outbox, a: Action): Option<nat> {
    if a.Relays? && (a.step.Publish? || a.step.PublishUnknown?) && CanStep(s.bus, a.step)
    then Some(s.bus.workers[a.step.r].batch[0]) else None
  }

  /** Every related row committed before the appended one has a copy already. */
  ghost predicate AppendsInOrder(s: Outbox, a: Action, rel: Relation) {
    Appended(s, a).Some? ==> forall x :: AheadBy(s.db, rel, x, Appended(s, a).value) ==> x in s.bus.log
  }

  // ---- One action ----

  /** What is added at the end comes before nothing. */
  lemma PrecedesSnoc(log: seq<nat>, z: nat, x: nat, b: nat)
    requires z != b
    ensures Precedes(log + [z], x, b) <==> Precedes(log, x, b)
  {
    var longer := log + [z];
    if Precedes(longer, x, b) {
      var i, j :| 0 <= i < j < |longer| && longer[i] == x && longer[j] == b;
      assert log[i] == x && log[j] == b;
    }
    if Precedes(log, x, b) {
      var i, j :| 0 <= i < j < |log| && log[i] == x && log[j] == b;
      assert longer[i] == x && longer[j] == b;
    }
  }

  lemma PrecedesFirst(log: seq<nat>, x: nat, b: nat)
    requires Precedes(log, x, b)
    ensures x in log
  {
  }

  /** Later commits come after every committed row. */
  lemma AheadStable(db: Db, l: Label, rel: Relation, x: nat, b: nat)
    requires IdsFresh(db) && CommitLog(db) && b in db.outbox
    ensures AheadBy(Next(db, l), rel, x, b) <==> AheadBy(db, rel, x, b)
  {
    if l.Commit? && Enabled(db, l) {
      var oid := db.txs[l.t].stage.oid;
      PrecedesSnoc(db.commits, oid, x, b);
      if Precedes(db.commits, x, b) {
        PrecedesFirst(db.commits, x, b);
      }
    }
  }

  lemma WriteKeeps(s: Outbox, l: Label, rel: Relation)
    requires Inv(s.db) && Conserved(s)
    ensures Keeps(s.bus.log, By(Next(s.db, l), rel)) <==> Keeps(s.bus.log, By(s.db, rel))
  {
    forall a, j | 0 <= j < |s.bus.log|
      ensures By(Next(s.db, l), rel)(a, s.bus.log[j]) <==> By(s.db, rel)(a, s.bus.log[j])
    {
      assert s.bus.log[j] in s.bus.log;
      AheadStable(s.db, l, rel, a, s.bus.log[j]);
    }
  }

  lemma AppendKeeps(log: seq<nat>, h: nat, before: Order)
    ensures Keeps(log + [h], before) <==> Keeps(log, before) && forall x :: before(x, h) ==> x in log
  {
    var log' := log + [h];
    assert log'[|log|] == h && log'[..|log|] == log;
    assert forall j :: 0 <= j < |log| ==> log'[j] == log[j] && log'[..j] == log[..j];
  }

  lemma ActKeepsIff(s: Outbox, a: Action, rel: Relation)
    requires Inv(s.db) && Conserved(s)
    ensures Keeps(Act(s, a).bus.log, By(Act(s, a).db, rel))
            <==> Keeps(s.bus.log, By(s.db, rel)) && AppendsInOrder(s, a, rel)
  {
    if a.Writes? {
      WriteKeeps(s, a.write, rel);
    } else if Appended(s, a).Some? {
      var h := Appended(s, a).value;
      assert Act(s, a).bus.log == s.bus.log + [h];
      AppendKeeps(s.bus.log, h, By(s.db, rel));
      assert forall x :: By(s.db, rel)(x, h) <==> AheadBy(s.db, rel, x, h);
    } else {
      assert Act(s, a).bus.log == s.bus.log;
    }
  }

  // ---- Whole runs ----

  ghost predicate KeptBy(relays: nat, schedule: seq<Action>, rel: Relation) {
    Keeps(Run(relays, schedule).bus.log, By(Run(relays, schedule).db, rel))
  }

  /** Action `i`, when it is taken, appends in order or not at all. */
  ghost predicate InOrderAt(relays: nat, schedule: seq<Action>, rel: Relation, i: nat)
    requires i < |schedule|
  {
    AppendsInOrder(Run(relays, schedule[..i]), schedule[i], rel)
  }

  lemma PrefixInOrder(relays: nat, schedule: seq<Action>, rel: Relation, n: nat, i: nat)
    requires i < n <= |schedule|
    ensures InOrderAt(relays, schedule[..n], rel, i) <==> InOrderAt(relays, schedule, rel, i)
  {
    assert schedule[..n][..i] == schedule[..i];
  }

  lemma LastKeepsIff(relays: nat, schedule: seq<Action>, rel: Relation)
    requires schedule != []
    ensures KeptBy(relays, schedule, rel)
            <==> KeptBy(relays, schedule[..|schedule| - 1], rel) && InOrderAt(relays, schedule, rel, |schedule| - 1)
  {
    RunConserves(relays, schedule[..|schedule| - 1]);
    ActKeepsIff(Run(relays, schedule[..|schedule| - 1]), schedule[|schedule| - 1], rel);
  }

  /** Any run, with any faults and any interleaving inside and between ticks: the log ends up in
      commit order of the related events if and only if every append, when it is made, finds a
      copy of each related row committed before its own. */
  lemma {:induction false} RunKeepsIff(relays: nat, schedule: seq<Action>, rel: Relation)
    ensures KeptBy(relays, schedule, rel) <==> forall i :: 0 <= i < |schedule| ==> InOrderAt(relays, schedule, rel, i)
  {
    if schedule != [] {
      var n := |schedule| - 1;
      RunKeepsIff(relays, schedule[..n], rel);
      LastKeepsIff(relays, schedule, rel);
      forall i | 0 <= i < n ensures InOrderAt(relays, schedule[..n], rel, i) <==> InOrderAt(relays, schedule, rel, i) {
        PrefixInOrder(relays, schedule, rel, n, i);
      }
    }
  }

  // ---- Every loss-free way of relaying ----

  /** The writers' part of a schedule. */
  function WritesOf(schedule: seq<Action>): seq<Label> {
    if schedule == [] then []
    else
      var a := schedule[|schedule| - 1];
      WritesOf(schedule[..|schedule| - 1]) + if a.Writes? then [a.write] else []
  }

  lemma {:induction false} WritersAlone(relays: nat, schedule: seq<Action>)
    ensures Run(relays, schedule).db == Exec(WritesOf(schedule))
  {
    if schedule != [] {
      var n := |schedule| - 1;
      WritersAlone(relays, schedule[..n]);
      var ls := WritesOf(schedule[..n]);
      if schedule[n].Writes? {
        assert (ls + [schedule[n].write])[..|ls|] == ls;
      } else {
        assert ls + [] == ls;
      }
    }
  }

  ghost predicate RelaysOnly(schedule: seq<Action>) {
    forall i :: 0 <= i < |schedule| ==> schedule[i].Relays?
  }

  lemma {:induction false} WritesAppend(a: seq<Action>, b: seq<Action>)
    requires RelaysOnly(b)
    ensures WritesOf(a + b) == WritesOf(a)
    decreases |b|
  {
    if b == [] {
      assert a + b == a;
    } else {
      var n := |b| - 1;
      WritesAppend(a, b[..n]);
      assert (a + b)[..|a + b| - 1] == a + b[..n];
    }
  }

  lemma {:induction false} WritesLift(ls: seq<Label>)
    ensures WritesOf(Lift(ls)) == ls
  {
    if ls != [] {
      var n := |ls| - 1;
      WritesLift(ls[..n]);
      assert Lift(ls)[..n] == Lift(ls[..n]) && ls == ls[..n] + [ls[n]];
    }
  }

  /** Commits of one chat have ascending outbox ids. */
  ghost predicate AscendingInChats(db: Db) {
    forall i, j :: 0 <= i < j < |db.commits| && db.commits[i] in db.outbox && db.commits[j] in db.outbox
                   && SameChat(db.outbox[db.commits[i]], db.outbox[db.commits[j]])
                   ==> db.commits[i] < db.commits[j]
  }

  lemma AscendingKeeps(relays: nat, schedule: seq<Action>)
    requires NoPublishLost(schedule) && AscendingInChats(Run(relays, schedule).db)
    ensures Keeps(Run(relays, schedule).bus.log, By(Run(relays, schedule).db, SameChat))
  {
    var s := Run(relays, schedule);
    forall a, p | 0 <= p < |s.bus.log| && By(s.db, SameChat)(a, s.bus.log[p]) ensures a in s.bus.log[..p] {
      var i, j :| 0 <= i < j < |s.db.commits| && s.db.commits[i] == a && s.db.commits[j] == s.bus.log[p];
      AscendingIdsLoggedInCommitOrder(relays, schedule, i, j, p);
      var q :| 0 <= q < p && s.bus.log[q] == a;
      assert s.bus.log[..p][q] == a;
    }
  }

  /** One idle relay that has marked what it has logged, lowest ids first. */
  ghost predicate Tidy(s: Outbox) {
    && |s.bus.workers| == 1 && s.bus.workers[0].batch == []
    && Sorted(IdLess, s.bus.log)
    && (forall x :: x in s.bus.log <==> x in s.bus.published)
    && (forall x, y :: x in s.bus.log && y in s.db.outbox && y !in s.bus.published ==> x < y)
  }

  ghost function Waiting(s: Outbox): set<nat> {
    s.db.outbox.Keys - s.bus.published
  }

  lemma SortedJoin(log: seq<nat>, batch: seq<nat>)
    requires Sorted(IdLess, log) && Sorted(IdLess, batch) && forall x, y :: x in log && y in batch ==> x < y
    ensures Sorted(IdLess, log + batch)
  {
    forall i, j | 0 <= i < j < |log + batch| ensures IdLess((log + batch)[i], (log + batch)[j]) {
      if j < |log| {
        assert IdLess(log[i], log[j]);
      } else if i < |log| {
        assert log[i] in log && batch[j - |log|] in batch;
      } else {
        assert IdLess(batch[i - |log|], batch[j - |log|]);
      }
    }
  }

  lemma BatchOf(pending: set<nat>)
    requires pending != {}
    ensures var batch := Lowest(pending, BATCH);
            && batch != [] && Sorted(IdLess, batch)
            && (forall x :: x in batch ==> x in pending)
            && (forall x, y :: x in batch && y in pending && y !in batch ==> x < y)
  {
    LowestSpec(pending, BATCH);
    var batch := Lowest(pending, BATCH);
    forall x, y | x in batch && y in pending && y !in batch ensures x < y {
      assert IdLess(x, y);
    }
  }

  lemma Smaller(a: set<nat>, b: set<nat>, x: nat)
    requires b <= a && x in a && x !in b
    ensures |b| < |a|
  {
    assert a == b + (a - b) && x in a - b;
  }

  lemma TidyTick(s: Outbox, w: Worker, faults: multiset<nat>)
    requires Tidy(s) && Waiting(s) != {} && w.batch == []
    ensures var batch := Lowest(Waiting(s), BATCH);
            var s' := s.(bus := Bus([w], s.bus.published + Members(batch), s.bus.log + batch, faults));
            Tidy(s') && |Waiting(s')| < |Waiting(s)|
  {
    var batch := Lowest(Waiting(s), BATCH);
    var s' := s.(bus := Bus([w], s.bus.published + Members(batch), s.bus.log + batch, faults));
    BatchOf(Waiting(s));
    SortedJoin(s.bus.log, batch);
    forall x, y | x in s'.bus.log && y in s'.db.outbox && y !in s'.bus.published ensures x < y {
      assert x in s.bus.log || x in batch;
      assert y in Waiting(s) && y !in batch;
    }
    Smaller(Waiting(s), Waiting(s'), batch[0]);
  }

  /** A clean tick of the relay. */
  lemma TidyStep(before: seq<Action>) returns (tick: seq<Action>)
    requires Tidy(Run(1, before)) && Waiting(Run(1, before)) != {}
    ensures RelaysOnly(tick) && NoPublishLost(tick)
    ensures Tidy(Run(1, before + tick)) && Run(1, before + tick).db == Run(1, before).db
    ensures |Waiting(Run(1, before + tick))| < |Waiting(Run(1, before))|
  {
    var s := Run(1, before);
    var publish: nat -> Outcome, mark: nat -> bool := (id: nat) => RelayTick.Appended, (id: nat) => true;
    var batch := Lowest(Waiting(s), BATCH);
    tick := TickActions(s, 0, publish, mark);
    TickRuns(1, before, 0, publish, mark);
    CleanTickEffect(batch, publish, mark);
    var s' := Run(1, before + tick);
    assert s'.bus.workers == [s'.bus.workers[0]];
    TidyTick(s, s'.bus.workers[0], s'.bus.faults);
    CleanSteps(0, batch, publish, mark);
    LiftedSteps([Fetch(0)] + TickSteps(0, batch, publish, mark));
  }

  lemma LiftedSteps(steps: seq<Step>)
    requires forall step :: step in steps ==> !step.PublishFails?
    ensures RelaysOnly(LiftSteps(steps)) && NoPublishLost(LiftSteps(steps))
  {
    assert forall i :: 0 <= i < |steps| ==> steps[i] in steps;
  }

  lemma JoinLossFree(a: seq<Action>, b: seq<Action>)
    requires NoPublishLost(a) && NoPublishLost(b)
    ensures NoPublishLost(a + b) && (RelaysOnly(a) && RelaysOnly(b) ==> RelaysOnly(a + b))
  {
    assert forall i :: 0 <= i < |a + b| ==> (a + b)[i] == if i < |a| then a[i] else b[i - |a|];
  }

  ghost predicate Drains(before: seq<Action>, steps: seq<Action>) {
    && RelaysOnly(steps) && NoPublishLost(steps)
    && Tidy(Run(1, before + steps)) && Waiting(Run(1, before + steps)) == {}
    && Run(1, before + steps).db == Run(1, before).db
  }

  lemma NothingDrains(before: seq<Action>)
    requires Tidy(Run(1, before)) && Waiting(Run(1, before)) == {}
    ensures Drains(before, [])
  {
    assert before + [] == before;
  }

  lemma TickDrains(before: seq<Action>, tick: seq<Action>, rest: seq<Action>)
    requires RelaysOnly(tick) && NoPublishLost(tick) && Run(1, before + tick).db == Run(1, before).db
    requires Drains(before + tick, rest)
    ensures Drains(before, tick + rest)
  {
    JoinLossFree(tick, rest);
    Reassociate(before, tick, rest);
  }

  /** One relay with clean ticks empties the outbox in id order. */
  lemma {:induction false} TidyDrain(before: seq<Action>) returns (steps: seq<Action>)
    requires Tidy(Run(1, before))
    ensures Drains(before, steps)
    decreases |Waiting(Run(1, before))|
  {
    if Waiting(Run(1, before)) == {} {
      steps := [];
      NothingDrains(before);
    } else {
      var tick := TidyStep(before);
      var rest := TidyDrain(before + tick);
      steps := tick + rest;
      TickDrains(before, tick, rest);
    }
  }

  lemma SortedBreaks(log: seq<nat>, a: nat, b: nat, before: Order)
    requires Sorted(IdLess, log) && b in log && b < a && before(a, b)
    ensures !Keeps(log, before)
  {
    var p :| 0 <= p < |log| && log[p] == b;
    AscendingBefore(log, p, a);
  }

  lemma DrainedBreaks(s: Outbox)
    requires Inv(s.db) && Tidy(s) && Waiting(s) == {} && !AscendingInChats(s.db)
    ensures !Keeps(s.bus.log, By(s.db, SameChat))
  {
    var i, j :| 0 <= i < j < |s.db.commits| && s.db.commits[i] in s.db.outbox && s.db.commits[j] in s.db.outbox
                && SameChat(s.db.outbox[s.db.commits[i]], s.db.outbox[s.db.commits[j]])
                && s.db.commits[i] >= s.db.commits[j];
    var a, b := s.db.commits[i], s.db.commits[j];
    assert a != b && b !in Waiting(s);
    assert AheadBy(s.db, SameChat, a, b);
    SortedBreaks(s.bus.log, a, b, By(s.db, SameChat));
  }

  lemma LiftLossFree(ls: seq<Label>)
    ensures NoPublishLost(Lift(ls))
  {
  }

  lemma DescendingBreaks(ls: seq<Label>) returns (schedule: seq<Action>)
    requires !AscendingInChats(Exec(ls))
    ensures NoPublishLost(schedule) && WritesOf(schedule) == ls && !KeptBy(1, schedule, SameChat)
  {
    var lifted := Lift(ls);
    LiftRuns(1, ls);
    var steps := TidyDrain(lifted);
    schedule := lifted + steps;
    LiftLossFree(ls);
    JoinLossFree(lifted, steps);
    WritesLift(ls);
    WritesAppend(lifted, steps);
    RunConserves(1, schedule);
    DrainedBreaks(Run(1, schedule));
  }

  /** However the writers commit: every loss-free way of relaying alongside them keeps each
      chat's commit order in the log if and only if commits of one chat have ascending ids. */
  lemma ChatOrderIff(ls: seq<Label>)
    ensures (forall relays, schedule :: NoPublishLost(schedule) && WritesOf(schedule) == ls ==>
               KeptBy(relays, schedule, SameChat))
            <==> AscendingInChats(Exec(ls))
  {
    if AscendingInChats(Exec(ls)) {
      forall relays, schedule | NoPublishLost(schedule) && WritesOf(schedule) == ls
        ensures KeptBy(relays, schedule, SameChat)
      {
        WritersAlone(relays, schedule);
        AscendingKeeps(relays, schedule);
      }
    } else {
      var schedule := DescendingBreaks(ls);
    }
  }
}
