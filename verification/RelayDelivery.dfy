/** Delivery in bounded time: how many clean ticks it takes until a row is in the log and marked,
    with anything else going on between the ticks. */
module RelayDelivery {
  import opened Sequences
  import opened WriterInvariants
  import opened Selection
  import opened Relay
  import opened RelayTick

  lemma {:induction false} MembersSize(s: seq<nat>)
    requires Sorted(IdLess, s)
    ensures |Members(s)| == |s|
  {
    if s != [] {
      var n := |s| - 1;
      MembersSize(s[..n]);
      assert forall i :: 0 <= i < n ==> IdLess(s[i], s[n]);
      assert s[n] !in s[..n];
      assert s == s[..n] + [s[n]];
      assert Members(s) == Members(s[..n]) + {s[n]};
    }
  }

  /** What a tick without failures leaves pending. */
  ghost function CleanTick(pending: set<nat>): set<nat> {
    pending - Members(Lowest(pending, BATCH))
  }

  function Below(pending: set<nat>, id: nat): set<nat> {
    set x | x in pending && x < id
  }

  lemma SubsetSize(a: set<nat>, b: set<nat>)
    requires a <= b
    ensures |a| <= |b| && |b - a| == |b| - |a|
  {
    assert b == a + (b - a);
  }

  /** A clean tick delivers the row or brings it a whole batch nearer. */
  lemma TickAdvances(pending: set<nat>, id: nat)
    requires id in pending
    ensures var rest := CleanTick(pending);
            if |Below(pending, id)| < BATCH then id !in rest
            else |Below(rest, id)| == |Below(pending, id)| - BATCH
  {
    var batch := Lowest(pending, BATCH);
    LowestSpec(pending, BATCH);
    MembersSize(batch);
    var low := Below(pending, id);
    SubsetSize(low, pending);
    if id !in batch {
      assert |batch| == BATCH;
      assert forall x :: x in batch ==> IdLess(x, id);
      assert Members(batch) <= low;
      SubsetSize(Members(batch), low);
      assert Below(CleanTick(pending), id) == low - Members(batch);
    } else {
      assert forall x :: x in low && x !in batch ==> IdLess(id, x);
      assert low <= Members(batch) - {id};
      SubsetSize(low, Members(batch) - {id});
    }
  }

  // ---- Runs with clean ticks in them ----

  /** Any actions of writers and relays, faults included, and then a clean tick of relay `r`: it
      fetches, and `body` lasts until its batch is done. Writers and other relays may act, and
      fail, anywhere inside the tick too. */
  datatype Round = Round(noise: seq<Action>, r: nat, body: seq<Action>)

  /** The relay itself does nothing but publish and mark; the others do what they like. */
  predicate CleanBody(r: nat, body: seq<Action>) {
    forall i :: 0 <= i < |body| && body[i].Relays? && body[i].step.r == r ==>
      body[i].step.Publish? || body[i].step.Mark?
  }

  function AfterRound(before: seq<Action>, round: Round): seq<Action> {
    before + round.noise + [Relays(Fetch(round.r))] + round.body
  }

  /** The schedule that continues `before` with the rounds. */
  function Play(before: seq<Action>, rounds: seq<Round>): seq<Action>
    decreases |rounds|
  {
    if rounds == [] then before else Play(AfterRound(before, rounds[0]), rounds[1..])
  }

  /** The relay is idle when its tick begins and idle again when it ends. */
  ghost predicate Fits(relays: nat, before: seq<Action>, round: Round) {
    && CleanBody(round.r, round.body)
    && Idle(Run(relays, before + round.noise), round.r)
    && Idle(Run(relays, AfterRound(before, round)), round.r)
  }

  ghost predicate Playable(relays: nat, before: seq<Action>, rounds: seq<Round>)
    decreases |rounds|
  {
    rounds != [] ==> Fits(relays, before, rounds[0]) && Playable(relays, AfterRound(before, rounds[0]), rounds[1..])
  }

  /** Rows and marks are never taken back. */
  ghost predicate Grows(s: Outbox, s': Outbox) {
    s.db.outbox.Keys <= s'.db.outbox.Keys && s.bus.published <= s'.bus.published
  }

  lemma ActGrows(s: Outbox, a: Action)
    requires IdsFresh(s.db)
    ensures Grows(s, Act(s, a))
  {
    if a.Writes? {
      OutboxGrows(s.db, a.write);
    }
  }

  lemma {:induction false} RunGrows(relays: nat, before: seq<Action>, more: seq<Action>)
    ensures Grows(Run(relays, before), Run(relays, before + more))
    decreases |more|
  {
    if more == [] {
      assert before + more == before;
    } else {
      var n := |more| - 1;
      RunGrows(relays, before, more[..n]);
      RunConserves(relays, before + more[..n]);
      ActGrows(Run(relays, before + more[..n]), more[n]);
      Unsnoc(before, more);
      RunSnoc(relays, before + more[..n], more[n]);
    }
  }

  /** A mark is for good: whatever follows, no relay ever fetches the row again. */
  lemma MarkedForGood(relays: nat, before: seq<Action>, more: seq<Action>, r: nat, id: nat)
    requires id in Run(relays, before).bus.published
    ensures id in Run(relays, before + more).bus.published
    ensures var s := Run(relays, before + more);
            CanStep(s.bus, Fetch(r)) ==> id !in Relayed(s.db.outbox, s.bus, Fetch(r)).workers[r].batch
  {
    RunGrows(relays, before, more);
    var s := Run(relays, before + more);
    LowestPending(s.db.outbox.Keys - s.bus.published, BATCH);
  }

  lemma RoundGrows(relays: nat, before: seq<Action>, round: Round)
    ensures Grows(Run(relays, before), Run(relays, AfterRound(before, round)))
  {
    RunGrows(relays, before, round.noise);
    RunGrows(relays, before + round.noise, [Relays(Fetch(round.r))]);
    RunGrows(relays, before + round.noise + [Relays(Fetch(round.r))], round.body);
  }

  lemma {:induction false} PlayGrows(relays: nat, before: seq<Action>, rounds: seq<Round>)
    ensures Grows(Run(relays, before), Run(relays, Play(before, rounds)))
    decreases |rounds|
  {
    if rounds != [] {
      RoundGrows(relays, before, rounds[0]);
      PlayGrows(relays, AfterRound(before, rounds[0]), rounds[1..]);
    }
  }

  /** Every row of `fetched` is marked or still in the relay's batch. */
  ghost predicate Covered(s: Outbox, r: nat, fetched: seq<nat>) {
    r < |s.bus.workers| && forall x :: x in fetched ==> x in s.bus.published || x in s.bus.workers[r].batch
  }

  lemma CoverStep(s: Outbox, a: Action, r: nat, fetched: seq<nat>)
    requires Covered(s, r, fetched) && (a.Relays? && a.step.r == r ==> a.step.Publish? || a.step.Mark?)
    ensures Covered(Act(s, a), r, fetched)
  {
    if a.Relays? && a.step.r == r && CanStep(s.bus, a.step) {
      var batch := s.bus.workers[r].batch;
      assert forall x :: x in batch ==> x == batch[0] || x in batch[1..];
    }
  }

  lemma {:induction false} BodyCovers(relays: nat, start: seq<Action>, r: nat, fetched: seq<nat>, body: seq<Action>)
    requires Covered(Run(relays, start), r, fetched) && CleanBody(r, body)
    ensures Covered(Run(relays, start + body), r, fetched)
    decreases |body|
  {
    if body == [] {
      assert start + body == start;
    } else {
      var n := |body| - 1;
      assert forall i :: 0 <= i < n ==> body[..n][i] == body[i];
      BodyCovers(relays, start, r, fetched, body[..n]);
      CoverStep(Run(relays, start + body[..n]), body[n], r, fetched);
      Unsnoc(start, body);
      RunSnoc(relays, start + body[..n], body[n]);
    }
  }

  /** A clean tick marks its whole batch, whatever goes on meanwhile. */
  lemma RoundMarks(relays: nat, before: seq<Action>, round: Round)
    requires Fits(relays, before, round)
    ensures var s, end := Run(relays, before + round.noise), Run(relays, AfterRound(before, round));
            forall x :: x in Lowest(s.db.outbox.Keys - s.bus.published, BATCH) ==> x in end.bus.published
  {
    var mid := before + round.noise;
    var s := Run(relays, mid);
    var fetched := Lowest(s.db.outbox.Keys - s.bus.published, BATCH);
    RunSnoc(relays, mid, Relays(Fetch(round.r)));
    assert Covered(Run(relays, mid + [Relays(Fetch(round.r))]), round.r, fetched);
    BodyCovers(relays, mid + [Relays(Fetch(round.r))], round.r, fetched, round.body);
  }

  lemma LiftFirst(first: Step, steps: seq<Step>)
    ensures LiftSteps([first] + steps) == [Relays(first)] + LiftSteps(steps)
  {
  }

  lemma RoundSchedule(before: seq<Action>, r: nat, steps: seq<Step>)
    ensures AfterRound(before, Round([], r, LiftSteps(steps))) == before + LiftSteps([Fetch(r)] + steps)
  {
    LiftFirst(Fetch(r), steps);
    assert before + [] == before;
    Reassociate(before, [Relays(Fetch(r))], LiftSteps(steps));
  }

  /** An undisturbed tick is such a round. */
  lemma UndisturbedFits(relays: nat, before: seq<Action>, r: nat)
    requires Idle(Run(relays, before), r)
    ensures var s := Run(relays, before);
            var steps := TickSteps(r, Lowest(s.db.outbox.Keys - s.bus.published, BATCH),
                                   (id: nat) => Appended, (id: nat) => true);
            Fits(relays, before, Round([], r, LiftSteps(steps)))
  {
    var s := Run(relays, before);
    var publish: nat -> Outcome, mark: nat -> bool := (id: nat) => Appended, (id: nat) => true;
    var batch := Lowest(s.db.outbox.Keys - s.bus.published, BATCH);
    TickRuns(relays, before, r, publish, mark);
    RoundSchedule(before, r, TickSteps(r, batch, publish, mark));
    assert before + [] == before;
    CleanTickSteps(r, batch, publish, mark);
  }

  lemma {:induction false} CleanTickSteps(r: nat, batch: seq<nat>, publish: nat -> Outcome, mark: nat -> bool)
    requires forall id :: publish(id).Appended? && mark(id)
    ensures forall i :: 0 <= i < |TickSteps(r, batch, publish, mark)| ==>
              TickSteps(r, batch, publish, mark)[i].Publish? || TickSteps(r, batch, publish, mark)[i].Mark?
    decreases |batch|
  {
    if batch != [] {
      CleanTickSteps(r, batch[1..], publish, mark);
    }
  }

  /** The rows below `id` that have been marked since the marks were `base`. */
  function Passed(s: Outbox, base: set<nat>, id: nat): set<nat> {
    Below(s.bus.published - base, id)
  }

  lemma TickPasses(published: set<nat>, pending: set<nat>, published': set<nat>, base: set<nat>, id: nat)
    requires base <= published <= published' && pending !! published && id in CleanTick(pending)
    requires forall x :: x in Lowest(pending, BATCH) ==> x in published'
    ensures |Below(published' - base, id)| >= |Below(published - base, id)| + BATCH
  {
    TickAdvances(pending, id);
    var taken := Below(pending, id) - Below(CleanTick(pending), id);
    SubsetSize(Below(CleanTick(pending), id), Below(pending, id));
    assert Below(published - base, id) !! taken;
    SubsetSize(Below(published - base, id) + taken, Below(published' - base, id));
  }

  /** A round that leaves the row pending has marked a hundred rows below it. */
  lemma RoundPasses(relays: nat, before: seq<Action>, round: Round, base: set<nat>, id: nat)
    requires Fits(relays, before, round) && id in Run(relays, before).db.outbox
    requires base <= Run(relays, before).bus.published
    requires id !in Run(relays, AfterRound(before, round)).bus.published
    ensures |Passed(Run(relays, AfterRound(before, round)), base, id)|
            >= |Passed(Run(relays, before), base, id)| + BATCH
  {
    var mid := before + round.noise;
    var s0, s, end := Run(relays, before), Run(relays, mid), Run(relays, AfterRound(before, round));
    RunGrows(relays, before, round.noise);
    RoundMarks(relays, before, round);
    RunGrows(relays, mid, [Relays(Fetch(round.r))] + round.body);
    assert mid + ([Relays(Fetch(round.r))] + round.body) == AfterRound(before, round);
    TickPasses(s.bus.published, s.db.outbox.Keys - s.bus.published, end.bus.published, base, id);
    SubsetSize(Passed(s0, base, id), Passed(s, base, id));
  }

  lemma {:induction false} PlayPasses(relays: nat, before: seq<Action>, rounds: seq<Round>, base: set<nat>, id: nat)
    requires Playable(relays, before, rounds) && id in Run(relays, before).db.outbox
    requires base <= Run(relays, before).bus.published
    requires id !in Run(relays, Play(before, rounds)).bus.published
    ensures |Passed(Run(relays, Play(before, rounds)), base, id)|
            >= |Passed(Run(relays, before), base, id)| + BATCH * |rounds|
    decreases |rounds|
  {
    if rounds != [] {
      var next := AfterRound(before, rounds[0]);
      RoundGrows(relays, before, rounds[0]);
      PlayGrows(relays, next, rounds[1..]);
      RoundPasses(relays, before, rounds[0], base, id);
      PlayPasses(relays, next, rounds[1..], base, id);
    }
  }

  /** The rows below `id` that are unmarked at the start or get committed before the end. */
  function Rivals(start: Outbox, end: Outbox, id: nat): set<nat> {
    Below(end.db.outbox.Keys - start.bus.published, id)
  }

  /** The general bound: a row is marked and in the log once the clean ticks outnumber the
      hundreds of rows that can come before it. */
  lemma DeliveredWithin(relays: nat, before: seq<Action>, rounds: seq<Round>, id: nat)
    requires Playable(relays, before, rounds) && id in Run(relays, before).db.outbox
    requires var start, end := Run(relays, before), Run(relays, Play(before, rounds));
             |rounds| > |Rivals(start, end, id)| / BATCH
    ensures var end := Run(relays, Play(before, rounds)); id in end.bus.published && id in end.bus.log
  {
    var start, end := Run(relays, before), Run(relays, Play(before, rounds));
    RunConserves(relays, Play(before, rounds));
    if id !in end.bus.published {
      PlayPasses(relays, before, rounds, start.bus.published, id);
      SubsetSize(Passed(end, start.bus.published, id), Rivals(start, end, id));
    }
  }

  lemma {:induction false} BelowSize(s: set<nat>, n: nat)
    ensures |Below(s, n)| <= n
  {
    if n > 0 {
      BelowSize(s, n - 1);
      assert Below(s, n) <= Below(s, n - 1) + {n - 1};
      SubsetSize(Below(s, n), Below(s, n - 1) + {n - 1});
    } else {
      assert Below(s, n) == {};
    }
  }

  /** Whatever arrives, also below it, a row is delivered within id / 100 + 1 clean ticks. */
  lemma DeliveredWhateverArrives(relays: nat, before: seq<Action>, rounds: seq<Round>, id: nat)
    requires Playable(relays, before, rounds) && id in Run(relays, before).db.outbox && |rounds| >= id / BATCH + 1
    ensures var end := Run(relays, Play(before, rounds)); id in end.bus.published && id in end.bus.log
  {
    var start, end := Run(relays, before), Run(relays, Play(before, rounds));
    BelowSize(end.db.outbox.Keys - start.bus.published, id);
    DeliveredWithin(relays, before, rounds, id);
  }

  /** With k pending rows before it and no lower row committed meanwhile, a row is delivered
      within k / 100 + 1 clean ticks. */
  lemma DeliveredFromPosition(relays: nat, before: seq<Action>, rounds: seq<Round>, id: nat)
    requires Playable(relays, before, rounds) && id in Run(relays, before).db.outbox
    requires var start, end := Run(relays, before), Run(relays, Play(before, rounds));
             && (forall x :: x in end.db.outbox && x < id ==> x in start.db.outbox)
             && |rounds| >= |Below(start.db.outbox.Keys - start.bus.published, id)| / BATCH + 1
    ensures var end := Run(relays, Play(before, rounds)); id in end.bus.published && id in end.bus.log
  {
    var start, end := Run(relays, before), Run(relays, Play(before, rounds));
    SubsetSize(Rivals(start, end, id), Below(start.db.outbox.Keys - start.bus.published, id));
    DeliveredWithin(relays, before, rounds, id);
  }

  /** p pending rows drain in ceil(p / 100) clean ticks when no new row is committed: every row
      is then marked and in the log. */
  lemma DrainsWithin(relays: nat, before: seq<Action>, rounds: seq<Round>, id: nat)
    requires Playable(relays, before, rounds)
    requires var start, end := Run(relays, before), Run(relays, Play(before, rounds));
             && end.db.outbox.Keys == start.db.outbox.Keys
             && |rounds| >= (|start.db.outbox.Keys - start.bus.published| + BATCH - 1) / BATCH
             && id in end.db.outbox
    ensures var end := Run(relays, Play(before, rounds)); id in end.bus.published && id in end.bus.log
  {
    var start, end := Run(relays, before), Run(relays, Play(before, rounds));
    RunConserves(relays, Play(before, rounds));
    PlayGrows(relays, before, rounds);
    if id !in end.bus.published {
      var pending := start.db.outbox.Keys - start.bus.published;
      SubsetSize(Rivals(start, end, id), pending - {id});
      DeliveredWithin(relays, before, rounds, id);
    }
  }
}
