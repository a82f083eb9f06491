/** How many copies of one row the log can hold. */
module RelayCopies {
  import opened Domain
  import opened Selection
  import opened Relay

  /** 1 when this relay has put a copy of `id` in the log without losing its mark. */
  function Token(w: Worker, id: nat): nat {
    if id in w.done || (w.marking && w.batch != [] && w.batch[0] == id) then 1 else 0
  }

  function Tokens(ws: seq<Worker>, id: nat): nat {
    if ws == [] then 0 else Tokens(ws[..|ws| - 1], id) + Token(ws[|ws| - 1], id)
  }

  lemma {:induction false} TokensBound(ws: seq<Worker>, id: nat)
    ensures Tokens(ws, id) <= |ws|
  {
    if ws != [] {
      TokensBound(ws[..|ws| - 1], id);
    }
  }

  lemma {:induction false} TokensUpdate(ws: seq<Worker>, r: nat, w: Worker, id: nat)
    requires r < |ws|
    ensures Tokens(ws[r := w], id) == Tokens(ws, id) - Token(ws[r], id) + Token(w, id)
  {
    var n := |ws| - 1;
    if r < n {
      TokensUpdate(ws[..n], r, w, id);
      assert ws[r := w][..n] == ws[..n][r := w];
    } else {
      assert ws[r := w][..n] == ws[..n];
    }
  }

  ghost predicate WorkerClean(bus: Bus, w: Worker) {
    && Sorted(IdLess, w.batch)
    && (w.marking ==> w.batch != [])
    && (forall k :: k in w.done ==> k in bus.published)
    && (forall k :: k in w.batch ==> k !in w.done)
  }

  ghost predicate CopiesBounded(bus: Bus) {
    && (forall r :: 0 <= r < |bus.workers| ==> WorkerClean(bus, bus.workers[r]))
    && (forall id :: multiset(bus.log)[id] <= bus.faults[id] + Tokens(bus.workers, id))
  }

  lemma TailClean(bus: Bus, w: Worker)
    requires WorkerClean(bus, w) && w.batch != []
    ensures Sorted(IdLess, w.batch[1..]) && forall k :: k in w.batch[1..] ==> k !in w.done && k != w.batch[0]
  {
    forall k | k in w.batch[1..] ensures k in w.batch && k != w.batch[0] {
      var i :| 0 <= i < |w.batch| - 1 && w.batch[1..][i] == k;
      assert IdLess(w.batch[0], w.batch[i + 1]);
    }
  }

  lemma StepKeepsClean(outbox: map<nat, Event>, bus: Bus, s: Step)
    requires CopiesBounded(bus) && CanStep(bus, s)
    ensures WorkerClean(Relayed(outbox, bus, s), Relayed(outbox, bus, s).workers[s.r])
  {
    assert WorkerClean(bus, bus.workers[s.r]);
    if s.Fetch? {
      LowestSpec(outbox.Keys - bus.published, BATCH);
    } else if bus.workers[s.r].batch != [] {
      TailClean(bus, bus.workers[s.r]);
    }
  }

  /** A step that appends a copy or drops a token pays for it with a token or a fault. */
  lemma StepPays(outbox: map<nat, Event>, bus: Bus, s: Step, id: nat)
    requires CopiesBounded(bus) && CanStep(bus, s)
    ensures var bus' := Relayed(outbox, bus, s); var w, w' := bus.workers[s.r], bus'.workers[s.r];
            multiset(bus'.log)[id] + Token(w, id) + bus.faults[id]
              <= multiset(bus.log)[id] + Token(w', id) + bus'.faults[id]
  {
    assert WorkerClean(bus, bus.workers[s.r]);
  }

  lemma StepKeepsCopies(outbox: map<nat, Event>, bus: Bus, s: Step)
    requires CopiesBounded(bus)
    ensures CopiesBounded(Relayed(outbox, bus, s))
  {
    if CanStep(bus, s) {
      var bus' := Relayed(outbox, bus, s);
      StepKeepsClean(outbox, bus, s);
      forall r | 0 <= r < |bus'.workers| ensures WorkerClean(bus', bus'.workers[r]) {
        if r != s.r {
          assert WorkerClean(bus, bus.workers[r]);
        }
      }
      forall id ensures multiset(bus'.log)[id] <= bus'.faults[id] + Tokens(bus'.workers, id) {
        StepPays(outbox, bus, s, id);
        TokensUpdate(bus.workers, s.r, bus'.workers[s.r], id);
        assert bus'.workers == bus.workers[s.r := bus'.workers[s.r]];
      }
    }
  }

  lemma {:induction false} FreshTokens(n: nat, id: nat)
    ensures Tokens(Start(n).bus.workers, id) == 0
  {
    if n > 0 {
      FreshTokens(n - 1, id);
      assert Start(n).bus.workers[..n - 1] == Start(n - 1).bus.workers;
    }
  }

  lemma {:induction false} RunBounded(relays: nat, schedule: seq<Action>)
    ensures |Run(relays, schedule).bus.workers| == relays
    ensures CopiesBounded(Run(relays, schedule).bus)
  {
    if schedule == [] {
      forall id ensures multiset(Start(relays).bus.log)[id] <= Tokens(Start(relays).bus.workers, id) {
        FreshTokens(relays, id);
      }
    } else {
      RunBounded(relays, schedule[..|schedule| - 1]);
      var s, a := Run(relays, schedule[..|schedule| - 1]), schedule[|schedule| - 1];
      if a.Relays? {
        StepKeepsCopies(s.db.outbox, s.bus, a.step);
      }
    }
  }

  /** With R relays a row has at most R copies plus one per lost mark, per crash between its
      publish and its mark, and per publish that appended but reported an error. With one
      relay that is one copy plus the faults; without faults it is at most R copies. */
  lemma CopiesAtMostRelaysPlusFaults(relays: nat, schedule: seq<Action>, id: nat)
    ensures multiset(Run(relays, schedule).bus.log)[id] <= relays + Run(relays, schedule).bus.faults[id]
  {
    RunBounded(relays, schedule);
    TokensBound(Run(relays, schedule).bus.workers, id);
  }

  predicate Faulty(s: Step) {
    s.MarkLost? || s.PublishUnknown? || s.Crash?
  }

  function FaultySteps(schedule: seq<Action>): nat {
    if schedule == [] then 0
    else
      var a := schedule[|schedule| - 1];
      FaultySteps(schedule[..|schedule| - 1]) + if a.Relays? && Faulty(a.step) then 1 else 0
  }

  /** Each fault is a faulty step of the schedule. */
  lemma {:induction false} FaultsAtMostFaultySteps(relays: nat, schedule: seq<Action>)
    ensures |Run(relays, schedule).bus.faults| <= FaultySteps(schedule)
  {
    if schedule != [] {
      FaultsAtMostFaultySteps(relays, schedule[..|schedule| - 1]);
    }
  }

  lemma RepeatCounts(log: seq<nat>, p: nat, q: nat)
    requires p < q < |log|
    ensures log[p] == log[q] ==> multiset(log)[log[p]] >= 2
  {
    assert log == log[..q] + log[q..];
    assert log[p] in log[..q] && log[q] in log[q..];
  }

  /** One relay, no faulty step: the log never repeats a row. */
  lemma ExactlyOnceWithoutFaults(schedule: seq<Action>, p: nat, q: nat)
    requires FaultySteps(schedule) == 0
    requires p < q < |Run(1, schedule).bus.log|
    ensures Run(1, schedule).bus.log[p] != Run(1, schedule).bus.log[q]
  {
    var log := Run(1, schedule).bus.log;
    FaultsAtMostFaultySteps(1, schedule);
    CopiesAtMostRelaysPlusFaults(1, schedule, log[p]);
    RepeatCounts(log, p, q);
  }
}
