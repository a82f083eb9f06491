/** One relay tick as the loop it is, what it does to the table and the log, and what that
    means for delivery. */
module RelayTick {
  import opened Domain
  import opened Writer
  import opened Selection
  import opened Sequences
  import opened Relay

  method LeastId(s: set<nat>) returns (x: nat)
    requires s != {}
    ensures x in s && forall y :: y in s ==> x <= y
  {
    IdOrder();
    LeastExists(IdLess, s);
    x :| x in s && forall y :: y in s && y != x ==> IdLess(x, y);
    assert forall y :: y in s && y != x ==> IdLess(x, y);
  }

  /** Reading least ids until `n` rows are out or none is left is the query's result. */
  lemma ReadOffIsLowest(pending: set<nat>, rest: set<nat>, n: nat, out: seq<nat>)
    requires forall x :: x in pending <==> x in out || x in rest
    requires forall x, y :: x in out && y in rest ==> x < y
    requires forall i, j :: 0 <= i < j < |out| ==> out[i] < out[j]
    requires |pending| == |out| + |rest| && |out| <= n && (|out| == n || rest == {})
    ensures out == Lowest(pending, n)
  {
    IdOrder();
    assert IsFirst(IdLess, pending, n, out);
    FirstUnique(IdLess, pending, n, out);
  }

  /** The `outbox_events` table. */
  class OutboxTable {
    var rows: map<nat, Event>
    var published: set<nat>

    constructor ()
      ensures rows == map[] && published == {}
    {
      rows, published := map[], {};
    }

    /** At most `limit` pending rows, lowest ids first; the limit is clamped to 1..500, default 50. */
    method FetchPending(limit: int) returns (out: seq<nat>)
      ensures out == Lowest(rows.Keys - published, if limit <= 0 then 50 else if limit > 500 then 500 else limit)
    {
      var n := limit;
      if n <= 0 {
        n := 50;
      }
      if n > 500 {
        n := 500;
      }
      out := [];
      var rest := rows.Keys - published;
      while |out| < n && rest != {}
        invariant |out| <= n && |rows.Keys - published| == |out| + |rest|
        invariant forall x :: x in rows.Keys - published <==> x in out || x in rest
        invariant forall x, y :: x in out && y in rest ==> x < y
        invariant forall i, j :: 0 <= i < j < |out| ==> out[i] < out[j]
        decreases |rest|
      {
        var x := LeastId(rest);
        forall i | 0 <= i < |out| ensures out[i] < x {
          assert out[i] in out && x in rest;
        }
        out := out + [x];
        rest := rest - {x};
      }
      ReadOffIsLowest(rows.Keys - published, rest, n, out);
    }

    /** Fails when the row is missing or already marked; a mark is never taken back. */
    method MarkPublished(id: nat) returns (ok: bool)
      modifies this`published
      ensures ok <==> id in rows && id !in old(published)
      ensures published == if ok then old(published) + {id} else old(published)
    {
      ok := id in rows && id !in published;
      if ok {
        published := published + {id};
      }
    }
  }

  /** What the broker does with one publish: it appends and answers, it answers with an error
      and has not appended, or it answers with an error although it has. */
  datatype Outcome = Appended | Failed | Unknown

  lemma FetchedArePending(pending: set<nat>)
    ensures forall id :: id in Lowest(pending, BATCH) ==> id in pending
  {
    LowestSpec(pending, BATCH);
  }

  /** The rows of `batch` that reach the log, in order. */
  function Appends(batch: seq<nat>, publish: nat -> Outcome): seq<nat> {
    if batch == [] then []
    else if publish(batch[0]).Failed? then Appends(batch[1..], publish)
    else [batch[0]] + Appends(batch[1..], publish)
  }

  predicate Marked(id: nat, publish: nat -> Outcome, mark: nat -> bool) {
    publish(id).Appended? && mark(id)
  }

  /** The rows of `batch` whose mark reaches the table. */
  function Marks(batch: seq<nat>, publish: nat -> Outcome, mark: nat -> bool): (r: set<nat>)
    ensures forall id :: id in r <==> id in batch && Marked(id, publish, mark)
  {
    set id | id in batch && Marked(id, publish, mark)
  }

  lemma {:induction false} AppendsSnoc(batch: seq<nat>, x: nat, publish: nat -> Outcome)
    ensures Appends(batch + [x], publish) == Appends(batch, publish) + if publish(x).Failed? then [] else [x]
  {
    if batch == [] {
      assert Appends([x], publish) == if publish(x).Failed? then [] else [x];
    } else {
      assert (batch + [x])[1..] == batch[1..] + [x];
      AppendsSnoc(batch[1..], x, publish);
    }
  }

  lemma MarksSnoc(batch: seq<nat>, x: nat, publish: nat -> Outcome, mark: nat -> bool)
    ensures Marks(batch + [x], publish, mark)
            == Marks(batch, publish, mark) + if Marked(x, publish, mark) then {x} else {}
  {
  }

  class OutboxRelay {
    const outbox: OutboxTable
    var log: seq<nat>

    constructor (outbox: OutboxTable)
      ensures this.outbox == outbox && log == []
    {
      this.outbox := outbox;
      log := [];
    }

    method Publish(id: nat, outcome: Outcome) returns (ok: bool)
      modifies this`log
      ensures ok == outcome.Appended?
      ensures log == old(log) + if outcome.Failed? then [] else [id]
    {
      if !outcome.Failed? {
        log := log + [id];
      }
      ok := outcome.Appended?;
    }

    /** One poll. A row whose publish reports an error is skipped and stays pending; the loop
        goes on to the next row either way. */
    method Tick(fetched: bool, publish: nat -> Outcome, mark: nat -> bool)
      modifies this`log, outbox`published
      ensures var batch := if fetched then Lowest(outbox.rows.Keys - old(outbox.published), 100) else [];
              && log == old(log) + Appends(batch, publish)
              && outbox.published == old(outbox.published) + Marks(batch, publish, mark)
    {
      if !fetched {
        return;
      }
      var batch := outbox.FetchPending(100);
      FetchedArePending(outbox.rows.Keys - outbox.published);
      PublishRows(batch, publish, mark);
    }

    /** The row loop of a tick. */
    method PublishRows(batch: seq<nat>, publish: nat -> Outcome, mark: nat -> bool)
      requires forall id :: id in batch ==> id in outbox.rows
      modifies this`log, outbox`published
      ensures log == old(log) + Appends(batch, publish)
      ensures outbox.published == old(outbox.published) + Marks(batch, publish, mark)
    {
      var i := 0;
      while i < |batch|
        invariant 0 <= i <= |batch|
        invariant log == old(log) + Appends(batch[..i], publish)
        invariant outbox.published == old(outbox.published) + Marks(batch[..i], publish, mark)
      {
        var id := batch[i];
        assert batch[..i + 1] == batch[..i] + [id];
        AppendsSnoc(batch[..i], id, publish);
        MarksSnoc(batch[..i], id, publish, mark);
        i := i + 1;
        var ok := Publish(id, publish(id));
        if !ok {
          continue;
        }
        if mark(id) {
          var marked := outbox.MarkPublished(id);
        }
      }
      assert batch[..i] == batch;
    }
  }

  // ---- A tick is a schedule of relay steps ----

  function RowSteps(r: nat, id: nat, publish: nat -> Outcome, mark: nat -> bool): seq<Step> {
    match publish(id)
    case Failed => [PublishFails(r)]
    case Unknown => [PublishUnknown(r)]
    case Appended => [Publish(r), if mark(id) then Mark(r) else MarkLost(r)]
  }

  function TickSteps(r: nat, batch: seq<nat>, publish: nat -> Outcome, mark: nat -> bool): seq<Step> {
    if batch == [] then [] else RowSteps(r, batch[0], publish, mark) + TickSteps(r, batch[1..], publish, mark)
  }

  ghost function Steps(rows: map<nat, Event>, bus: Bus, steps: seq<Step>): Bus
    decreases |steps|
  {
    if steps == [] then bus else Steps(rows, Relayed(rows, bus, steps[0]), steps[1..])
  }

  lemma {:induction false} StepsConcat(rows: map<nat, Event>, bus: Bus, a: seq<Step>, b: seq<Step>)
    ensures Steps(rows, bus, a + b) == Steps(rows, Steps(rows, bus, a), b)
    decreases |a|
  {
    if a == [] {
      assert a + b == b;
    } else {
      assert (a + b)[0] == a[0] && (a + b)[1..] == a[1..] + b;
      StepsConcat(rows, Relayed(rows, bus, a[0]), a[1..], b);
    }
  }

  /** `bus'` is `bus` after its worker `r` has finished `rows`, leaving `rest` of its batch. */
  ghost predicate Settled(bus: Bus, r: nat, rows: seq<nat>, rest: seq<nat>, publish: nat -> Outcome,
      mark: nat -> bool, bus': Bus)
  {
    && r < |bus.workers| == |bus'.workers|
    && bus'.workers[r].batch == rest && !bus'.workers[r].marking
    && bus'.log == bus.log + Appends(rows, publish)
    && bus'.published == bus.published + Marks(rows, publish, mark)
  }

  lemma RowEffect(rows: map<nat, Event>, bus: Bus, r: nat, publish: nat -> Outcome, mark: nat -> bool)
    requires Busy(bus, r, false)
    ensures var batch := bus.workers[r].batch;
            Settled(bus, r, [batch[0]], batch[1..], publish, mark,
                    Steps(rows, bus, RowSteps(r, batch[0], publish, mark)))
  {
    var id := bus.workers[r].batch[0];
    var steps := RowSteps(r, id, publish, mark);
    var b1 := Relayed(rows, bus, steps[0]);
    assert Steps(rows, bus, steps) == Steps(rows, b1, steps[1..]);
    assert Appends([id], publish) == if publish(id).Failed? then [] else [id];
    if publish(id).Appended? {
      assert Busy(b1, r, true);
      assert steps[1..] == [steps[1]];
      assert Steps(rows, b1, [steps[1]]) == Relayed(rows, b1, steps[1]);
    }
  }

  lemma SettledThen(bus: Bus, r: nat, batch: seq<nat>, publish: nat -> Outcome, mark: nat -> bool, mid: Bus, bus': Bus)
    requires batch != [] && Settled(bus, r, [batch[0]], batch[1..], publish, mark, mid)
    requires Settled(mid, r, batch[1..], [], publish, mark, bus')
    ensures Settled(bus, r, batch, [], publish, mark, bus')
  {
    AppendsHead(batch, publish, mark);
    Reassociate(bus.log, Appends([batch[0]], publish), Appends(batch[1..], publish));
    MarksJoin(bus.published, Marks([batch[0]], publish, mark), Marks(batch[1..], publish, mark));
  }

  lemma MarksJoin(published: set<nat>, a: set<nat>, b: set<nat>)
    ensures published + (a + b) == published + a + b
  {
  }

  lemma AppendsHead(batch: seq<nat>, publish: nat -> Outcome, mark: nat -> bool)
    requires batch != []
    ensures Appends(batch, publish) == Appends([batch[0]], publish) + Appends(batch[1..], publish)
    ensures Marks(batch, publish, mark) == Marks([batch[0]], publish, mark) + Marks(batch[1..], publish, mark)
  {
    assert batch == [batch[0]] + batch[1..];
    assert Appends([batch[0]], publish) == if publish(batch[0]).Failed? then [] else [batch[0]];
  }

  lemma {:induction false} BatchEffect(rows: map<nat, Event>, bus: Bus, r: nat, publish: nat -> Outcome,
      mark: nat -> bool)
    requires r < |bus.workers| && !bus.workers[r].marking
    ensures var batch := bus.workers[r].batch;
            Settled(bus, r, batch, [], publish, mark, Steps(rows, bus, TickSteps(r, batch, publish, mark)))
    decreases |bus.workers[r].batch|
  {
    var batch := bus.workers[r].batch;
    if batch != [] {
      var head, tail := RowSteps(r, batch[0], publish, mark), TickSteps(r, batch[1..], publish, mark);
      var mid := Steps(rows, bus, head);
      StepsConcat(rows, bus, head, tail);
      RowEffect(rows, bus, r, publish, mark);
      BatchEffect(rows, mid, r, publish, mark);
      SettledThen(bus, r, batch, publish, mark, mid, Steps(rows, mid, tail));
    }
  }

  /** A tick left to itself is a schedule of the relay's steps, so whatever schedules keep holds for it. */
  lemma TickIsASchedule(rows: map<nat, Event>, bus: Bus, r: nat, publish: nat -> Outcome, mark: nat -> bool)
    requires r < |bus.workers| && bus.workers[r].batch == []
    ensures var batch := Lowest(rows.Keys - bus.published, BATCH);
            Settled(bus, r, batch, [], publish, mark,
                     Steps(rows, bus, [Fetch(r)] + TickSteps(r, batch, publish, mark)))
  {
    var batch := Lowest(rows.Keys - bus.published, BATCH);
    StepsConcat(rows, bus, [Fetch(r)], TickSteps(r, batch, publish, mark));
    var b1 := Relayed(rows, bus, Fetch(r));
    assert Steps(rows, bus, [Fetch(r)]) == b1;
    BatchEffect(rows, b1, r, publish, mark);
  }

  lemma RunSnoc(relays: nat, schedule: seq<Action>, a: Action)
    ensures Run(relays, schedule + [a]) == Act(Run(relays, schedule), a)
  {
    assert (schedule + [a])[..|schedule|] == schedule;
  }

  function Lift(ls: seq<Label>): seq<Action> {
    seq(|ls|, i requires 0 <= i < |ls| => Writes(ls[i]))
  }

  lemma {:induction false} LiftRuns(relays: nat, ls: seq<Label>)
    ensures Run(relays, Lift(ls)) == Outbox(Exec(ls), Start(relays).bus)
  {
    if ls != [] {
      LiftRuns(relays, ls[..|ls| - 1]);
      assert Lift(ls)[..|ls| - 1] == Lift(ls[..|ls| - 1]);
    }
  }

  function LiftSteps(steps: seq<Step>): seq<Action> {
    seq(|steps|, i requires 0 <= i < |steps| => Relays(steps[i]))
  }

  lemma {:induction false} StepsRun(relays: nat, before: seq<Action>, steps: seq<Step>)
    ensures Run(relays, before + LiftSteps(steps))
            == Outbox(Run(relays, before).db, Steps(Run(relays, before).db.outbox, Run(relays, before).bus, steps))
    decreases |steps|
  {
    if steps == [] {
      assert before + LiftSteps(steps) == before;
    } else {
      var first := Relays(steps[0]);
      assert before + LiftSteps(steps) == (before + [first]) + LiftSteps(steps[1..]);
      RunSnoc(relays, before, first);
      StepsRun(relays, before + [first], steps[1..]);
    }
  }

  lemma {:induction false} CleanSteps(r: nat, batch: seq<nat>, publish: nat -> Outcome, mark: nat -> bool)
    requires forall id :: publish(id).Appended?
    ensures forall step :: step in TickSteps(r, batch, publish, mark) ==> !step.PublishFails?
    decreases |batch|
  {
    if batch != [] {
      CleanSteps(r, batch[1..], publish, mark);
    }
  }

  /** The actions of one tick of relay `r`, left to itself. */
  ghost function TickActions(s: Outbox, r: nat, publish: nat -> Outcome, mark: nat -> bool): seq<Action> {
    LiftSteps([Fetch(r)] + TickSteps(r, Lowest(s.db.outbox.Keys - s.bus.published, BATCH), publish, mark))
  }

  ghost predicate Idle(s: Outbox, r: nat) {
    r < |s.bus.workers| && s.bus.workers[r].batch == []
  }

  /** A tick in the middle of a run appends and marks what the loop appends and marks. */
  lemma TickRuns(relays: nat, before: seq<Action>, r: nat, publish: nat -> Outcome, mark: nat -> bool)
    requires Idle(Run(relays, before), r)
    ensures var s := Run(relays, before); var s' := Run(relays, before + TickActions(s, r, publish, mark));
            var batch := Lowest(s.db.outbox.Keys - s.bus.published, BATCH);
            && s'.db == s.db
            && Idle(s', r) && |s'.bus.workers| == |s.bus.workers|
            && s'.bus.log == s.bus.log + Appends(batch, publish)
            && s'.bus.published == s.bus.published + Marks(batch, publish, mark)
  {
    var s := Run(relays, before);
    var batch := Lowest(s.db.outbox.Keys - s.bus.published, BATCH);
    TickIsASchedule(s.db.outbox, s.bus, r, publish, mark);
    StepsRun(relays, before, [Fetch(r)] + TickSteps(r, batch, publish, mark));
  }

  function Members(s: seq<nat>): (r: set<nat>)
    ensures forall x :: x in r <==> x in s
  {
    set x | x in s
  }

  /** Without failures a tick appends its whole batch and marks it. */
  lemma {:induction false} CleanTickEffect(batch: seq<nat>, publish: nat -> Outcome, mark: nat -> bool)
    requires forall id :: publish(id).Appended? && mark(id)
    ensures Appends(batch, publish) == batch
    ensures Marks(batch, publish, mark) == Members(batch)
    decreases |batch|
  {
    if batch != [] {
      CleanTickEffect(batch[1..], publish, mark);
    }
    forall id ensures id in Marks(batch, publish, mark) <==> id in Members(batch) {
      assert Marked(id, publish, mark);
    }
  }

}
