/** Concrete schedules that show where the ordering guarantees end. */
module RelayCounterexamples {
  import opened Domain
  import opened MessageText
  import opened Writer
  import opened MessageWriter
  import opened Selection
  import opened Relay
  import opened RelayTick

  lemma {:induction false} ExecConcat(a: seq<Label>, b: seq<Label>)
    ensures Exec(a + b) == RunAll(Exec(a), b)
    decreases |b|
  {
    if b == [] {
      assert a + b == a;
    } else {
      assert a + b == (a + [b[0]]) + b[1..];
      assert (a + [b[0]])[..|a|] == a;
      ExecConcat(a + [b[0]], b[1..]);
    }
  }

  const ALICE: Id := 1
  const CHAT: Id := 7

  const SETUP: seq<Label> := [AddChat(CHAT), Join(CHAT, ALICE)]

  /** Alice posts message `id`, undisturbed. */
  function Post(id: Id): seq<Label> {
    [Check(0, Create(ALICE, CHAT, "hi", None)), Insert(0, id, 0)] + ([Lock(0, 0), Number(0)] + Ending(false))
  }

  function Posted(id: Id): WireMessage {
    WireMessage(id, CHAT, ALICE, Text, Some("hi"), None, 0, 0)
  }

  function Draft(id: Id): Txn {
    Txn(Create(ALICE, CHAT, "hi", None), Inserted(Message(id, CHAT, ALICE, Text, Some("hi"), None, 0, 0, None)))
  }

  lemma ShortTexts()
    ensures Acceptable("hi") && Acceptable("x") && Acceptable("y")
  {
    assert "hi"[1..] == "i" && "i"[1..] == "" && "x"[1..] == "" && "y"[1..] == "";
  }

  lemma PostOpens(db: Db, id: Id)
    requires db.txs == map[] && CHAT in db.chats && (CHAT, ALICE) in db.members && id !in db.messages
    ensures Next(Next(db, Check(0, Create(ALICE, CHAT, "hi", None))), Insert(0, id, 0))
            == db.(txs := map[0 := Draft(id)])
  {
    var op := Create(ALICE, CHAT, "hi", None);
    ShortTexts();
    assert Next(db, Check(0, op)) == db.(txs := map[0 := Txn(op, Checked)]);
  }

  lemma PostCloses(db: Db, id: Id, db2: Db)
    requires CHAT in db.chats && db.txs == map[] && db2 == db.(txs := map[0 := Draft(id)])
    ensures RunAll(db2, [Lock(0, 0), Number(0)] + Ending(false))
            == Apply(db, Created(Posted(id)), 0).(
                 nextId := db.nextId + 1, outbox := db.outbox[db.nextId := Created(Posted(id))],
                 commits := db.commits + [db.nextId])
  {
    LoneTransaction(db2, 0, false);
    assert LockedWrite(db2, db2.txs[0], 0) == Some(Created(Posted(id)));
    ApplyFrame(db, db2, Created(Posted(id)), 0);
  }

  lemma PostEffect(db: Db, id: Id)
    requires db.txs == map[] && CHAT in db.chats && (CHAT, ALICE) in db.members && id !in db.messages
    ensures RunAll(db, Post(id))
            == Apply(db, Created(Posted(id)), 0).(
                 nextId := db.nextId + 1, outbox := db.outbox[db.nextId := Created(Posted(id))],
                 commits := db.commits + [db.nextId])
  {
    var op := Create(ALICE, CHAT, "hi", None);
    var tail := [Lock(0, 0), Number(0)] + Ending(false);
    assert Post(id) == [Check(0, op)] + ([Insert(0, id, 0)] + tail);
    RunAllStep(db, Check(0, op), [Insert(0, id, 0)] + tail);
    RunAllStep(Next(db, Check(0, op)), Insert(0, id, 0), tail);
    PostOpens(db, id);
    PostCloses(db, id, db.(txs := map[0 := Draft(id)]));
  }

  lemma SetupEffect()
    ensures Exec(SETUP) == EMPTY_DB.(chats := map[CHAT := None], members := map[(CHAT, ALICE) := None])
  {
    assert SETUP[..1] == [AddChat(CHAT)];
    assert Exec([AddChat(CHAT)]) == Next(Exec([]), AddChat(CHAT)) by {
      assert [AddChat(CHAT)][..0] == [];
    }
  }

  lemma OnePost()
    ensures var db := Exec(SETUP + Post(10));
            && db.outbox == map[0 := Created(Posted(10))] && db.commits == [0]
            && db.txs == map[] && db.messages == map[10 := LiveMessage(Posted(10))]
            && CHAT in db.chats && (CHAT, ALICE) in db.members && db.nextId == 1
  {
    SetupEffect();
    ExecConcat(SETUP, Post(10));
    PostEffect(Exec(SETUP), 10);
  }

  /** Two posts in one chat: rows 0 and 1 conflict and commit in that order. */
  lemma TwoPosts()
    ensures var db := Exec(SETUP + Post(10) + Post(11));
            && db.outbox == map[0 := Created(Posted(10)), 1 := Created(Posted(11))]
            && db.commits == [0, 1] && Conflict(db.outbox[0], db.outbox[1])
            && db.txs == map[] && db.messages == map[10 := LiveMessage(Posted(10)), 11 := LiveMessage(Posted(11))]
            && CHAT in db.chats && (CHAT, ALICE) in db.members && db.nextId == 2
  {
    OnePost();
    ExecConcat(SETUP + Post(10), Post(11));
    PostEffect(Exec(SETUP + Post(10)), 11);
    assert ChatRow(CHAT) in Locks(Created(Posted(10))) && ChatRow(CHAT) in Locks(Created(Posted(11)));
  }

  lemma LowestOf(n: nat, pending: set<nat>)
    requires n <= BATCH && forall k: nat :: k in pending <==> k < n
    ensures Lowest(pending, BATCH) == seq(n, i => i)
  {
    LowestSpec(pending, BATCH);
    var r := Lowest(pending, BATCH);
    RangeSize(n, pending);
    AscendingRange(n, r);
  }

  lemma {:induction false} RangeSize(n: nat, s: set<nat>)
    requires forall k: nat :: k in s <==> k < n
    ensures |s| == n
  {
    if n == 0 {
      assert s == {};
    } else {
      RangeSize(n - 1, s - {n - 1});
    }
  }

  lemma {:induction false} AscendingFloor(r: seq<nat>, i: nat)
    requires Sorted(IdLess, r) && i < |r|
    ensures i <= r[i]
  {
    if i > 0 {
      AscendingFloor(r, i - 1);
      assert IdLess(r[i - 1], r[i]);
    }
  }

  lemma {:induction false} AscendingRange(n: nat, r: seq<nat>)
    requires |r| == n && Sorted(IdLess, r) && forall k :: k in r ==> k < n
    ensures r == seq(n, i => i)
  {
    if n > 0 {
      var m := n - 1;
      AscendingFloor(r, m);
      assert r[m] in r;
      forall k | k in r[..m] ensures k < m {
        var i :| 0 <= i < m && r[i] == k;
        assert IdLess(r[i], r[m]);
      }
      AscendingRange(m, r[..m]);
      assert r == r[..m] + [r[m]];
    }
  }

  /** A publish that fails without appending lets a later conflicting row overtake: the second
      of two posts in one chat is in the log although the first has no copy there. */
  lemma LostPublishOvertakes() returns (schedule: seq<Action>)
    ensures var s := Run(1, schedule);
            && s.db.commits == [0, 1] && 0 in s.db.outbox && 1 in s.db.outbox
            && Conflict(s.db.outbox[0], s.db.outbox[1])
            && s.bus.log == [1]
    ensures !NoPublishLost(schedule)
  {
    var ls := SETUP + Post(10) + Post(11);
    var a := Lift(ls);
    TwoPosts();
    LiftRuns(1, ls);
    var s0 := Run(1, a);
    LowestOf(2, s0.db.outbox.Keys - s0.bus.published);
    RunSnoc(1, a, Relays(Fetch(0)));
    RunSnoc(1, a + [Relays(Fetch(0))], Relays(PublishFails(0)));
    RunSnoc(1, a + [Relays(Fetch(0))] + [Relays(PublishFails(0))], Relays(Publish(0)));
    schedule := a + [Relays(Fetch(0))] + [Relays(PublishFails(0))] + [Relays(Publish(0))];
    assert schedule[|a| + 1] == Relays(PublishFails(0));
    var s1 := Act(s0, Relays(Fetch(0)));
    assert s1.bus.workers[0].batch == [0, 1];
    var s2 := Act(s1, Relays(PublishFails(0)));
    assert s2.bus.workers[0].batch == [1];
  }

  const EDITS: seq<Label> := [
    Check(0, Update(ALICE, CHAT, 10, "x")), Check(1, Update(ALICE, CHAT, 11, "y")),
    Lock(0, 0), Lock(1, 0), Number(0), Number(1), Commit(1), Commit(0)]

  function Edited(id: Id, text: string): Event {
    Updated(Posted(id).(text := Some(text)))
  }

  predicate Posts(db: Db) {
    && db.txs == map[] && db.nextId == 2 && (CHAT, ALICE) in db.members
    && db.messages == map[10 := LiveMessage(Posted(10)), 11 := LiveMessage(Posted(11))]
  }

  function Pair(a: Txn, b: Txn): map<nat, Txn> { map[0 := a, 1 := b] }

  /** Both edits pass their checks. */
  lemma EditsOpen(db: Db)
    requires Posts(db)
    ensures Next(Next(db, EDITS[0]), EDITS[1])
            == db.(txs := Pair(Txn(Update(ALICE, CHAT, 10, "x"), Checked), Txn(Update(ALICE, CHAT, 11, "y"), Checked)))
  {
    ShortTexts();
    var db1 := Next(db, EDITS[0]);
    assert db1 == db.(txs := map[0 := Txn(Update(ALICE, CHAT, 10, "x"), Checked)]);
  }

  /** Both take their row locks. */
  lemma EditsLock(db: Db, db2: Db)
    requires Posts(db)
    requires db2 == db.(txs := Pair(Txn(Update(ALICE, CHAT, 10, "x"), Checked),
                                    Txn(Update(ALICE, CHAT, 11, "y"), Checked)))
    ensures Next(Next(db2, EDITS[2]), EDITS[3])
            == db.(txs := Pair(Txn(Update(ALICE, CHAT, 10, "x"), Written(Edited(10, "x"), 0)),
                               Txn(Update(ALICE, CHAT, 11, "y"), Written(Edited(11, "y"), 0))))
  {
    var opX, opY := Update(ALICE, CHAT, 10, "x"), Update(ALICE, CHAT, 11, "y");
    FirstLocks(db, db2);
    SecondLocks(db, db.(txs := Pair(Txn(opX, Written(Edited(10, "x"), 0)), Txn(opY, Checked))));
  }

  lemma FirstLocks(db: Db, db2: Db)
    requires Posts(db)
    requires db2 == db.(txs := Pair(Txn(Update(ALICE, CHAT, 10, "x"), Checked),
                                    Txn(Update(ALICE, CHAT, 11, "y"), Checked)))
    ensures Next(db2, EDITS[2])
            == db.(txs := Pair(Txn(Update(ALICE, CHAT, 10, "x"), Written(Edited(10, "x"), 0)),
                               Txn(Update(ALICE, CHAT, 11, "y"), Checked)))
  {
    assert LockedWrite(db2, db2.txs[0], 0) == Some(Edited(10, "x"));
  }

  lemma SecondLocks(db: Db, db3: Db)
    requires Posts(db)
    requires db3 == db.(txs := Pair(Txn(Update(ALICE, CHAT, 10, "x"), Written(Edited(10, "x"), 0)),
                                    Txn(Update(ALICE, CHAT, 11, "y"), Checked)))
    ensures Next(db3, EDITS[3])
            == db.(txs := Pair(Txn(Update(ALICE, CHAT, 10, "x"), Written(Edited(10, "x"), 0)),
                               Txn(Update(ALICE, CHAT, 11, "y"), Written(Edited(11, "y"), 0))))
  {
    assert LockedWrite(db3, db3.txs[1], 0) == Some(Edited(11, "y"));
    assert MessageRow(11) !in Locks(Edited(10, "x"));
  }

  lemma EditsNumber(db: Db, x: Event, y: Event, opX: Op, opY: Op)
    requires db.nextId == 2 && db.txs == Pair(Txn(opX, Written(x, 0)), Txn(opY, Written(y, 0)))
    ensures Next(Next(db, Number(0)), Number(1))
            == db.(txs := Pair(Txn(opX, Numbered(x, 0, 2)), Txn(opY, Numbered(y, 0, 3))), nextId := 4)
  {
    FirstNumbers(db, x, Txn(opX, Written(x, 0)), Txn(opY, Written(y, 0)));
    var db1 := db.(txs := Pair(Txn(opX, Numbered(x, 0, 2)), Txn(opY, Written(y, 0))), nextId := 3);
    SecondNumbers(db1, y, Txn(opX, Numbered(x, 0, 2)), Txn(opY, Written(y, 0)));
  }

  lemma FirstNumbers(db: Db, e: Event, first: Txn, second: Txn)
    requires db.txs == Pair(first, second) && first.stage == Written(e, 0)
    ensures Next(db, Number(0))
            == db.(txs := Pair(Txn(first.op, Numbered(e, 0, db.nextId)), second), nextId := db.nextId + 1)
  {
    assert Enabled(db, Number(0));
    assert db.txs[0 := Txn(first.op, Numbered(e, 0, db.nextId))]
           == Pair(Txn(first.op, Numbered(e, 0, db.nextId)), second);
  }

  lemma SecondNumbers(db: Db, e: Event, first: Txn, second: Txn)
    requires db.txs == Pair(first, second) && second.stage == Written(e, 0)
    ensures Next(db, Number(1))
            == db.(txs := Pair(first, Txn(second.op, Numbered(e, 0, db.nextId))), nextId := db.nextId + 1)
  {
    assert Enabled(db, Number(1));
    assert db.txs[1 := Txn(second.op, Numbered(e, 0, db.nextId))]
           == Pair(first, Txn(second.op, Numbered(e, 0, db.nextId)));
  }

  lemma EditsCommit(db: Db, x: Event, y: Event, opX: Op, opY: Op)
    requires db.txs == Pair(Txn(opX, Numbered(x, 0, 2)), Txn(opY, Numbered(y, 0, 3)))
    ensures var db' := Next(Next(db, Commit(1)), Commit(0));
            db'.outbox == db.outbox[3 := y][2 := x] && db'.commits == db.commits + [3] + [2]
  {
    var db1 := CommitTxn(db, 1);
    assert Next(db, Commit(1)) == db1;
    assert db1.txs == map[0 := Txn(opX, Numbered(x, 0, 2))];
    assert Next(db1, Commit(0)) == CommitTxn(db1, 0);
  }

  lemma EditsEffect(db: Db)
    requires Posts(db)
    ensures var db' := RunAll(db, EDITS);
            && db'.outbox == db.outbox[3 := Edited(11, "y")][2 := Edited(10, "x")]
            && db'.commits == db.commits + [3] + [2]
  {
    Unroll8(db);
    EditsOpen(db);
    var opX, opY := Update(ALICE, CHAT, 10, "x"), Update(ALICE, CHAT, 11, "y");
    var x, y := Edited(10, "x"), Edited(11, "y");
    var db2 := db.(txs := Pair(Txn(opX, Checked), Txn(opY, Checked)));
    EditsLock(db, db2);
    var db4 := db.(txs := Pair(Txn(opX, Written(x, 0)), Txn(opY, Written(y, 0))));
    EditsNumber(db4, x, y, opX, opY);
    EditsCommit(Next(Next(db4, Number(0)), Number(1)), x, y, opX, opY);
  }

  lemma Unroll8(db: Db)
    ensures RunAll(db, EDITS)
            == Next(Next(Next(Next(
                 Next(Next(Next(Next(db, EDITS[0]), EDITS[1]), EDITS[2]), EDITS[3]),
                 EDITS[4]), EDITS[5]), EDITS[6]), EDITS[7])
  {
    var front, back := EDITS[..4], EDITS[4..];
    assert EDITS == front + back;
    RunAllConcat(db, front, back);
    Unfold4(db, EDITS[0], EDITS[1], EDITS[2], EDITS[3]);
    assert front == [EDITS[0], EDITS[1]] + [EDITS[2], EDITS[3]];
    Unfold4(RunAll(db, front), EDITS[4], EDITS[5], EDITS[6], EDITS[7]);
    assert back == [EDITS[4], EDITS[5]] + [EDITS[6], EDITS[7]];
  }

  lemma {:induction false} RunAllConcat(db: Db, a: seq<Label>, b: seq<Label>)
    ensures RunAll(db, a + b) == RunAll(RunAll(db, a), b)
    decreases |a|
  {
    if a == [] {
      assert a + b == b;
    } else {
      assert (a + b)[1..] == a[1..] + b;
      RunAllConcat(Next(db, a[0]), a[1..], b);
    }
  }

  function Contended(): seq<Label> { SETUP + Post(10) + Post(11) + EDITS }

  lemma ContendedState()
    ensures var db := Exec(Contended());
            && db.commits == [0, 1, 3, 2] && db.outbox.Keys == {0, 1, 2, 3}
            && db.outbox[2] == Edited(10, "x") && db.outbox[3] == Edited(11, "y")
  {
    var posts := SETUP + Post(10) + Post(11);
    TwoPosts();
    ExecConcat(posts, EDITS);
    EditsEffect(Exec(posts));
  }

  /** A clean tick of the only relay appends the n pending rows in id order. */
  lemma CleanTickRun(before: seq<Action>, n: nat) returns (steps: seq<Step>)
    requires var s := Run(1, before);
             n <= BATCH && s.bus == Start(1).bus && forall k: nat :: k in s.db.outbox.Keys <==> k < n
    ensures var s := Run(1, before + LiftSteps(steps));
            s.db == Run(1, before).db && s.bus.log == seq(n, i => i)
    ensures forall step :: step in steps ==> !step.PublishFails?
  {
    var s := Run(1, before);
    var publish: nat -> RelayTick.Outcome, mark: nat -> bool := (id: nat) => Appended, (id: nat) => true;
    var pending := s.db.outbox.Keys - s.bus.published;
    LowestOf(n, pending);
    var batch := Lowest(pending, BATCH);
    steps := [Fetch(0)] + TickSteps(0, batch, publish, mark);
    TickIsASchedule(s.db.outbox, s.bus, 0, publish, mark);
    CleanTickEffect(batch, publish, mark);
    StepsRun(1, before, steps);
    CleanSteps(0, batch, publish, mark);
  }

  /** Without any lost publish, events of one chat that do not conflict may still be logged
      against their commit order: keying the topic by chat orders edits of different messages
      by row id, not by commit. */
  lemma SameChatEditsMayReorder() returns (schedule: seq<Action>)
    ensures NoPublishLost(schedule)
    ensures var s := Run(1, schedule);
            && s.db.commits == [0, 1, 3, 2] && s.bus.log == [0, 1, 2, 3] && s.db.outbox.Keys == {0, 1, 2, 3}
            && PartitionKey(s.db.outbox[2]) == PartitionKey(s.db.outbox[3]) && !Conflict(s.db.outbox[2], s.db.outbox[3])
  {
    ContendedState();
    LiftRuns(1, Contended());
    var before := Lift(Contended());
    var steps := CleanTickRun(before, 4);
    schedule := before + LiftSteps(steps);
    assert seq(4, i => i) == [0, 1, 2, 3];
  }
}
