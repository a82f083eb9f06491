/** The outbox as a changelog: reading its rows in id order, which is not the order in which
    they were committed, rebuilds the message tables. */
module Changelog {
  import opened Domain
  import opened Writer
  import opened WriterInvariants

  /** What a reader of the changelog knows of a message; Broken marks an illegal event. */
  datatype Slot = Live(msg: WireMessage) | Gone | Broken

  datatype View = View(slots: map<Id, Slot>, last: map<Id, Id>, cursors: map<(Id, Id), Id>)

  /** The slot an event about message `id` leaves, which depends on that slot only. */
  function NewSlot(slots: map<Id, Slot>, e: Event, id: Id): Slot
    requires !e.ReadReceipt?
  {
    match e
    case Created(w) => if id in slots then Broken else Live(w)
    case Updated(w) => if id in slots && slots[id].Live? then Live(w) else Broken
    case Deleted(_, _, _) => if id in slots && slots[id].Live? then Gone else Broken
  }

  function FoldSlots(slots: map<Id, Slot>, e: Event): map<Id, Slot> {
    match e
    case Created(w) => slots[w.id := NewSlot(slots, e, w.id)]
    case Updated(w) => slots[w.id := NewSlot(slots, e, w.id)]
    case Deleted(id, _, _) => slots[id := NewSlot(slots, e, id)]
    case ReadReceipt(_, _, _) => slots
  }

  function FoldLast(last: map<Id, Id>, e: Event): map<Id, Id> {
    if e.Created? then last[e.msg.chat := e.msg.id] else last
  }

  function FoldCursors(cursors: map<(Id, Id), Id>, e: Event): map<(Id, Id), Id> {
    if e.ReadReceipt? then cursors[(e.chat, e.user) := e.upTo] else cursors
  }

  function Fold(v: View, e: Event): View {
    View(FoldSlots(v.slots, e), FoldLast(v.last, e), FoldCursors(v.cursors, e))
  }

  /** Fold the rows with ids below `n` in id order; ids without a row are gaps. */
  function Replay(outbox: map<nat, Event>, n: nat): View {
    if n == 0 then View(map[], map[], map[])
    else
      var v := Replay(outbox, n - 1);
      if n - 1 in outbox then Fold(v, outbox[n - 1]) else v
  }

  ghost predicate SlotsMatch(messages: map<Id, Message>, slots: map<Id, Slot>) {
    slots == map id | id in messages ::
      if messages[id].deletedAt.None? then Live(EncodeWire(messages[id])) else Gone
  }

  ghost predicate LastMatch(chats: map<Id, Option<Id>>, last: map<Id, Id>) {
    last == map chat | chat in chats && chats[chat].Some? :: chats[chat].value
  }

  ghost predicate CursorsMatch(members: map<(Id, Id), Option<Id>>, cursors: map<(Id, Id), Id>) {
    forall key :: key in members && members[key].Some? ==> key in cursors && cursors[key] == members[key].value
  }

  /** The view agrees with the tables: live messages field by field, deleted ones as gone,
      each chat's last message, each member's read cursor. */
  ghost predicate Matches(db: Db, v: View) {
    && SlotsMatch(db.messages, v.slots)
    && LastMatch(db.chats, v.last)
    && CursorsMatch(db.members, v.cursors)
  }

  lemma {:induction false} ReplayIgnoresLater(outbox: map<nat, Event>, k: nat, e: Event, n: nat)
    requires n <= k
    ensures Replay(outbox[k := e], n) == Replay(outbox, n)
  {
    if n > 0 {
      ReplayIgnoresLater(outbox, k, e, n - 1);
    }
  }

  lemma SlotsCommute(slots: map<Id, Slot>, e: Event, f: Event)
    requires !Conflict(e, f)
    ensures FoldSlots(FoldSlots(slots, e), f) == FoldSlots(FoldSlots(slots, f), e)
  {
    if !e.ReadReceipt? && !f.ReadReceipt? {
      var a := if e.Deleted? then e.id else e.msg.id;
      var b := if f.Deleted? then f.id else f.msg.id;
      assert MessageRow(a) in Locks(e) && MessageRow(b) in Locks(f);
      assert a != b;
      UpdatesCommute(slots, a, NewSlot(slots, e, a), b, NewSlot(slots, f, b));
    }
  }

  lemma UpdatesCommute<V>(m: map<Id, V>, a: Id, x: V, b: Id, y: V)
    requires a != b
    ensures m[a := x][b := y] == m[b := y][a := x]
  {
  }

  lemma FoldCommutes(v: View, e: Event, f: Event)
    requires !Conflict(e, f)
    ensures Fold(Fold(v, e), f) == Fold(Fold(v, f), e)
  {
    SlotsCommute(v.slots, e, f);
    if e.Created? && f.Created? {
      var a, b := e.msg.chat, f.msg.chat;
      assert ChatRow(a) in Locks(e) && ChatRow(b) in Locks(f) && a != b;
      UpdatesCommute(v.last, a, e.msg.id, b, f.msg.id);
    }
    if e.ReadReceipt? && f.ReadReceipt? {
      var a, b := (e.chat, e.user), (f.chat, f.user);
      assert MemberRow(a.0, a.1) in Locks(e) && MemberRow(b.0, b.1) in Locks(f) && a != b;
      assert v.cursors[a := e.upTo][b := f.upTo] == v.cursors[b := f.upTo][a := e.upTo];
    }
  }

  /** A row that slots in below rows it does not conflict with acts as if it came last. */
  lemma {:induction false} ReplayInsert(outbox: map<nat, Event>, k: nat, e: Event, n: nat)
    requires k !in outbox && k < n
    requires forall j :: j in outbox && k < j ==> !Conflict(e, outbox[j])
    ensures Replay(outbox[k := e], n) == Fold(Replay(outbox, n), e)
  {
    if n - 1 == k {
      ReplayIgnoresLater(outbox, k, e, k);
    } else {
      ReplayInsert(outbox, k, e, n - 1);
      if n - 1 in outbox {
        FoldCommutes(Replay(outbox, n - 1), e, outbox[n - 1]);
      }
    }
  }

  lemma ApplySlots(db: Db, slots: map<Id, Slot>, e: Event, now: Time)
    requires RowsOk(db) && EventOk(db, e) && SlotsMatch(db.messages, slots)
    ensures SlotsMatch(Apply(db, e, now).messages, FoldSlots(slots, e))
  {
    if e.Created? || e.Updated? {
      assert EncodeWire(LiveMessage(e.msg)) == e.msg;
    }
  }

  lemma ApplyMatches(db: Db, v: View, e: Event, now: Time)
    requires RowsOk(db) && EventOk(db, e) && Matches(db, v)
    ensures Matches(Apply(db, e, now), Fold(v, e))
  {
    ApplySlots(db, v.slots, e, now);
  }

  /** A commit adds its event at the end of the replay, wherever its id is. */
  lemma ReplayCommit(db: Db, t: nat)
    requires Inv(db) && Enabled(db, Commit(t))
    ensures Replay(CommitTxn(db, t).outbox, CommitTxn(db, t).nextId)
            == Fold(Replay(db.outbox, db.nextId), db.txs[t].stage.event)
  {
    var Numbered(e, now, oid) := db.txs[t].stage;
    forall j | j in db.outbox && oid < j ensures !Conflict(e, db.outbox[j]) {
      ConflictSymmetric(e, db.outbox[j]);
    }
    ReplayInsert(db.outbox, oid, e, db.nextId);
  }

  lemma CommitMatches(db: Db, t: nat)
    requires Inv(db) && Matches(db, Replay(db.outbox, db.nextId)) && Enabled(db, Commit(t))
    ensures Matches(CommitTxn(db, t), Replay(CommitTxn(db, t).outbox, CommitTxn(db, t).nextId))
  {
    assert TxnOk(db, db.txs[t]);
    ReplayCommit(db, t);
    ApplyMatches(db, Replay(db.outbox, db.nextId), db.txs[t].stage.event, db.txs[t].stage.now);
  }

  lemma OpenMatches(db: Db, l: Label, v: View)
    requires Matches(db, v) && !(l.Commit? && Enabled(db, l))
    ensures Matches(Next(db, l), v)
  {
    assert Next(db, l).messages == db.messages;
  }

  lemma ReplayOpen(db: Db, l: Label)
    requires IdsFresh(db) && !(l.Commit? && Enabled(db, l))
    ensures Replay(Next(db, l).outbox, Next(db, l).nextId) == Replay(db.outbox, db.nextId)
  {
    assert db.nextId !in db.outbox;
    assert Next(db, l).outbox == db.outbox;
  }

  lemma ReplayStep(db: Db, l: Label)
    requires Inv(db) && Matches(db, Replay(db.outbox, db.nextId))
    ensures Matches(Next(db, l), Replay(Next(db, l).outbox, Next(db, l).nextId))
  {
    var db' := Next(db, l);
    if l.Commit? && Enabled(db, l) {
      CommitMatches(db, l.t);
      assert db' == CommitTxn(db, l.t);
    } else {
      OpenMatches(db, l, Replay(db.outbox, db.nextId));
      ReplayOpen(db, l);
      assert Replay(db'.outbox, db'.nextId) == Replay(db.outbox, db.nextId);
    }
  }

  /** The outbox is a faithful changelog of live messages, last messages and read cursors. */
  lemma {:induction false} ReplayRebuildsTables(ls: seq<Label>)
    ensures Matches(Exec(ls), Replay(Exec(ls).outbox, Exec(ls).nextId))
  {
    if ls != [] {
      var db, l := Exec(ls[..|ls| - 1]), ls[|ls| - 1];
      ReplayRebuildsTables(ls[..|ls| - 1]);
      Reachable(ls[..|ls| - 1]);
      ReplayStep(db, l);
    }
  }

  /** The cursors of the view are the members' cursors and no others. */
  ghost predicate CursorsExact(db: Db, cursors: map<(Id, Id), Id>) {
    cursors == map key | key in db.members && db.members[key].Some? :: db.members[key].value
  }

  lemma CursorsStep(db: Db, l: Label)
    requires Inv(db) && CursorsExact(db, Replay(db.outbox, db.nextId).cursors) && !l.Leave?
    ensures CursorsExact(Next(db, l), Replay(Next(db, l).outbox, Next(db, l).nextId).cursors)
  {
    if l.Commit? && Enabled(db, l) {
      CursorsCommit(db, l.t);
    } else {
      ReplayOpen(db, l);
    }
  }

  lemma CursorsCommit(db: Db, t: nat)
    requires Inv(db) && CursorsExact(db, Replay(db.outbox, db.nextId).cursors) && Enabled(db, Commit(t))
    ensures CursorsExact(CommitTxn(db, t), Replay(CommitTxn(db, t).outbox, CommitTxn(db, t).nextId).cursors)
  {
    assert TxnOk(db, db.txs[t]);
    ReplayCommit(db, t);
    ApplyCursors(db, Replay(db.outbox, db.nextId).cursors, db.txs[t].stage.event, db.txs[t].stage.now);
  }

  lemma ApplyCursors(db: Db, cursors: map<(Id, Id), Id>, e: Event, now: Time)
    requires EventOk(db, e) && CursorsExact(db, cursors)
    ensures CursorsExact(Apply(db, e, now), FoldCursors(cursors, e))
  {
  }

  /** As long as nobody leaves a chat, which writes no event, the replay has exactly the read
      cursors of the table. */
  lemma {:induction false} ReplayRebuildsCursors(ls: seq<Label>)
    requires forall i :: 0 <= i < |ls| ==> !ls[i].Leave?
    ensures CursorsExact(Exec(ls), Replay(Exec(ls).outbox, Exec(ls).nextId).cursors)
  {
    if ls != [] {
      ReplayRebuildsCursors(ls[..|ls| - 1]);
      Reachable(ls[..|ls| - 1]);
      CursorsStep(Exec(ls[..|ls| - 1]), ls[|ls| - 1]);
    }
  }

  /** The events about message `m`, in id order. */
  function EventsOf(outbox: map<nat, Event>, n: nat, m: Id): seq<Event> {
    if n == 0 then []
    else if n - 1 in outbox && MessageRow(m) in Locks(outbox[n - 1])
    then EventsOf(outbox, n - 1, m) + [outbox[n - 1]]
    else EventsOf(outbox, n - 1, m)
  }

  /** created, then any number of updated, then at most one deleted. */
  predicate Lifecycle(s: seq<Event>) {
    forall i :: 0 <= i < |s| ==> (s[i].Created? <==> i == 0) && (s[i].Deleted? ==> i == |s| - 1)
  }

  lemma {:induction false} SlotShape(outbox: map<nat, Event>, n: nat, m: Id)
    ensures var v, s := Replay(outbox, n), EventsOf(outbox, n, m);
            && (m !in v.slots <==> s == [])
            && (m in v.slots && !v.slots[m].Broken? ==>
                  Lifecycle(s) && (v.slots[m].Gone? <==> s[|s| - 1].Deleted?))
  {
    if n > 0 {
      SlotShape(outbox, n - 1, m);
    }
  }

  /** Despite the gap between service reads and writer transactions, every message's events
      are created, updated*, then at most one deleted, and the row is live exactly until then. */
  lemma EventLifecycle(ls: seq<Label>, m: Id)
    ensures var db := Exec(ls); var s := EventsOf(db.outbox, db.nextId, m);
            && Lifecycle(s)
            && (m in db.messages <==> s != [])
            && (IsLive(db, m) <==> s != [] && !s[|s| - 1].Deleted?)
  {
    ReplayRebuildsTables(ls);
    SlotShape(Exec(ls).outbox, Exec(ls).nextId, m);
  }

  /** Follow `n` reply links from `m`. */
  function ReplyChain(messages: map<Id, Message>, m: Id, n: nat): Option<Id>
    decreases n
  {
    if m !in messages then None
    else if n == 0 then Some(m)
    else if messages[m].reply.None? then None
    else ReplyChain(messages, messages[m].reply.value, n - 1)
  }

  lemma {:induction false} ReplyChainDescends(db: Db, m: Id, n: nat)
    requires Inv(db) && ReplyChain(db.messages, m, n).Some?
    ensures var x := ReplyChain(db.messages, m, n).value;
            && m in db.messages && x in db.messages && m in db.born && x in db.born
            && db.messages[x].chat == db.messages[m].chat
            && db.born[x] + n <= db.born[m]
    decreases n
  {
    if n > 0 {
      assert ReplyOk(db, db.messages[m].reply, db.messages[m].chat);
      ReplyChainDescends(db, db.messages[m].reply.value, n - 1);
    }
  }

  /** Reply links stay in one chat, never form a cycle, and end within as many links as there are commits. */
  lemma RepliesWellFounded(ls: seq<Label>, m: Id, n: nat)
    requires n > 0 && ReplyChain(Exec(ls).messages, m, n).Some?
    ensures ReplyChain(Exec(ls).messages, m, n) != Some(m)
    ensures n < |Exec(ls).commits|
    ensures m in Exec(ls).messages
    ensures var x := ReplyChain(Exec(ls).messages, m, n).value;
            x in Exec(ls).messages && Exec(ls).messages[x].chat == Exec(ls).messages[m].chat
  {
    Reachable(ls);
    ReplyChainDescends(Exec(ls), m, n);
  }
}
