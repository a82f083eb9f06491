/** The four `*WithOutbox` methods as the transactions they are: statement by statement on
    working copies, installed together by the commit. */
module MessageWriter {
  import opened Domain
  import opened MessageText
  import opened Writer

  datatype WriteResult = Done | NotFound | Failed

  /** Transaction 0, past its service checks, running alone through `ls`. */
  function Serial(db: Db, op: Op, ls: seq<Label>): Db {
    RunAll(db.(txs := map[0 := Txn(op, Checked)]), ls)
  }

  function RunAll(db: Db, ls: seq<Label>): Db
    decreases |ls|
  {
    if ls == [] then db else RunAll(Next(db, ls[0]), ls[1..])
  }

  /** The last two labels of a transaction whose commit may fail. */
  function Ending(lost: bool): seq<Label> {
    [if lost then Abort(0) else Commit(0), Abort(0)]
  }

  lemma RunAllStep(db: Db, l: Label, ls: seq<Label>)
    ensures RunAll(db, [l] + ls) == RunAll(Next(db, l), ls)
  {
  }

  /** What is left when a lone transaction has locked its row (or found none) and ended. */
  function Outcome(db: Db, now: Time, lost: bool): Db
    requires 0 in db.txs
  {
    match LockedWrite(db, db.txs[0], now)
    case None => db.(txs := map[])
    case Some(e) =>
      if lost then db.(txs := map[], nextId := db.nextId + 1)
      else Apply(db, e, now).(txs := map[], nextId := db.nextId + 1,
                              outbox := db.outbox[db.nextId := e], commits := db.commits + [db.nextId])
  }

  lemma NoTransactionLeft(txs: map<nat, Txn>)
    requires txs.Keys <= {0}
    ensures txs - {0} == map[]
  {
  }

  lemma Unfold4(db: Db, a: Label, b: Label, c: Label, d: Label)
    ensures RunAll(db, [a, b] + [c, d]) == Next(Next(Next(Next(db, a), b), c), d)
  {
    assert [a, b] + [c, d] == [a] + ([b] + ([c] + ([d] + [])));
    RunAllStep(db, a, [b] + ([c] + ([d] + [])));
    RunAllStep(Next(db, a), b, [c] + ([d] + []));
    RunAllStep(Next(Next(db, a), b), c, [d] + []);
    RunAllStep(Next(Next(Next(db, a), b), c), d, []);
  }

  lemma LockNumber(db: Db, now: Time)
    requires db.txs.Keys == {0} && LockedWrite(db, db.txs[0], now).Some?
    ensures var db2 := Next(Next(db, Lock(0, now)), Number(0));
            && db2.txs.Keys == {0}
            && db2.txs[0].stage == Numbered(LockedWrite(db, db.txs[0], now).value, now, db.nextId)
            && db2 == db.(txs := db2.txs, nextId := db.nextId + 1)
  {
    var db1 := Next(db, Lock(0, now));
    assert db1.txs[0].stage.Written?;
  }

  lemma LoneCommit(db: Db, now: Time, db2: Db)
    requires db.txs.Keys == {0} && LockedWrite(db, db.txs[0], now).Some? && db2.txs.Keys == {0}
    requires db2.txs[0].stage == Numbered(LockedWrite(db, db.txs[0], now).value, now, db.nextId)
    requires db2 == db.(txs := db2.txs, nextId := db.nextId + 1)
    ensures CommitTxn(db2, 0) == Outcome(db, now, false)
  {
    NoTransactionLeft(db2.txs);
    ApplyFrame(db, db2, db2.txs[0].stage.event, now);
  }

  lemma ApplyFrame(db: Db, db2: Db, e: Event, now: Time)
    requires db2 == db.(txs := db2.txs, nextId := db2.nextId)
    ensures Apply(db2, e, now) == Apply(db, e, now).(txs := db2.txs, nextId := db2.nextId)
  {
  }

  lemma LoneTransaction(db: Db, now: Time, lost: bool)
    requires db.txs.Keys == {0} && !db.txs[0].stage.Written? && !db.txs[0].stage.Numbered?
    ensures RunAll(db, [Lock(0, now), Number(0)] + Ending(lost)) == Outcome(db, now, lost)
  {
    Unfold4(db, Lock(0, now), Number(0), Ending(lost)[0], Abort(0));
    if LockedWrite(db, db.txs[0], now).Some? {
      LockNumber(db, now);
      var db2 := Next(Next(db, Lock(0, now)), Number(0));
      LoneEnd(db2, lost);
      LoneCommit(db, now, db2);
    } else {
      LoneMiss(db, now);
      LoneEnd(db, lost);
    }
  }

  lemma LoneMiss(db: Db, now: Time)
    requires 0 in db.txs && LockedWrite(db, db.txs[0], now).None? && !db.txs[0].stage.Written?
    ensures Next(Next(db, Lock(0, now)), Number(0)) == db
  {
  }

  lemma LoneEnd(db: Db, lost: bool)
    requires db.txs.Keys == {0} && !db.txs[0].stage.Written?
    ensures Next(Next(db, Ending(lost)[0]), Abort(0))
            == if !lost && db.txs[0].stage.Numbered? then CommitTxn(db, 0) else db.(txs := map[])
  {
    NoTransactionLeft(db.txs);
  }

  /** What a lone INSERT leaves: nothing when the chat is unknown or the transaction is lost,
      except that a number taken from the sequence stays taken. */
  function InsertResult(db: Db, op: Op, id: Id, now: Time, lost: bool): Db
    requires op.Create?
  {
    if op.chat !in db.chats then db
    else if lost then db.(nextId := db.nextId + 1)
    else
      var row := Message(id, op.chat, op.sender, Text, Some(op.text), op.reply, now, now, None);
      Db(db.messages[id := row], db.chats[op.chat := Some(id)], db.members, db.txs, db.nextId + 1,
         db.outbox[db.nextId := Created(EncodeWire(row))], db.commits + [db.nextId], db.born[id := |db.commits|])
  }

  lemma InsertOutcome(db: Db, op: Op, id: Id, now: Time, lost: bool)
    requires db.txs == map[] && op.Create? && id !in db.messages
    ensures Outcome(Next(db.(txs := map[0 := Txn(op, Checked)]), Insert(0, id, now)), now, lost)
            == InsertResult(db, op, id, now, lost)
  {
    var open := Next(db.(txs := map[0 := Txn(op, Checked)]), Insert(0, id, now));
    if op.chat in db.chats {
      var row := Message(id, op.chat, op.sender, Text, Some(op.text), op.reply, now, now, None);
      assert LockedWrite(open, open.txs[0], now) == Some(Created(EncodeWire(row)));
      assert LiveMessage(EncodeWire(row)) == row;
    }
  }

  lemma LoneInsert(db: Db, op: Op, id: Id, now: Time, lost: bool)
    requires db.txs == map[] && op.Create? && id !in db.messages
    ensures RunAll(Next(db.(txs := map[0 := Txn(op, Checked)]), Insert(0, id, now)),
                   [Lock(0, now), Number(0)] + Ending(lost))
            == InsertResult(db, op, id, now, lost)
  {
    LoneTransaction(Next(db.(txs := map[0 := Txn(op, Checked)]), Insert(0, id, now)), now, lost);
    InsertOutcome(db, op, id, now, lost);
  }

  /** The other three transactions, alone: nothing when the UPDATE finds no row. */
  function Rewritten(db: Db, op: Op, now: Time, lost: bool): Db {
    match LockedWrite(db, Txn(op, Checked), now)
    case None => db
    case Some(e) =>
      if lost then db.(nextId := db.nextId + 1)
      else Apply(db, e, now).(nextId := db.nextId + 1, outbox := db.outbox[db.nextId := e],
                              commits := db.commits + [db.nextId])
  }

  lemma UpdateOutcome(db: Db, op: Op, now: Time, lost: bool)
    requires db.txs == map[]
    ensures Outcome(db.(txs := map[0 := Txn(op, Checked)]), now, lost) == Rewritten(db, op, now, lost)
  {
    var open := db.(txs := map[0 := Txn(op, Checked)]);
    var w := LockedWrite(open, open.txs[0], now);
    assert w == LockedWrite(db, Txn(op, Checked), now);
    if w.Some? {
      ApplyFrame(db, open, w.value, now);
    }
  }

  lemma LoneUpdate(db: Db, op: Op, now: Time, lost: bool)
    requires db.txs == map[]
    ensures Serial(db, op, [Lock(0, now), Number(0)] + Ending(lost)) == Rewritten(db, op, now, lost)
  {
    LoneTransaction(db.(txs := map[0 := Txn(op, Checked)]), now, lost);
    UpdateOutcome(db, op, now, lost);
  }

  class MessageWriter {
    var messages: map<Id, Message>
    var chats: map<Id, Option<Id>>
    var members: map<(Id, Id), Option<Id>>
    var nextId: nat
    var outbox: map<nat, Event>
    ghost var commits: seq<nat>
    ghost var born: map<Id, nat>

    /** The committed tables, with no transaction open. */
    ghost function Tables(): Db
      reads this
    {
      Db(messages, chats, members, map[], nextId, outbox, commits, born)
    }

    /** Message rows are found by their ids. */
    ghost predicate Valid()
      reads this
    {
      forall id :: id in messages ==> messages[id].id == id
    }

    constructor ()
      ensures Valid() && Tables() == EMPTY_DB
    {
      messages, chats, members, nextId, outbox, commits, born := map[], map[], map[], 0, map[], [], map[];
    }

    /** The id comes from the sequence, which a rollback does not give back. */
    method TakeOutboxId() returns (oid: nat)
      modifies this`nextId
      ensures oid == old(nextId) && nextId == oid + 1
    {
      oid := nextId;
      nextId := nextId + 1;
    }

    method CreateMessageWithOutbox(op: Op, id: Id, now: Time, lost: bool) returns (r: WriteResult)
      requires Valid() && op.Create? && id !in messages
      modifies this
      ensures Valid()
      ensures Tables() == RunAll(Next(old(Tables()).(txs := map[0 := Txn(op, Checked)]), Insert(0, id, now)),
                                 [Lock(0, now), Number(0)] + Ending(lost))
      ensures r == if op.chat in old(chats) && !lost then Done else Failed
      ensures r == Done ==>
                && messages == old(messages)[
                     id := Message(id, op.chat, op.sender, Text, Some(op.text), op.reply, now, now, None)]
                && chats == old(chats)[op.chat := Some(id)] && members == old(members)
                && outbox == old(outbox)[old(nextId) := Created(EncodeWire(messages[id]))] && nextId == old(nextId) + 1
      ensures r == Failed ==>
                && unchanged(`messages) && unchanged(`chats) && unchanged(`members) && unchanged(`outbox)
                && nextId == old(nextId) + if op.chat in old(chats) then 1 else 0
    {
      ghost var before := Tables();
      if op.chat !in chats {
        r := Failed; // the foreign key on chat_id refuses the INSERT
      } else {
        var oid := TakeOutboxId();
        if lost {
          r := Failed;
        } else {
          CommitCreated(Message(id, op.chat, op.sender, Text, Some(op.text), op.reply, now, now, None), oid);
          r := Done;
        }
      }
      assert Tables() == InsertResult(before, op, id, now, lost);
      LoneInsert(before, op, id, now, lost);
    }

    /** The INSERT, the chat's last message and the outbox row become visible together. */
    method CommitCreated(row: Message, oid: nat)
      modifies this
      ensures messages == old(messages)[row.id := row] && chats == old(chats)[row.chat := Some(row.id)]
      ensures outbox == old(outbox)[oid := Created(EncodeWire(row))]
      ensures commits == old(commits) + [oid] && born == old(born)[row.id := |old(commits)|]
      ensures members == old(members) && nextId == old(nextId)
    {
      var messages', chats' := messages[row.id := row], chats[row.chat := Some(row.id)];
      var payload := Created(EncodeWire(row));
      messages, chats, outbox := messages', chats', outbox[oid := payload];
      born, commits := born[row.id := |commits|], commits + [oid];
    }

    method UpdateMessageTextWithOutbox(op: Op, now: Time, lost: bool) returns (r: WriteResult)
      requires Valid() && op.Update?
      modifies this
      ensures Valid()
      ensures Tables() == Serial(old(Tables()), op, [Lock(0, now), Number(0)] + Ending(lost))
      ensures r == if op.id !in old(messages) || old(messages)[op.id].chat != op.chat
                      || old(messages)[op.id].deletedAt.Some?
                   then NotFound else if lost then Failed else Done
      ensures r == Done ==>
                && messages == old(messages)[
                     op.id := old(messages)[op.id].(text := Some(op.text), updatedAt := now)]
                && chats == old(chats) && members == old(members)
                && outbox == old(outbox)[old(nextId) := Updated(EncodeWire(messages[op.id]))]
                && nextId == old(nextId) + 1
      ensures r != Done ==>
                && unchanged(`messages) && unchanged(`chats) && unchanged(`members) && unchanged(`outbox)
                && nextId == old(nextId) + if r == Failed then 1 else 0
    {
      LoneUpdate(Tables(), op, now, lost);
      if op.id !in messages || messages[op.id].chat != op.chat || messages[op.id].deletedAt.Some? {
        return NotFound;
      }
      var row := messages[op.id].(text := Some(op.text), updatedAt := now);
      var payload := Updated(EncodeWire(row));
      assert LockedWrite(Tables(), Txn(op, Checked), now) == Some(payload);
      var oid := TakeOutboxId();
      if lost {
        return Failed;
      }
      assert LiveMessage(payload.msg) == row;
      messages, outbox := messages[op.id := row], outbox[oid := payload];
      commits := commits + [oid];
      return Done;
    }

    method SoftDeleteMessageWithOutbox(op: Op, now: Time, lost: bool) returns (r: WriteResult)
      requires Valid() && op.Delete?
      modifies this
      ensures Valid()
      ensures Tables() == Serial(old(Tables()), op, [Lock(0, now), Number(0)] + Ending(lost))
      ensures r == if op.id !in old(messages) || old(messages)[op.id].chat != op.chat
                      || old(messages)[op.id].deletedAt.Some?
                   then NotFound else if lost then Failed else Done
      ensures r == Done ==>
                && messages == old(messages)[op.id := old(messages)[op.id].(deletedAt := Some(now), updatedAt := now)]
                && chats == old(chats) && members == old(members)
                && outbox == old(outbox)[old(nextId) := Deleted(op.id, op.chat, op.at)] && nextId == old(nextId) + 1
      ensures r != Done ==>
                && unchanged(`messages) && unchanged(`chats) && unchanged(`members) && unchanged(`outbox)
                && nextId == old(nextId) + if r == Failed then 1 else 0
    {
      LoneUpdate(Tables(), op, now, lost);
      if op.id !in messages || messages[op.id].chat != op.chat || messages[op.id].deletedAt.Some? {
        return NotFound;
      }
      var payload := Deleted(op.id, op.chat, op.at);
      assert LockedWrite(Tables(), Txn(op, Checked), now) == Some(payload);
      var oid := TakeOutboxId();
      if lost {
        return Failed;
      }
      messages := messages[op.id := messages[op.id].(deletedAt := Some(now), updatedAt := now)];
      outbox, commits := outbox[oid := payload], commits + [oid];
      return Done;
    }

    method UpdateMemberReadWithOutbox(op: Op, now: Time, lost: bool) returns (r: WriteResult)
      requires Valid() && op.Read?
      modifies this
      ensures Valid()
      ensures Tables() == Serial(old(Tables()), op, [Lock(0, now), Number(0)] + Ending(lost))
      ensures r == if (op.chat, op.user) !in old(members) then NotFound else if lost then Failed else Done
      ensures r == Done ==>
                && members == old(members)[(op.chat, op.user) := Some(op.upTo)]
                && messages == old(messages) && chats == old(chats)
                && outbox == old(outbox)[old(nextId) := ReadReceipt(op.chat, op.user, op.upTo)]
                && nextId == old(nextId) + 1
      ensures r != Done ==>
                && unchanged(`messages) && unchanged(`chats) && unchanged(`members) && unchanged(`outbox)
                && nextId == old(nextId) + if r == Failed then 1 else 0
    {
      LoneUpdate(Tables(), op, now, lost);
      if (op.chat, op.user) !in members {
        return NotFound;
      }
      var payload := ReadReceipt(op.chat, op.user, op.upTo);
      assert LockedWrite(Tables(), Txn(op, Checked), now) == Some(payload);
      var oid := TakeOutboxId();
      if lost {
        return Failed;
      }
      members := members[(op.chat, op.user) := Some(op.upTo)];
      outbox, commits := outbox[oid := payload], commits + [oid];
      return Done;
    }
  }

  /** The service calls: the reads decide whether the writer is called at all. */
  class MessageService {
    const writer: MessageWriter

    constructor (writer: MessageWriter)
      ensures this.writer == writer
    {
      this.writer := writer;
    }

    method Create(sender: Id, chat: Id, raw: string, reply: Option<Id>, id: Id, now: Time, lost: bool)
      returns (r: Option<WriteResult>)
      requires writer.Valid() && id !in writer.messages
      modifies writer
      ensures writer.Valid()
      ensures var op := Op.Create(sender, chat, TrimSpace(raw), reply);
              && (r.Some? <==> ServiceAccepts(old(writer.Tables()), op))
              && writer.Tables() == RunAll(Next(Next(old(writer.Tables()), Check(0, op)), Insert(0, id, now)),
                                           [Lock(0, now), Number(0)] + Ending(lost))
      ensures r.Some? <==>
                && (chat, sender) in old(writer.members)
                && TrimSpace(raw) != "" && ByteLength(TrimSpace(raw)) <= 8000
                && (reply.Some? ==> reply.value in old(writer.messages)
                                    && old(writer.messages)[reply.value].chat == chat
                                    && old(writer.messages)[reply.value].deletedAt == None)
      ensures r.Some? ==> r.value == if chat in old(writer.chats) && !lost then Done else Failed
      ensures r == Some(Done) ==>
                && writer.messages == old(writer.messages)[
                     id := Message(id, chat, sender, Text, Some(TrimSpace(raw)), reply, now, now, None)]
                && writer.chats == old(writer.chats)[chat := Some(id)] && writer.members == old(writer.members)
                && writer.outbox == old(writer.outbox)[old(writer.nextId) := Created(EncodeWire(writer.messages[id]))]
      ensures r != Some(Done) ==>
                && unchanged(writer`messages) && unchanged(writer`chats)
                && unchanged(writer`members) && unchanged(writer`outbox)
    {
      var text := TrimSpace(raw);
      var op := Op.Create(sender, chat, text, reply);
      ghost var before := writer.Tables();
      ghost var left, right := TrimSpaceSpec(raw);
      if (chat, sender) !in writer.members || text == "" || ByteLength(text) > 8000
         || (reply.Some? && (reply.value !in writer.messages
                             || writer.messages[reply.value].chat != chat
                             || writer.messages[reply.value].deletedAt.Some?)) {
        NothingOpen(before, now, lost);
        return None;
      }
      var w := writer.CreateMessageWithOutbox(op, id, now, lost);
      return Some(w);
    }

    /** The chat is the message's own. */
    method Patch(actor: Id, id: Id, raw: string, now: Time, lost: bool) returns (r: Option<WriteResult>)
      requires writer.Valid()
      modifies writer
      ensures writer.Valid()
      ensures id !in old(writer.messages) ==> r == None && writer.Tables() == old(writer.Tables())
      ensures id in old(writer.messages) ==>
                var op := Update(actor, old(writer.messages)[id].chat, id, TrimSpace(raw));
                && (r.Some? <==> ServiceAccepts(old(writer.Tables()), op))
                && writer.Tables() == RunAll(Next(old(writer.Tables()), Check(0, op)),
                                             [Lock(0, now), Number(0)] + Ending(lost))
      ensures id in old(writer.messages) ==>
                var m := old(writer.messages)[id];
                && (r.Some? <==>
                      && m.deletedAt == None && m.sender == actor && (m.chat, actor) in old(writer.members)
                      && (m.kind == Text || m.kind == System)
                      && TrimSpace(raw) != "" && ByteLength(TrimSpace(raw)) <= 8000)
                && (r.Some? ==> r.value == if lost then Failed else Done)
                && (r == Some(Done) ==>
                      && writer.messages
                         == old(writer.messages)[id := m.(text := Some(TrimSpace(raw)), updatedAt := now)]
                      && writer.chats == old(writer.chats) && writer.members == old(writer.members)
                      && writer.outbox
                         == old(writer.outbox)[old(writer.nextId) := Updated(EncodeWire(writer.messages[id]))])
      ensures r != Some(Done) ==>
                && unchanged(writer`messages) && unchanged(writer`chats)
                && unchanged(writer`members) && unchanged(writer`outbox)
    {
      if id !in writer.messages {
        return None;
      }
      var text, m := TrimSpace(raw), writer.messages[id];
      ghost var before := writer.Tables();
      ghost var left, right := TrimSpaceSpec(raw);
      if m.deletedAt.Some? || m.sender != actor || (m.chat, actor) !in writer.members
         || m.kind !in {Text, System} || text == "" || ByteLength(text) > 8000 {
        NothingOpen(before, now, lost);
        return None;
      }
      var w := writer.UpdateMessageTextWithOutbox(Update(actor, m.chat, id, text), now, lost);
      return Some(w);
    }

    method Delete(actor: Id, id: Id, at: Time, now: Time, lost: bool) returns (r: Option<WriteResult>)
      requires writer.Valid()
      modifies writer
      ensures writer.Valid()
      ensures id !in old(writer.messages) ==> r == None && writer.Tables() == old(writer.Tables())
      ensures id in old(writer.messages) ==>
                var op := Op.Delete(actor, old(writer.messages)[id].chat, id, at);
                && (r.Some? <==> ServiceAccepts(old(writer.Tables()), op))
                && writer.Tables() == RunAll(Next(old(writer.Tables()), Check(0, op)),
                                             [Lock(0, now), Number(0)] + Ending(lost))
      ensures id in old(writer.messages) ==>
                var m := old(writer.messages)[id];
                && (r.Some? <==> m.deletedAt == None && m.sender == actor && (m.chat, actor) in old(writer.members))
                && (r.Some? ==> r.value == if lost then Failed else Done)
                && (r == Some(Done) ==>
                      && writer.messages == old(writer.messages)[id := m.(deletedAt := Some(now), updatedAt := now)]
                      && writer.chats == old(writer.chats) && writer.members == old(writer.members)
                      && writer.outbox == old(writer.outbox)[old(writer.nextId) := Deleted(id, m.chat, at)])
      ensures r != Some(Done) ==>
                && unchanged(writer`messages) && unchanged(writer`chats)
                && unchanged(writer`members) && unchanged(writer`outbox)
    {
      if id !in writer.messages {
        return None;
      }
      var m := writer.messages[id];
      ghost var before := writer.Tables();
      if m.deletedAt.Some? || m.sender != actor || (m.chat, actor) !in writer.members {
        NothingOpen(before, now, lost);
        return None;
      }
      var w := writer.SoftDeleteMessageWithOutbox(Op.Delete(actor, m.chat, id, at), now, lost);
      return Some(w);
    }

    method MarkRead(user: Id, upTo: Id, now: Time, lost: bool) returns (r: Option<WriteResult>)
      requires writer.Valid()
      modifies writer
      ensures writer.Valid()
      ensures upTo !in old(writer.messages) ==> r == None && writer.Tables() == old(writer.Tables())
      ensures upTo in old(writer.messages) ==>
                var op := Read(user, old(writer.messages)[upTo].chat, upTo);
                && (r.Some? <==> ServiceAccepts(old(writer.Tables()), op))
                && writer.Tables() == RunAll(Next(old(writer.Tables()), Check(0, op)),
                                             [Lock(0, now), Number(0)] + Ending(lost))
      ensures upTo in old(writer.messages) ==>
                var m := old(writer.messages)[upTo];
                && (r.Some? <==> m.deletedAt == None && (m.chat, user) in old(writer.members))
                && (r.Some? ==> r.value == if lost then Failed else Done)
                && (r == Some(Done) ==>
                      && writer.members == old(writer.members)[(m.chat, user) := Some(upTo)]
                      && writer.messages == old(writer.messages) && writer.chats == old(writer.chats)
                      && writer.outbox == old(writer.outbox)[old(writer.nextId) := ReadReceipt(m.chat, user, upTo)])
      ensures r != Some(Done) ==>
                && unchanged(writer`messages) && unchanged(writer`chats)
                && unchanged(writer`members) && unchanged(writer`outbox)
    {
      if upTo !in writer.messages {
        return None;
      }
      var m := writer.messages[upTo];
      ghost var before := writer.Tables();
      if m.deletedAt.Some? || (m.chat, user) !in writer.members {
        NothingOpen(before, now, lost);
        return None;
      }
      var w := writer.UpdateMemberReadWithOutbox(Read(user, m.chat, upTo), now, lost);
      return Some(w);
    }
  }

  /** Without an open transaction the remaining statements have no effect. */
  lemma NothingOpen(db: Db, now: Time, lost: bool)
    requires db.txs == map[]
    ensures RunAll(db, [Lock(0, now), Number(0)] + Ending(lost)) == db
  {
    Unfold4(db, Lock(0, now), Number(0), Ending(lost)[0], Abort(0));
    assert db.txs - {0} == db.txs;
  }
}
