/** What every schedule of the writer keeps. */
module WriterInvariants {
  import opened Domain
  import opened Writer

  ghost predicate LocksExclusive(db: Db) {
    forall t, u :: t in db.txs && u in db.txs && t != u ==> Held(db.txs[t]) !! Held(db.txs[u])
  }

  ghost predicate IdsFresh(db: Db) {
    && (forall k :: k in db.outbox ==> k < db.nextId)
    && (forall t :: t in db.txs && db.txs[t].stage.Numbered? ==>
          db.txs[t].stage.oid < db.nextId && db.txs[t].stage.oid !in db.outbox)
    && (forall t, u :: t in db.txs && u in db.txs && t != u && db.txs[t].stage.Numbered?
                        && db.txs[u].stage.Numbered? ==>
          db.txs[t].stage.oid != db.txs[u].stage.oid)
  }

  /** A transaction that waits to commit carries a higher id than every committed conflicting event. */
  ghost predicate NumberedLast(db: Db) {
    forall t, k ::
      t in db.txs && db.txs[t].stage.Numbered? && k in db.outbox && Conflict(db.outbox[k], db.txs[t].stage.event)
      ==> k < db.txs[t].stage.oid
  }

  ghost predicate CommitLog(db: Db) {
    && (forall i :: 0 <= i < |db.commits| ==> db.commits[i] in db.outbox)
    && (forall k :: k in db.outbox ==> k in db.commits)
    && (forall i, j :: 0 <= i < j < |db.commits| ==> db.commits[i] != db.commits[j])
  }

  /** Conflicting events commit in the order of their outbox ids. */
  ghost predicate CommitOrder(db: Db) {
    forall i, j ::
      0 <= i < j < |db.commits| && db.commits[i] in db.outbox && db.commits[j] in db.outbox
      && Conflict(db.outbox[db.commits[i]], db.outbox[db.commits[j]])
      ==> db.commits[i] < db.commits[j]
  }

  predicate InChat(db: Db, id: Id, chat: Id) {
    id in db.messages && db.messages[id].chat == chat
  }

  predicate ReplyOk(db: Db, reply: Option<Id>, chat: Id) {
    reply.Some? ==> InChat(db, reply.value, chat)
  }

  /** What an uncommitted event still assumes about the committed tables. */
  predicate EventOk(db: Db, e: Event) {
    match e
    case Created(w) => w.id !in db.messages && w.chat in db.chats && ReplyOk(db, w.reply, w.chat)
    case Updated(w) =>
      IsLive(db, w.id) && LiveMessage(w) == db.messages[w.id].(text := w.text, updatedAt := w.updatedAt)
    case Deleted(id, chat, _) => IsLive(db, id) && InChat(db, id, chat)
    case ReadReceipt(chat, user, upTo) => (chat, user) in db.members && InChat(db, upTo, chat)
  }

  predicate TxnOk(db: Db, txn: Txn) {
    && (txn.op.Create? ==> ReplyOk(db, txn.op.reply, txn.op.chat))
    && (txn.op.Read? ==> InChat(db, txn.op.upTo, txn.op.chat))
    && match txn.stage
       case Checked => true
       case Inserted(m) =>
         && txn.op.Create? && m.id !in db.messages && m.chat == txn.op.chat && m.reply == txn.op.reply
         && m.deletedAt.None? && m.chat in db.chats
       case Written(e, _) => EventOk(db, e)
       case Numbered(e, _, _) => EventOk(db, e)
  }

  /** Replies, read cursors and last messages stay inside their chat. */
  ghost predicate RowsOk(db: Db) {
    && (forall id :: id in db.messages ==>
          db.messages[id].id == id && db.messages[id].chat in db.chats
          && ReplyOk(db, db.messages[id].reply, db.messages[id].chat))
    && (forall key :: key in db.members && db.members[key].Some? ==> InChat(db, db.members[key].value, key.0))
    && (forall chat :: chat in db.chats && db.chats[chat].Some? ==> InChat(db, db.chats[chat].value, chat))
  }

  ghost predicate TablesOk(db: Db) {
    RowsOk(db) && forall t :: t in db.txs ==> TxnOk(db, db.txs[t])
  }

  ghost predicate RepliesBackward(db: Db) {
    && (forall id :: id in db.messages ==> id in db.born && db.born[id] < |db.commits|)
    && (forall id :: id in db.messages && db.messages[id].reply.Some? && db.messages[id].reply.value in db.messages ==>
          db.messages[id].reply.value in db.born && db.born[db.messages[id].reply.value] < db.born[id])
  }

  /** Every outbox row carries the chat of the message it is about. */
  ghost predicate RowsKeyed(db: Db) {
    forall k :: k in db.outbox ==> EventKeyed(db, db.outbox[k])
  }

  predicate EventKeyed(db: Db, e: Event) {
    match e
    case Created(w) => InChat(db, w.id, w.chat)
    case Updated(w) => InChat(db, w.id, w.chat)
    case Deleted(id, chat, _) => InChat(db, id, chat)
    case ReadReceipt(chat, _, upTo) => InChat(db, upTo, chat)
  }

  ghost predicate Inv(db: Db) {
    && LocksExclusive(db) && IdsFresh(db) && NumberedLast(db)
    && CommitLog(db) && CommitOrder(db) && TablesOk(db) && RepliesBackward(db) && RowsKeyed(db)
  }

  lemma KeepLocks(db: Db, l: Label)
    requires LocksExclusive(db)
    ensures LocksExclusive(Next(db, l))
  {
  }

  lemma CommitKeepsIds(db: Db, t: nat)
    requires IdsFresh(db) && Enabled(db, Commit(t))
    ensures IdsFresh(CommitTxn(db, t))
  {
  }

  lemma KeepIds(db: Db, l: Label)
    requires IdsFresh(db)
    ensures IdsFresh(Next(db, l))
  {
    if l.Commit? && Enabled(db, l) {
      CommitKeepsIds(db, l.t);
    } else {
      assert Next(db, l).outbox == db.outbox;
    }
  }

  lemma KeepNumberedLast(db: Db, l: Label)
    requires LocksExclusive(db) && IdsFresh(db) && NumberedLast(db)
    ensures NumberedLast(Next(db, l))
  {
  }

  lemma CommitExtendsLog(db: Db, t: nat)
    requires IdsFresh(db) && CommitLog(db) && Enabled(db, Commit(t))
    ensures CommitLog(CommitTxn(db, t))
  {
    assert db.txs[t].stage.oid !in db.commits;
  }

  lemma CommitExtendsOrder(db: Db, t: nat)
    requires IdsFresh(db) && NumberedLast(db) && CommitLog(db) && CommitOrder(db) && Enabled(db, Commit(t))
    ensures CommitOrder(CommitTxn(db, t))
  {
    var db' := CommitTxn(db, t);
    var n := |db.commits|;
    assert forall i :: 0 <= i < n ==>
           db'.commits[i] == db.commits[i] && db'.outbox[db.commits[i]] == db.outbox[db.commits[i]];
  }

  lemma KeepCommits(db: Db, l: Label)
    requires IdsFresh(db) && NumberedLast(db) && CommitLog(db) && CommitOrder(db)
    ensures CommitLog(Next(db, l)) && CommitOrder(Next(db, l))
  {
    if l.Commit? && Enabled(db, l) {
      CommitExtendsLog(db, l.t);
      CommitExtendsOrder(db, l.t);
    } else {
      assert Next(db, l).outbox == db.outbox && Next(db, l).commits == db.commits;
    }
  }

  /** Committed rows are never taken away and a message never changes its chat. */
  lemma CommitGrows(db: Db, t: nat)
    requires TablesOk(db) && Enabled(db, Commit(t))
    ensures db.messages.Keys <= CommitTxn(db, t).messages.Keys
    ensures forall id :: id in db.messages ==> CommitTxn(db, t).messages[id].chat == db.messages[id].chat
    ensures db.chats.Keys <= CommitTxn(db, t).chats.Keys && db.members.Keys <= CommitTxn(db, t).members.Keys
  {
    assert TxnOk(db, db.txs[t]);
  }

  lemma CommitKeepsOld(db: Db, t: nat, id: Id)
    requires Enabled(db, Commit(t)) && EventOk(db, db.txs[t].stage.event) && id in db.messages
    requires db.messages[id].id == id && db.messages[id].chat in db.chats
    requires ReplyOk(db, db.messages[id].reply, db.messages[id].chat)
    ensures var db' := CommitTxn(db, t);
            && db'.messages[id].id == id && db'.messages[id].chat in db'.chats
            && ReplyOk(db', db'.messages[id].reply, db'.messages[id].chat)
  {
    assert CommitTxn(db, t).messages[id].reply == db.messages[id].reply;
  }

  lemma CommitKeepsNew(db: Db, t: nat, id: Id)
    requires Enabled(db, Commit(t)) && EventOk(db, db.txs[t].stage.event)
    requires id !in db.messages && id in CommitTxn(db, t).messages
    ensures var db' := CommitTxn(db, t);
            && db'.messages[id].id == id && db'.messages[id].chat in db'.chats
            && ReplyOk(db', db'.messages[id].reply, db'.messages[id].chat)
  {
    var e := db.txs[t].stage.event;
    assert e.Created? && ReplyOk(db, e.msg.reply, e.msg.chat);
  }

  lemma CommitKeepsMessage(db: Db, t: nat, id: Id)
    requires TablesOk(db) && Enabled(db, Commit(t)) && id in CommitTxn(db, t).messages
    ensures var db' := CommitTxn(db, t);
            && db'.messages[id].id == id && db'.messages[id].chat in db'.chats
            && ReplyOk(db', db'.messages[id].reply, db'.messages[id].chat)
  {
    assert TxnOk(db, db.txs[t]);
    if id in db.messages {
      CommitKeepsOld(db, t, id);
    } else {
      CommitKeepsNew(db, t, id);
    }
  }

  lemma CommitKeepsCursors(db: Db, t: nat, key: (Id, Id))
    requires TablesOk(db) && Enabled(db, Commit(t))
    requires key in CommitTxn(db, t).members && CommitTxn(db, t).members[key].Some?
    ensures InChat(CommitTxn(db, t), CommitTxn(db, t).members[key].value, key.0)
  {
    assert TxnOk(db, db.txs[t]);
    CommitGrows(db, t);
    var e := db.txs[t].stage.event;
    if !(e.ReadReceipt? && key == (e.chat, e.user)) {
      assert InChat(db, db.members[key].value, key.0);
    }
  }

  lemma CommitKeepsLast(db: Db, t: nat, chat: Id)
    requires TablesOk(db) && Enabled(db, Commit(t))
    requires chat in CommitTxn(db, t).chats && CommitTxn(db, t).chats[chat].Some?
    ensures InChat(CommitTxn(db, t), CommitTxn(db, t).chats[chat].value, chat)
  {
    assert TxnOk(db, db.txs[t]);
    CommitGrows(db, t);
    var e := db.txs[t].stage.event;
    if !(e.Created? && chat == e.msg.chat) {
      assert InChat(db, db.chats[chat].value, chat);
    }
  }

  lemma CommitKeepsRows(db: Db, t: nat)
    requires TablesOk(db) && Enabled(db, Commit(t))
    ensures RowsOk(CommitTxn(db, t))
  {
    var db' := CommitTxn(db, t);
    forall id | id in db'.messages
      ensures db'.messages[id].id == id && db'.messages[id].chat in db'.chats
      ensures ReplyOk(db', db'.messages[id].reply, db'.messages[id].chat)
    {
      CommitKeepsMessage(db, t, id);
    }
    forall key | key in db'.members && db'.members[key].Some? ensures InChat(db', db'.members[key].value, key.0) {
      CommitKeepsCursors(db, t, key);
    }
    forall chat | chat in db'.chats && db'.chats[chat].Some? ensures InChat(db', db'.chats[chat].value, chat) {
      CommitKeepsLast(db, t, chat);
    }
  }

  /** The row locks keep one commit from invalidating another open transaction. */
  lemma CommitKeepsTxn(db: Db, t: nat, u: nat)
    requires TablesOk(db) && Enabled(db, Commit(t)) && u in db.txs && u != t
    requires Held(db.txs[t]) !! Held(db.txs[u])
    ensures TxnOk(CommitTxn(db, t), db.txs[u])
  {
    assert TxnOk(db, db.txs[t]) && TxnOk(db, db.txs[u]);
    CommitGrows(db, t);
    match db.txs[u].stage
    case Inserted(m) => assert MessageRow(m.id) in Held(db.txs[u]);
    case Written(e, _) => CommitKeepsEvent(db, t, e);
    case Numbered(e, _, _) => CommitKeepsEvent(db, t, e);
    case _ =>
  }

  lemma CommitKeepsEvent(db: Db, t: nat, e: Event)
    requires TablesOk(db) && Enabled(db, Commit(t)) && EventOk(db, e)
    requires Locks(db.txs[t].stage.event) !! Locks(e)
    ensures EventOk(CommitTxn(db, t), e)
  {
    CommitGrows(db, t);
    if !e.ReadReceipt? {
      var id := if e.Deleted? then e.id else e.msg.id;
      assert MessageRow(id) in Locks(e);
      CommitLeavesRow(db, t, id);
    }
  }

  /** A commit touches no message whose row it has not locked. */
  lemma CommitLeavesRow(db: Db, t: nat, id: Id)
    requires Enabled(db, Commit(t)) && MessageRow(id) !in Locks(db.txs[t].stage.event)
    ensures id in CommitTxn(db, t).messages <==> id in db.messages
    ensures id in db.messages ==> CommitTxn(db, t).messages[id] == db.messages[id]
  {
    match db.txs[t].stage.event
    case Created(w) => assert w.id != id;
    case Updated(w) => assert w.id != id;
    case Deleted(other, _, _) => assert other != id;
    case ReadReceipt(_, _, _) =>
  }

  lemma LeaveKeepsTables(db: Db, l: Label)
    requires TablesOk(db) && l.Leave? && Enabled(db, l)
    ensures TablesOk(Next(db, l))
  {
    forall u | u in db.txs ensures TxnOk(Next(db, l), db.txs[u]) {
      assert TxnOk(db, db.txs[u]) && MemberRow(l.chat, l.user) !in Held(db.txs[u]);
    }
  }

  lemma KeepTables(db: Db, l: Label)
    requires LocksExclusive(db) && TablesOk(db)
    ensures TablesOk(Next(db, l))
  {
    if !Enabled(db, l) {
    } else if l.Commit? {
      CommitKeepsRows(db, l.t);
      forall u | u in db.txs && u != l.t ensures TxnOk(CommitTxn(db, l.t), db.txs[u]) {
        CommitKeepsTxn(db, l.t, u);
      }
    } else if l.Leave? {
      LeaveKeepsTables(db, l);
    } else {
      OpenKeepsTables(db, l);
    }
  }

  lemma TxnFrame(db: Db, db': Db, txn: Txn)
    requires TxnOk(db, txn) && db'.messages == db.messages
    requires db.chats.Keys <= db'.chats.Keys && db.members.Keys <= db'.members.Keys
    ensures TxnOk(db', txn)
  {
  }

  /** The transaction a step leaves behind is sound for the tables it was prepared on. */
  lemma StepTxnOk(db: Db, l: Label)
    requires TablesOk(db) && Enabled(db, l) && (l.Check? || l.Insert? || l.Lock? || l.Number?)
    ensures l.t in Next(db, l).txs && TxnOk(db, Next(db, l).txs[l.t])
  {
    if l.t in db.txs {
      assert TxnOk(db, db.txs[l.t]);
    }
  }

  lemma OpenKeepsTables(db: Db, l: Label)
    requires TablesOk(db) && Enabled(db, l) && !l.Commit? && !l.Leave?
    ensures TablesOk(Next(db, l))
  {
    var db' := Next(db, l);
    assert db'.messages == db.messages && db.chats.Keys <= db'.chats.Keys && db.members.Keys <= db'.members.Keys;
    assert RowsOk(db');
    forall u | u in db'.txs ensures TxnOk(db', db'.txs[u]) {
      if u in db.txs && db'.txs[u] == db.txs[u] {
        TxnFrame(db, db', db.txs[u]);
      } else {
        StepTxnOk(db, l);
        TxnFrame(db, db', db'.txs[u]);
      }
    }
  }

  lemma CommitKeepsReplies(db: Db, t: nat)
    requires TablesOk(db) && RepliesBackward(db) && Enabled(db, Commit(t))
    ensures RepliesBackward(CommitTxn(db, t))
  {
    forall id | id in CommitTxn(db, t).messages ensures ReplyBackward(CommitTxn(db, t), id) {
      CommitKeepsReply(db, t, id);
    }
  }

  ghost predicate ReplyBackward(db: Db, id: Id)
    requires id in db.messages
  {
    var reply := db.messages[id].reply;
    && id in db.born && db.born[id] < |db.commits|
    && (reply.Some? && reply.value in db.messages ==> reply.value in db.born && db.born[reply.value] < db.born[id])
  }

  /** A commit changes no reply. */
  lemma OldReplyBackward(db: Db, t: nat, id: Id)
    requires RepliesBackward(db) && Enabled(db, Commit(t)) && EventOk(db, db.txs[t].stage.event)
    requires id in db.messages && ReplyOk(db, db.messages[id].reply, db.messages[id].chat)
    ensures id in CommitTxn(db, t).messages && ReplyBackward(CommitTxn(db, t), id)
  {
    var db' := CommitTxn(db, t);
    assert db'.messages[id].reply == db.messages[id].reply && db'.born[id] == db.born[id];
  }

  /** A commit brings one message at most, which may only answer an older one. */
  lemma NewReplyBackward(db: Db, t: nat, id: Id)
    requires RepliesBackward(db) && Enabled(db, Commit(t)) && EventOk(db, db.txs[t].stage.event)
    requires id !in db.messages && id in CommitTxn(db, t).messages
    ensures ReplyBackward(CommitTxn(db, t), id)
  {
    var e := db.txs[t].stage.event;
    assert e.Created? && id == e.msg.id && ReplyOk(db, e.msg.reply, e.msg.chat);
  }

  lemma CommitKeepsReply(db: Db, t: nat, id: Id)
    requires TablesOk(db) && RepliesBackward(db) && Enabled(db, Commit(t)) && id in CommitTxn(db, t).messages
    ensures ReplyBackward(CommitTxn(db, t), id)
  {
    assert TxnOk(db, db.txs[t]);
    if id in db.messages {
      OldReplyBackward(db, t, id);
    } else {
      NewReplyBackward(db, t, id);
    }
  }

  lemma KeepReplies(db: Db, l: Label)
    requires TablesOk(db) && RepliesBackward(db)
    ensures RepliesBackward(Next(db, l))
  {
    if l.Commit? && Enabled(db, l) {
      CommitKeepsReplies(db, l.t);
    } else {
      var db' := Next(db, l);
      assert db'.messages == db.messages && db'.born == db.born && db'.commits == db.commits;
    }
  }

  lemma CommitKeepsKeys(db: Db, t: nat)
    requires TablesOk(db) && RowsKeyed(db) && Enabled(db, Commit(t))
    ensures RowsKeyed(CommitTxn(db, t))
  {
    assert TxnOk(db, db.txs[t]);
    CommitGrows(db, t);
    forall k | k in db.outbox ensures EventKeyed(CommitTxn(db, t), db.outbox[k]) {
      assert EventKeyed(db, db.outbox[k]);
    }
  }

  lemma KeepKeys(db: Db, l: Label)
    requires TablesOk(db) && RowsKeyed(db)
    ensures RowsKeyed(Next(db, l))
  {
    if l.Commit? && Enabled(db, l) {
      CommitKeepsKeys(db, l.t);
    } else {
      var db' := Next(db, l);
      assert db'.messages == db.messages && db'.outbox == db.outbox;
      forall k | k in db.outbox ensures EventKeyed(db', db.outbox[k]) {
        assert EventKeyed(db, db.outbox[k]);
      }
    }
  }

  lemma InvStep(db: Db, l: Label)
    requires Inv(db)
    ensures Inv(Next(db, l))
  {
    KeepLocks(db, l);
    KeepIds(db, l);
    KeepNumberedLast(db, l);
    KeepCommits(db, l);
    KeepTables(db, l);
    KeepReplies(db, l);
    KeepKeys(db, l);
  }

  /** Every reachable state of the writer satisfies the invariant. */
  lemma {:induction false} Reachable(ls: seq<Label>)
    ensures Inv(Exec(ls))
  {
    if ls != [] {
      Reachable(ls[..|ls| - 1]);
      InvStep(Exec(ls[..|ls| - 1]), ls[|ls| - 1]);
    }
  }

  /** In every run the broker key of a row is the chat its message is stored under. */
  lemma KeyedByChat(ls: seq<Label>, k: nat)
    requires k in Exec(ls).outbox
    ensures var e := Exec(ls).outbox[k];
            var id := match e case Created(w) => w.id case Updated(w) => w.id case Deleted(id, _, _) => id
                              case ReadReceipt(_, _, upTo) => upTo;
            id in Exec(ls).messages && PartitionKey(e) == Exec(ls).messages[id].chat
  {
    Reachable(ls);
    assert EventKeyed(Exec(ls), Exec(ls).outbox[k]);
  }

  /** Conflicting events share a broker partition. */
  lemma ConflictSharesPartition(ls: seq<Label>, a: nat, b: nat)
    requires a in Exec(ls).outbox && b in Exec(ls).outbox
    requires Conflict(Exec(ls).outbox[a], Exec(ls).outbox[b])
    ensures PartitionKey(Exec(ls).outbox[a]) == PartitionKey(Exec(ls).outbox[b])
  {
    Reachable(ls);
    var e, f := Exec(ls).outbox[a], Exec(ls).outbox[b];
    assert EventKeyed(Exec(ls), e) && EventKeyed(Exec(ls), f);
    var key :| key in Locks(e) && key in Locks(f);
  }
}
