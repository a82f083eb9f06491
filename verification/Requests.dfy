/** What the published events have to do with the requests behind them: every committed event
    says what one checked request asked for, and no request is carried out twice. */
module Requests {
  import opened Domain
  import opened MessageText
  import opened Writer
  import opened WriterInvariants

  /** The event says what the request asked. */
  predicate Says(op: Op, e: Event) {
    match op
    case Create(sender, chat, text, reply) =>
      && e.Created? && e.msg.sender == sender && e.msg.chat == chat && e.msg.kind == Text
      && e.msg.text == Some(text) && e.msg.reply == reply && e.msg.createdAt == e.msg.updatedAt
    case Update(_, chat, id, text) => e.Updated? && e.msg.id == id && e.msg.chat == chat && e.msg.text == Some(text)
    case Delete(_, chat, id, at) => e == Deleted(id, chat, at)
    case Read(user, chat, upTo) => e == ReadReceipt(chat, user, upTo)
  }

  /** The row an edit publishes: the committed one with the new text and the lock's time. */
  predicate EditsRow(db: Db, e: Event, now: Time) {
    e.Updated? ==> e.msg.id in db.messages && e.msg.updatedAt == now
                   && e.msg == EncodeWire(db.messages[e.msg.id]).(text := e.msg.text, updatedAt := now)
  }

  predicate Faithful(db: Db, txn: Txn) {
    match txn.stage
    case Checked => true
    case Inserted(m) =>
      txn.op.Create?
      && m == Message(m.id, txn.op.chat, txn.op.sender, Text, Some(txn.op.text), txn.op.reply,
                      m.createdAt, m.createdAt, None)
    case Written(e, now) => Says(txn.op, e) && EditsRow(db, e, now)
    case Numbered(e, now, _) => Says(txn.op, e) && EditsRow(db, e, now)
  }

  ghost predicate AllFaithful(db: Db) {
    forall t :: t in db.txs ==> Faithful(db, db.txs[t])
  }

  lemma CommitKeepsFaithful(db: Db, t: nat, u: nat)
    requires LocksExclusive(db) && Enabled(db, Commit(t)) && u in db.txs && u != t
    requires Faithful(db, db.txs[t]) && Faithful(db, db.txs[u])
    ensures Faithful(CommitTxn(db, t), db.txs[u])
  {
    assert Held(db.txs[t]) !! Held(db.txs[u]);
    match db.txs[u].stage
    case Written(e, now) => CommitKeepsEdit(db, t, e, now);
    case Numbered(e, now, _) => CommitKeepsEdit(db, t, e, now);
    case _ =>
  }

  lemma CommitKeepsEdit(db: Db, t: nat, e: Event, now: Time)
    requires Enabled(db, Commit(t)) && Locks(db.txs[t].stage.event) !! Locks(e) && EditsRow(db, e, now)
    ensures EditsRow(CommitTxn(db, t), e, now)
  {
    if e.Updated? {
      assert MessageRow(e.msg.id) in Locks(e);
      CommitLeavesRow(db, t, e.msg.id);
    }
  }

  lemma StepFaithful(db: Db, l: Label)
    requires AllFaithful(db) && RowsOk(db) && Enabled(db, l) && (l.Check? || l.Insert? || l.Lock? || l.Number?)
    ensures Faithful(Next(db, l), Next(db, l).txs[l.t])
  {
    if l.t in db.txs {
      assert Faithful(db, db.txs[l.t]);
    }
  }

  lemma KeepFaithful(db: Db, l: Label)
    requires AllFaithful(db) && LocksExclusive(db) && RowsOk(db)
    ensures AllFaithful(Next(db, l))
  {
    var db' := Next(db, l);
    forall u | u in db'.txs ensures Faithful(db', db'.txs[u]) {
      if Enabled(db, l) && l.Commit? {
        CommitKeepsFaithful(db, l.t, u);
      } else if Enabled(db, l) && (l.Check? || l.Insert? || l.Lock? || l.Number?) && u == l.t {
        StepFaithful(db, l);
      } else {
        assert Faithful(db, db.txs[u]) && db'.messages == db.messages;
      }
    }
  }

  /** In every run an open transaction has written what its request asked, down to the time of an edit. */
  lemma {:induction false} TransactionsFaithful(ls: seq<Label>)
    ensures AllFaithful(Exec(ls))
  {
    if ls != [] {
      TransactionsFaithful(ls[..|ls| - 1]);
      Reachable(ls[..|ls| - 1]);
      KeepFaithful(Exec(ls[..|ls| - 1]), ls[|ls| - 1]);
    }
  }

  // ---- One event per request ----

  /** The requests let through, under the number of the step that checked them, and the one behind
      each open transaction and each outbox row. */
  datatype Origins = Origins(asked: map<nat, Op>, open: map<nat, nat>, done: map<nat, nat>)

  ghost function OriginsOf(ls: seq<Label>): Origins {
    if ls == [] then Origins(map[], map[], map[])
    else
      var n := |ls| - 1;
      NextOrigins(OriginsOf(ls[..n]), Exec(ls[..n]), ls[n], n)
  }

  ghost function NextOrigins(o: Origins, db: Db, l: Label, n: nat): Origins {
    if !Enabled(db, l) then o
    else if l.Check? then Origins(o.asked[n := l.op], o.open[l.t := n], o.done)
    else if l.Abort? then o.(open := o.open - {l.t})
    else if l.Commit? && l.t in o.open then
      o.(open := o.open - {l.t}, done := o.done[db.txs[l.t].stage.oid := o.open[l.t]])
    else o
  }

  ghost predicate OpenTraced(o: Origins, db: Db) {
    && o.open.Keys == db.txs.Keys
    && forall t :: t in o.open ==> o.open[t] in o.asked && o.asked[o.open[t]] == db.txs[t].op
  }

  ghost predicate DoneTraced(o: Origins, db: Db) {
    && o.done.Keys == db.outbox.Keys
    && forall k :: k in o.done ==> o.done[k] in o.asked && Says(o.asked[o.done[k]], db.outbox[k])
  }

  /** No request is behind two transactions, two rows, or a transaction and a row. */
  ghost predicate Once(o: Origins) {
    && (forall t, u :: t in o.open && u in o.open && t != u ==> o.open[t] != o.open[u])
    && (forall j, k :: j in o.done && k in o.done && j != k ==> o.done[j] != o.done[k])
    && (forall t, k :: t in o.open && k in o.done ==> o.open[t] != o.done[k])
  }

  ghost predicate Traced(o: Origins, db: Db) {
    OpenTraced(o, db) && DoneTraced(o, db) && Once(o)
  }

  lemma CheckTraced(o: Origins, db: Db, l: Label, n: nat)
    requires Traced(o, db) && n !in o.asked && Enabled(db, l) && l.Check?
    ensures Traced(NextOrigins(o, db, l, n), Next(db, l))
  {
  }

  lemma CommitTraced(o: Origins, db: Db, t: nat, n: nat)
    requires Traced(o, db) && Enabled(db, Commit(t)) && Faithful(db, db.txs[t])
    ensures Traced(NextOrigins(o, db, Commit(t), n), CommitTxn(db, t))
  {
    var o' := NextOrigins(o, db, Commit(t), n);
    assert o'.done.Keys == CommitTxn(db, t).outbox.Keys;
  }

  lemma AbortTraced(o: Origins, db: Db, t: nat)
    requires Traced(o, db)
    ensures Traced(o.(open := o.open - {t}), db.(txs := db.txs - {t}))
  {
  }

  lemma OtherTraced(o: Origins, db: Db, l: Label)
    requires Traced(o, db) && Enabled(db, l) && !l.Check? && !l.Commit? && !l.Abort?
    ensures Traced(o, Next(db, l))
  {
    var db' := Next(db, l);
    assert db'.outbox == db.outbox && db'.txs.Keys == db.txs.Keys;
    assert forall t :: t in db.txs ==> db'.txs[t].op == db.txs[t].op;
  }

  /** Step `i` checked the request `op` and let it through. */
  ghost predicate CheckedAt(ls: seq<Label>, i: nat, op: Op) {
    i < |ls| && ls[i].Check? && ls[i].op == op && ServiceAccepts(Exec(ls[..i]), op)
  }

  lemma CheckedExtends(ls: seq<Label>, n: nat, i: nat, op: Op)
    requires n <= |ls| && CheckedAt(ls[..n], i, op)
    ensures CheckedAt(ls, i, op)
  {
    assert ls[..n][..i] == ls[..i];
  }

  lemma {:induction false} AskedChecked(ls: seq<Label>, i: nat)
    requires i in OriginsOf(ls).asked
    ensures CheckedAt(ls, i, OriginsOf(ls).asked[i])
  {
    var n := |ls| - 1;
    if i in OriginsOf(ls[..n]).asked && OriginsOf(ls[..n]).asked[i] == OriginsOf(ls).asked[i] {
      AskedChecked(ls[..n], i);
      CheckedExtends(ls, n, i, OriginsOf(ls).asked[i]);
    }
  }

  lemma AskedBefore(ls: seq<Label>)
    ensures |ls| !in OriginsOf(ls).asked
  {
    if |ls| in OriginsOf(ls).asked {
      AskedChecked(ls, |ls|);
    }
  }

  lemma {:induction false} AllTraced(ls: seq<Label>)
    ensures Traced(OriginsOf(ls), Exec(ls))
  {
    if ls != [] {
      var n := |ls| - 1;
      var o, db, l := OriginsOf(ls[..n]), Exec(ls[..n]), ls[n];
      AllTraced(ls[..n]);
      if !Enabled(db, l) {
      } else if l.Check? {
        AskedBefore(ls[..n]);
        CheckTraced(o, db, l, n);
      } else if l.Commit? {
        TransactionsFaithful(ls[..n]);
        CommitTraced(o, db, l.t, n);
      } else if l.Abort? {
        AbortTraced(o, db, l.t);
      } else {
        OtherTraced(o, db, l);
      }
    }
  }

  /** In every run each outbox row has a request of its own behind it, let through by a check of the
      run, and says what that request asked: nothing is published unasked, or twice for one request. */
  lemma OneRequestPerEvent(ls: seq<Label>) returns (origin: map<nat, nat>)
    ensures origin.Keys == Exec(ls).outbox.Keys
    ensures forall k :: k in origin ==> origin[k] < |ls| && ls[origin[k]].Check?
                                        && CheckedAt(ls, origin[k], ls[origin[k]].op)
                                        && Says(ls[origin[k]].op, Exec(ls).outbox[k])
    ensures forall j, k :: j in origin && k in origin && j != k ==> origin[j] != origin[k]
  {
    AllTraced(ls);
    var o := OriginsOf(ls);
    origin := o.done;
    forall k | k in origin
      ensures origin[k] < |ls| && ls[origin[k]].Check? && CheckedAt(ls, origin[k], ls[origin[k]].op)
              && Says(ls[origin[k]].op, Exec(ls).outbox[k])
    {
      AskedChecked(ls, origin[k]);
    }
  }

  // ---- Who may ask ----

  /** A message keeps what only its create may set. */
  predicate SameMessage(m: Message, m': Message) {
    m'.chat == m.chat && m'.sender == m.sender && m'.kind == m.kind && m'.reply == m.reply
    && m'.createdAt == m.createdAt
  }

  lemma CommitKeepsIdentity(db: Db, t: nat, id: Id)
    requires Enabled(db, Commit(t)) && EventOk(db, db.txs[t].stage.event) && id in db.messages
    ensures id in CommitTxn(db, t).messages && SameMessage(db.messages[id], CommitTxn(db, t).messages[id])
  {
    var e := db.txs[t].stage.event;
    if e.Updated? && e.msg.id == id {
      assert SameMessage(db.messages[id], LiveMessage(e.msg));
    }
  }

  lemma StepKeepsMessage(db: Db, l: Label, id: Id)
    requires Inv(db) && id in db.messages
    ensures id in Next(db, l).messages && SameMessage(db.messages[id], Next(db, l).messages[id])
  {
    if Enabled(db, l) && l.Commit? {
      assert TxnOk(db, db.txs[l.t]);
      CommitKeepsIdentity(db, l.t, id);
    } else {
      assert Next(db, l).messages == db.messages;
    }
  }

  /** Whatever is committed later, a message keeps its sender, chat, kind, reply and creation time. */
  lemma {:induction false} MessageKept(ls: seq<Label>, n: nat, id: Id)
    requires n <= |ls| && id in Exec(ls[..n]).messages
    ensures id in Exec(ls).messages && SameMessage(Exec(ls[..n]).messages[id], Exec(ls).messages[id])
    decreases |ls|
  {
    if n == |ls| {
      assert ls[..n] == ls;
    } else {
      var m := |ls| - 1;
      assert ls[..m][..n] == ls[..n];
      MessageKept(ls[..m], n, id);
      Reachable(ls[..m]);
      StepKeepsMessage(Exec(ls[..m]), ls[m], id);
    }
  }

  /** A created event says what is stored about its message, for good. */
  ghost predicate CreationsStored(db: Db) {
    forall k :: k in db.outbox && db.outbox[k].Created? ==>
      var w := db.outbox[k].msg;
      w.id in db.messages && SameMessage(LiveMessage(w), db.messages[w.id])
  }

  lemma CommitStoresCreation(db: Db, t: nat, k: nat)
    requires Inv(db) && CreationsStored(db) && Enabled(db, Commit(t))
    requires k in CommitTxn(db, t).outbox && CommitTxn(db, t).outbox[k].Created?
    ensures var db' := CommitTxn(db, t); var w := db'.outbox[k].msg;
            w.id in db'.messages && SameMessage(LiveMessage(w), db'.messages[w.id])
  {
    if k != db.txs[t].stage.oid {
      StepKeepsMessage(db, Commit(t), db.outbox[k].msg.id);
    }
  }

  lemma CreationsStoredStep(db: Db, l: Label)
    requires Inv(db) && CreationsStored(db)
    ensures CreationsStored(Next(db, l))
  {
    if Enabled(db, l) && l.Commit? {
      forall k | k in CommitTxn(db, l.t).outbox && CommitTxn(db, l.t).outbox[k].Created?
        ensures CommitTxn(db, l.t).outbox[k].msg.id in CommitTxn(db, l.t).messages
        ensures SameMessage(LiveMessage(CommitTxn(db, l.t).outbox[k].msg),
                            CommitTxn(db, l.t).messages[CommitTxn(db, l.t).outbox[k].msg.id])
      {
        CommitStoresCreation(db, l.t, k);
      }
    } else {
      assert Next(db, l).outbox == db.outbox && Next(db, l).messages == db.messages;
    }
  }

  lemma {:induction false} CreationsTrue(ls: seq<Label>)
    ensures CreationsStored(Exec(ls))
  {
    if ls != [] {
      var n := |ls| - 1;
      CreationsTrue(ls[..n]);
      Reachable(ls[..n]);
      CreationsStoredStep(Exec(ls[..n]), ls[n]);
    }
  }

  lemma RequestOf(ls: seq<Label>, k: nat) returns (i: nat)
    requires k in Exec(ls).outbox
    ensures i < |ls| && ls[i].Check? && ServiceAccepts(Exec(ls[..i]), ls[i].op)
    ensures Says(ls[i].op, Exec(ls).outbox[k])
  {
    var origin := OneRequestPerEvent(ls);
    i := origin[k];
    assert CheckedAt(ls, i, ls[i].op);
  }

  /** `l` asks for the edit on behalf of the author of `m`, a member of its chat, while it is live. */
  predicate EditAsked(l: Label, db: Db, m: Message, text: Option<string>) {
    && text.Some? && l.Check? && l.op == Update(m.sender, m.chat, m.id, text.value)
    && (m.chat, m.sender) in db.members && m.id in db.messages && db.messages[m.id].deletedAt == None
    && (m.kind == Text || m.kind == System)
  }

  lemma EditChecked(l: Label, db: Db, m: Message, e: Event)
    requires l.Check? && ServiceAccepts(db, l.op) && Says(l.op, e) && e.Updated?
    requires m.id == e.msg.id && SameMessage(db.messages[m.id], m)
    ensures EditAsked(l, db, m, e.msg.text) && e.msg.chat == m.chat
  {
  }

  lemma StoredUnder(ls: seq<Label>, id: Id)
    requires id in Exec(ls).messages
    ensures Exec(ls).messages[id].id == id
  {
    Reachable(ls);
  }

  /** In every run a published edit was asked for by the message's author, a member of its chat at
      the time, while the message was live. */
  lemma EditAskedByAuthor(ls: seq<Label>, k: nat)
    requires k in Exec(ls).outbox && Exec(ls).outbox[k].Updated?
    ensures var w := Exec(ls).outbox[k].msg;
            && w.id in Exec(ls).messages && w.chat == Exec(ls).messages[w.id].chat
            && Exec(ls).messages[w.id].id == w.id
            && exists i :: 0 <= i < |ls| && EditAsked(ls[i], Exec(ls[..i]), Exec(ls).messages[w.id], w.text)
  {
    var i := RequestOf(ls, k);
    var e := Exec(ls).outbox[k];
    MessageKept(ls, i, e.msg.id);
    StoredUnder(ls, e.msg.id);
    EditChecked(ls[i], Exec(ls[..i]), Exec(ls).messages[e.msg.id], e);
  }

  /** `l` asks for the deletion on behalf of the author of `m`, a member of its chat, while it is live. */
  predicate DeletionAsked(l: Label, db: Db, m: Message, at: Time) {
    && l.Check? && l.op == Delete(m.sender, m.chat, m.id, at)
    && (m.chat, m.sender) in db.members && m.id in db.messages && db.messages[m.id].deletedAt == None
  }

  lemma DeletionChecked(l: Label, db: Db, m: Message, e: Event)
    requires l.Check? && ServiceAccepts(db, l.op) && Says(l.op, e) && e.Deleted?
    requires m.id == e.id && SameMessage(db.messages[m.id], m)
    ensures DeletionAsked(l, db, m, e.at) && e.chat == m.chat
  {
  }

  /** In every run a published deletion was asked for by the message's author, a member of its chat
      at the time, while the message was live. */
  lemma DeletionAskedByAuthor(ls: seq<Label>, k: nat)
    requires k in Exec(ls).outbox && Exec(ls).outbox[k].Deleted?
    ensures var e := Exec(ls).outbox[k];
            && e.id in Exec(ls).messages && e.chat == Exec(ls).messages[e.id].chat
            && Exec(ls).messages[e.id].id == e.id
            && exists i :: 0 <= i < |ls| && DeletionAsked(ls[i], Exec(ls[..i]), Exec(ls).messages[e.id], e.at)
  {
    var i := RequestOf(ls, k);
    var e := Exec(ls).outbox[k];
    MessageKept(ls, i, e.id);
    StoredUnder(ls, e.id);
    DeletionChecked(ls[i], Exec(ls[..i]), Exec(ls).messages[e.id], e);
  }

  /** `l` asks for the message on behalf of its sender, a member of the chat, and the message it
      answers is live in the same chat. */
  predicate CreationAsked(l: Label, db: Db, w: WireMessage) {
    && w.text.Some? && w.text.value != "" && ByteLength(w.text.value) <= 8000
    && l.Check? && l.op == Create(w.sender, w.chat, w.text.value, w.reply)
    && (w.chat, w.sender) in db.members
    && (w.reply.Some? ==> w.reply.value in db.messages && db.messages[w.reply.value].chat == w.chat
                          && db.messages[w.reply.value].deletedAt == None)
  }

  lemma CreationChecked(l: Label, db: Db, e: Event)
    requires l.Check? && ServiceAccepts(db, l.op) && Says(l.op, e) && e.Created?
    ensures CreationAsked(l, db, e.msg) && e.msg.kind == Text
  {
  }

  /** In every run a created message was asked for by its sender, a member of the chat at the time,
      with an accepted text, and the message it answers was live in the same chat. */
  lemma CreationAskedByMember(ls: seq<Label>, k: nat)
    requires k in Exec(ls).outbox && Exec(ls).outbox[k].Created?
    ensures var w := Exec(ls).outbox[k].msg;
            && w.id in Exec(ls).messages && Exec(ls).messages[w.id].sender == w.sender
            && Exec(ls).messages[w.id].kind == w.kind == Text
            && exists i :: 0 <= i < |ls| && CreationAsked(ls[i], Exec(ls[..i]), w)
  {
    var i := RequestOf(ls, k);
    CreationChecked(ls[i], Exec(ls[..i]), Exec(ls).outbox[k]);
    CreationsTrue(ls);
  }

  /** `l` asks for the receipt on behalf of a member of the chat, for a live message of the chat. */
  predicate ReceiptAsked(l: Label, db: Db, chat: Id, user: Id, upTo: Id) {
    && l.Check? && l.op == Read(user, chat, upTo) && (chat, user) in db.members
    && upTo in db.messages && db.messages[upTo].chat == chat && db.messages[upTo].deletedAt == None
  }

  lemma ReceiptChecked(l: Label, db: Db, e: Event)
    requires l.Check? && ServiceAccepts(db, l.op) && Says(l.op, e) && e.ReadReceipt?
    ensures ReceiptAsked(l, db, e.chat, e.user, e.upTo)
  {
  }

  /** In every run a published receipt was asked for by the reader, a member of the chat at the time,
      for the message it names, live in that chat. */
  lemma ReceiptAskedByMember(ls: seq<Label>, k: nat)
    requires k in Exec(ls).outbox && Exec(ls).outbox[k].ReadReceipt?
    ensures var e := Exec(ls).outbox[k];
            exists i :: 0 <= i < |ls| && ReceiptAsked(ls[i], Exec(ls[..i]), e.chat, e.user, e.upTo)
  {
    var i := RequestOf(ls, k);
    ReceiptChecked(ls[i], Exec(ls[..i]), Exec(ls).outbox[k]);
  }
}
