/** The four `*WithOutbox` transactions as interleaved steps over the message tables.

    A step that is not enabled (its row lock is taken, its WHERE clause matches nothing, its
    transaction is at another stage) leaves the state unchanged, so every sequence of labels
    is a schedule and every reachable state is the outcome of one. */
module Writer {
  import opened Domain
  import opened MessageText

  /** A service call that has passed its reads, with the arguments it hands to the writer. */
  datatype Op =
    | Create(sender: Id, chat: Id, text: string, reply: Option<Id>)
    | Update(actor: Id, chat: Id, id: Id, text: string)
    | Delete(actor: Id, chat: Id, id: Id, at: Time)
    | Read(user: Id, chat: Id, upTo: Id)

  datatype Stage =
    | Checked                                        // service reads done, no row touched yet
    | Inserted(msg: Message)                         // create: message row inserted, uncommitted
    | Written(event: Event, now: Time)               // row lock held, all table writes done
    | Numbered(event: Event, now: Time, oid: nat)    // outbox row inserted with its bigserial id

  datatype Txn = Txn(op: Op, stage: Stage)

  /** `commits` and `born` are history: outbox ids in commit order, and for each message how
      many commits came before its own. Uncommitted writes live in `txs`. */
  datatype Db = Db(
    messages: map<Id, Message>,
    chats: map<Id, Option<Id>>,              // chat -> last_message_id
    members: map<(Id, Id), Option<Id>>,      // (chat, user) -> last_read_message_id
    txs: map<nat, Txn>,
    nextId: nat,
    outbox: map<nat, Event>,
    commits: seq<nat>,
    born: map<Id, nat>)

  const EMPTY_DB := Db(map[], map[], map[], map[], 0, map[], [], map[])

  datatype Label =
    | Check(t: nat, op: Op)
    | Insert(t: nat, id: Id, now: Time)
    | Lock(t: nat, now: Time)
    | Number(t: nat)
    | Commit(t: nat)
    | Abort(t: nat)
    | AddChat(chat: Id)
    | Join(chat: Id, user: Id)
    | Leave(chat: Id, user: Id)

  function Held(txn: Txn): set<RowKey> {
    match txn.stage
    case Checked => {}
    case Inserted(m) => {MessageRow(m.id)}
    case Written(e, _) => Locks(e)
    case Numbered(e, _, _) => Locks(e)
  }

  /** No transaction other than `t` holds `key`. */
  predicate Free(db: Db, key: RowKey, t: nat) {
    forall u :: u in db.txs && u != t ==> key !in Held(db.txs[u])
  }

  predicate Unlocked(db: Db, key: RowKey) {
    forall u :: u in db.txs ==> key !in Held(db.txs[u])
  }

  predicate IsLive(db: Db, id: Id) {
    id in db.messages && db.messages[id].deletedAt.None?
  }

  /** The reads `MessageService` makes before it calls the writer. */
  predicate ServiceAccepts(db: Db, op: Op) {
    match op
    case Create(sender, chat, text, reply) =>
      && Acceptable(text) && (chat, sender) in db.members
      && (reply.Some? ==> IsLive(db, reply.value) && db.messages[reply.value].chat == chat)
    case Update(actor, chat, id, text) =>
      && Acceptable(text) && IsLive(db, id) && db.messages[id].chat == chat && (chat, actor) in db.members
      && db.messages[id].sender == actor && db.messages[id].kind in {Text, System}
    case Delete(actor, chat, id, _) =>
      && IsLive(db, id) && db.messages[id].chat == chat && (chat, actor) in db.members
      && db.messages[id].sender == actor
    case Read(user, chat, upTo) =>
      && IsLive(db, upTo) && db.messages[upTo].chat == chat && (chat, user) in db.members
  }

  /** The event a transaction commits to once its UPDATE has found and locked its row;
      None when the UPDATE affects no row. */
  function LockedWrite(db: Db, txn: Txn, now: Time): Option<Event> {
    match (txn.op, txn.stage)
    case (Create(_, chat, _, _), Inserted(m)) =>
      if chat in db.chats then Some(Created(EncodeWire(m))) else None
    case (Update(_, chat, id, text), Checked) =>
      if IsLive(db, id) && db.messages[id].chat == chat
      then Some(Updated(EncodeWire(db.messages[id].(text := Some(text), updatedAt := now))))
      else None
    case (Delete(_, chat, id, at), Checked) =>
      if IsLive(db, id) && db.messages[id].chat == chat then Some(Deleted(id, chat, at)) else None
    case (Read(user, chat, upTo), Checked) =>
      if (chat, user) in db.members then Some(ReadReceipt(chat, user, upTo)) else None
    case _ => None
  }

  predicate Enabled(db: Db, l: Label) {
    match l
    case Check(t, op) => t !in db.txs && ServiceAccepts(db, op)
    case Insert(t, id, _) =>
      && t in db.txs && db.txs[t].op.Create? && db.txs[t].stage.Checked?
      && id !in db.messages && Unlocked(db, MessageRow(id))
      && db.txs[t].op.chat in db.chats
    case Lock(t, now) =>
      && t in db.txs && LockedWrite(db, db.txs[t], now).Some?
      && forall key :: key in Locks(LockedWrite(db, db.txs[t], now).value) ==> Free(db, key, t)
    case Number(t) => t in db.txs && db.txs[t].stage.Written?
    case Commit(t) => t in db.txs && db.txs[t].stage.Numbered?
    case Abort(t) => t in db.txs
    case AddChat(chat) => chat !in db.chats
    case Join(chat, user) => chat in db.chats && (chat, user) !in db.members
    case Leave(chat, user) => (chat, user) in db.members && Unlocked(db, MemberRow(chat, user))
  }

  /** The table changes of a committed event. */
  function Apply(db: Db, e: Event, now: Time): Db {
    match e
    case Created(w) =>
      db.(messages := db.messages[w.id := LiveMessage(w)],
          chats := db.chats[w.chat := Some(w.id)],
          born := db.born[w.id := |db.commits|])
    case Updated(w) => db.(messages := db.messages[w.id := LiveMessage(w)])
    case Deleted(id, _, _) =>
      if id in db.messages
      then db.(messages := db.messages[id := db.messages[id].(deletedAt := Some(now), updatedAt := now)])
      else db
    case ReadReceipt(chat, user, upTo) => db.(members := db.members[(chat, user) := Some(upTo)])
  }

  function CommitTxn(db: Db, t: nat): Db
    requires Enabled(db, Commit(t))
  {
    var Numbered(e, now, oid) := db.txs[t].stage;
    Apply(db, e, now).(txs := db.txs - {t}, outbox := db.outbox[oid := e], commits := db.commits + [oid])
  }

  function Next(db: Db, l: Label): Db {
    if !Enabled(db, l) then db else
    match l
    case Check(t, op) => db.(txs := db.txs[t := Txn(op, Checked)])
    case Insert(t, id, now) =>
      var op := db.txs[t].op;
      var m := Message(id, op.chat, op.sender, Text, Some(op.text), op.reply, now, now, None);
      db.(txs := db.txs[t := Txn(op, Inserted(m))])
    case Lock(t, now) =>
      db.(txs := db.txs[t := Txn(db.txs[t].op, Written(LockedWrite(db, db.txs[t], now).value, now))])
    case Number(t) =>
      var Written(e, now) := db.txs[t].stage;
      db.(txs := db.txs[t := Txn(db.txs[t].op, Numbered(e, now, db.nextId))], nextId := db.nextId + 1)
    case Commit(t) => CommitTxn(db, t)
    case Abort(t) => db.(txs := db.txs - {t})
    case AddChat(chat) => db.(chats := db.chats[chat := None])
    case Join(chat, user) => db.(members := db.members[(chat, user) := None])
    case Leave(chat, user) => db.(members := db.members - {(chat, user)})
  }

  function Exec(ls: seq<Label>): Db {
    if ls == [] then EMPTY_DB else Next(Exec(ls[..|ls| - 1]), ls[|ls| - 1])
  }
}
