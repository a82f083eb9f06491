/** Entities shared by the message writer, the outbox relay and the history queries. */
module Domain {

  datatype Option<+T> = None | Some(value: T)

  // UUIDs are canonical values with PostgreSQL's total order; timestamps are instants.
  type Id = nat
  type Time = int

  datatype MessageType = Text | Image | File | System

  /** A row of the `messages` table. */
  datatype Message = Message(
    id: Id, chat: Id, sender: Id, kind: MessageType, text: Option<string>, reply: Option<Id>,
    createdAt: Time, updatedAt: Time, deletedAt: Option<Time>)

  /** What `encodeMessageWireJSON` keeps of a message: everything but the deletion mark. */
  datatype WireMessage = WireMessage(
    id: Id, chat: Id, sender: Id, kind: MessageType, text: Option<string>, reply: Option<Id>,
    createdAt: Time, updatedAt: Time)

  function EncodeWire(m: Message): WireMessage {
    WireMessage(m.id, m.chat, m.sender, m.kind, m.text, m.reply, m.createdAt, m.updatedAt)
  }

  function LiveMessage(w: WireMessage): Message {
    Message(w.id, w.chat, w.sender, w.kind, w.text, w.reply, w.createdAt, w.updatedAt, None)
  }

  /** The content of an outbox row, one constructor per event type. */
  datatype Event =
    | Created(msg: WireMessage)
    | Updated(msg: WireMessage)
    | Deleted(id: Id, chat: Id, at: Time)
    | ReadReceipt(chat: Id, user: Id, upTo: Id)

  /** Rows a writer transaction locks before it numbers its outbox row. */
  datatype RowKey = MessageRow(id: Id) | ChatRow(chat: Id) | MemberRow(chat: Id, user: Id)

  function Locks(e: Event): set<RowKey> {
    match e
    case Created(w) => {MessageRow(w.id), ChatRow(w.chat)}
    case Updated(w) => {MessageRow(w.id)}
    case Deleted(id, _, _) => {MessageRow(id)}
    case ReadReceipt(chat, user, _) => {MemberRow(chat, user)}
  }

  /** Same message, two creates in one chat, or one member's receipts. */
  predicate Conflict(e: Event, f: Event) {
    !(Locks(e) !! Locks(f))
  }

  lemma ConflictSymmetric(e: Event, f: Event)
    ensures Conflict(e, f) <==> Conflict(f, e)
  {
  }

  /** Which events conflict, seen from their contents: two about one message, two creates in one
      chat, two receipts of one member. */
  lemma ConflictIff(e: Event, f: Event)
    ensures Conflict(e, f)
            <==> (match (e, f)
                  case (Created(w), Created(v)) => w.id == v.id || w.chat == v.chat
                  case (Created(w), Updated(v)) => w.id == v.id
                  case (Created(w), Deleted(id, _, _)) => w.id == id
                  case (Updated(w), Created(v)) => w.id == v.id
                  case (Updated(w), Updated(v)) => w.id == v.id
                  case (Updated(w), Deleted(id, _, _)) => w.id == id
                  case (Deleted(id, _, _), Created(v)) => id == v.id
                  case (Deleted(id, _, _), Updated(v)) => id == v.id
                  case (Deleted(id, _, _), Deleted(id2, _, _)) => id == id2
                  case (ReadReceipt(chat, user, _), ReadReceipt(chat2, user2, _)) => chat == chat2 && user == user2
                  case _ => false)
  {
  }

  /** The broker key of an event: its chat, so that conflicting events share a partition. */
  function PartitionKey(e: Event): Id {
    match e
    case Created(w) => w.chat
    case Updated(w) => w.chat
    case Deleted(_, chat, _) => chat
    case ReadReceipt(chat, _, _) => chat
  }
}
