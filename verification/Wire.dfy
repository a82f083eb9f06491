/** Event payloads, domain events and WebSocket envelopes as JSON, and the two ways an outbox
    row reaches a chat: published locally, or through the broker and its consumer.

    JSON text is produced and read by a printer and a parser given as parameters. */
module Wire {
  import opened Domain

  /** The member names used by payloads, domain events and envelopes. */
  datatype Name =
    | ID | CHAT_ID | SENDER_ID | TYPE | TEXT | REPLY_TO_ID | CREATED_AT | UPDATED_AT | DELETED_AT
    | USER_ID | LAST_READ_MESSAGE_ID
    | EVENT_ID | EVENT_TYPE | AGGREGATE_TYPE | AGGREGATE_ID | OCCURRED_AT | VERSION | PAYLOAD
    | EVENT | DATA | META
    | OTHER(name: string)

  datatype Json =
    | JNull
    | JBool(flag: bool)
    | JNum(num: int)
    | JStr(text: string)
    | JArr(items: seq<Json>)
    | JObj(members: map<Name, Json>)

  const EMPTY_OBJECT := JObj(map[])

  /** JSON text, and the text forms of ids and timestamps, with their readers. */
  datatype Codec = Codec(
    show: Json -> string, parse: string -> Option<Json>,
    idText: Id -> string, readId: string -> Option<Id>,
    timeText: Time -> string, readTime: string -> Option<Time>)

  ghost predicate Faithful(c: Codec) {
    && (forall v :: c.parse(c.show(v)) == Some(v))
    && c.parse("").None?
    && (forall id: Id :: c.readId(c.idText(id)) == Some(id))
    && (forall t :: c.readTime(c.timeText(t)) == Some(t))
  }

  // ---- Rows and the domain events made from them ----

  /** A row as `FetchPending` scans it. A payload is nil, or raw text. */
  datatype OutboxRow = OutboxRow(
    eventId: string, eventType: string, aggregateType: string, aggregateId: string,
    chat: Option<string>, occurredAt: Time, version: int, payload: Option<string>)

  datatype DomainEvent = DomainEvent(
    eventId: string, eventType: string, aggregateType: string, aggregateId: string,
    chat: string, occurredAt: Time, version: int, payload: Option<string>)

  function EventOfRow(row: OutboxRow): DomainEvent {
    DomainEvent(row.eventId, row.eventType, row.aggregateType, row.aggregateId,
                if row.chat.Some? then row.chat.value else "", row.occurredAt, row.version, row.payload)
  }

  /** A nil raw message marshals as null; any other text must itself be JSON. */
  function RawValue(c: Codec, raw: Option<string>): Option<Json> {
    if raw.None? then Some(JNull) else c.parse(raw.value)
  }

  /** `chat_id` is left out when empty. */
  function Marshal(c: Codec, ev: DomainEvent): Option<string> {
    match RawValue(c, ev.payload)
    case None => None
    case Some(payload) =>
      var always := map[
        EVENT_ID := JStr(ev.eventId), EVENT_TYPE := JStr(ev.eventType),
        AGGREGATE_TYPE := JStr(ev.aggregateType), AGGREGATE_ID := JStr(ev.aggregateId),
        OCCURRED_AT := JStr(c.timeText(ev.occurredAt)), VERSION := JNum(ev.version), PAYLOAD := payload];
      Some(c.show(JObj(if ev.chat == "" then always else always[CHAT_ID := JStr(ev.chat)])))
  }

  /** A string member: absent and null both read as "", any other type is an error. */
  function StringMember(m: map<Name, Json>, name: Name): Option<string> {
    if name !in m || m[name].JNull? then Some("")
    else if m[name].JStr? then Some(m[name].text)
    else None
  }

  /** Reading a domain event back; a payload member is kept as its raw text, null included. */
  function Unmarshal(c: Codec, raw: string): Option<DomainEvent> {
    match c.parse(raw)
    case Some(JObj(m)) =>
      var eventId, eventType := StringMember(m, EVENT_ID), StringMember(m, EVENT_TYPE);
      var aggregateType, aggregateId := StringMember(m, AGGREGATE_TYPE), StringMember(m, AGGREGATE_ID);
      var chat, at := StringMember(m, CHAT_ID), StringMember(m, OCCURRED_AT);
      if eventId.None? || eventType.None? || aggregateType.None? || aggregateId.None? || chat.None? || at.None?
      then None
      else if c.readTime(at.value).None? || VERSION !in m || !m[VERSION].JNum? then None
      else Some(DomainEvent(eventId.value, eventType.value, aggregateType.value, aggregateId.value, chat.value,
                            c.readTime(at.value).value, m[VERSION].num,
                            if PAYLOAD in m then Some(c.show(m[PAYLOAD])) else None))
    case _ => None
  }

  /** The members of a marshalled event. */
  ghost predicate EventMembers(c: Codec, ev: DomainEvent, m: map<Name, Json>) {
    && {EVENT_ID, EVENT_TYPE, AGGREGATE_TYPE, AGGREGATE_ID, OCCURRED_AT, VERSION, PAYLOAD} <= m.Keys
    && m[EVENT_ID] == JStr(ev.eventId) && m[EVENT_TYPE] == JStr(ev.eventType)
    && m[AGGREGATE_TYPE] == JStr(ev.aggregateType) && m[AGGREGATE_ID] == JStr(ev.aggregateId)
    && m[OCCURRED_AT] == JStr(c.timeText(ev.occurredAt)) && m[VERSION] == JNum(ev.version)
    && RawValue(c, ev.payload) == Some(m[PAYLOAD])
    && (if ev.chat == "" then CHAT_ID !in m else CHAT_ID in m && m[CHAT_ID] == JStr(ev.chat))
  }

  lemma EventMarshals(c: Codec, ev: DomainEvent) returns (m: map<Name, Json>)
    requires Marshal(c, ev).Some?
    ensures Marshal(c, ev) == Some(c.show(JObj(m))) && EventMembers(c, ev, m)
  {
    var always := map[
      EVENT_ID := JStr(ev.eventId), EVENT_TYPE := JStr(ev.eventType),
      AGGREGATE_TYPE := JStr(ev.aggregateType), AGGREGATE_ID := JStr(ev.aggregateId),
      OCCURRED_AT := JStr(c.timeText(ev.occurredAt)), VERSION := JNum(ev.version),
      PAYLOAD := RawValue(c, ev.payload).value];
    m := if ev.chat == "" then always else always[CHAT_ID := JStr(ev.chat)];
  }

  lemma EventUnmarshals(c: Codec, ev: DomainEvent, m: map<Name, Json>, raw: string)
    requires Faithful(c) && EventMembers(c, ev, m) && raw == c.show(JObj(m))
    ensures Unmarshal(c, raw) == Some(ev.(payload := Some(c.show(m[PAYLOAD]))))
  {
    assert c.parse(raw) == Some(JObj(m));
  }

  /** What the broker receives for a row, member by member: nothing when the payload is no JSON
      text, otherwise the row's columns, a missing payload as null, the chat left out when absent. */
  lemma BrokerReceives(c: Codec, row: OutboxRow) returns (m: map<Name, Json>)
    requires Faithful(c)
    ensures Marshal(c, EventOfRow(row)).None? <==> row.payload.Some? && c.parse(row.payload.value).None?
    ensures Marshal(c, EventOfRow(row)).Some? ==>
              && c.parse(Marshal(c, EventOfRow(row)).value) == Some(JObj(m))
              && {EVENT_ID, EVENT_TYPE, AGGREGATE_TYPE, AGGREGATE_ID, OCCURRED_AT, VERSION, PAYLOAD} <= m.Keys
              && m[EVENT_ID] == JStr(row.eventId) && m[EVENT_TYPE] == JStr(row.eventType)
              && m[AGGREGATE_TYPE] == JStr(row.aggregateType) && m[AGGREGATE_ID] == JStr(row.aggregateId)
              && m[OCCURRED_AT] == JStr(c.timeText(row.occurredAt)) && m[VERSION] == JNum(row.version)
              && m[PAYLOAD] == (if row.payload.None? then JNull else c.parse(row.payload.value).value)
              && (if row.chat.None? || row.chat.value == "" then CHAT_ID !in m
                  else CHAT_ID in m && m[CHAT_ID] == JStr(row.chat.value))
  {
    if Marshal(c, EventOfRow(row)).Some? {
      m := EventMarshals(c, EventOfRow(row));
      assert c.parse(c.show(JObj(m))) == Some(JObj(m));
    } else {
      m := map[];
    }
  }

  /** The consumer reads back the event that was published; its payload is the same JSON value. */
  lemma DomainEventRoundTrip(c: Codec, ev: DomainEvent)
    requires Faithful(c) && Marshal(c, ev).Some?
    ensures var back := Unmarshal(c, Marshal(c, ev).value);
            && back.Some? && back.value == ev.(payload := back.value.payload)
            && back.value.payload.Some? && RawValue(c, back.value.payload) == RawValue(c, ev.payload)
  {
    var m := EventMarshals(c, ev);
    EventUnmarshals(c, ev, m, Marshal(c, ev).value);
    assert c.parse(c.show(m[PAYLOAD])) == Some(m[PAYLOAD]);
  }

  // ---- The two deliveries ----

  datatype Delivery = Nothing | Deliver(chat: string, envelope: string)

  /** Missing data becomes an empty object. */
  function MarshalEnvelope(c: Codec, event: string, data: Json): string {
    c.show(JObj(map[EVENT := JStr(event), DATA := if data.JNull? then EMPTY_OBJECT else data, META := EMPTY_OBJECT]))
  }

  /** The data of an envelope: an empty payload counts as an empty object. */
  function PayloadData(c: Codec, payload: Option<string>): Option<Json> {
    if payload.Some? && payload.value != "" then c.parse(payload.value) else Some(EMPTY_OBJECT)
  }

  /** Local mode. `tick` marshals the domain event first in either mode and skips the row when
      that fails. */
  function DeliverLocally(c: Codec, row: OutboxRow): Delivery {
    if Marshal(c, EventOfRow(row)).None? || row.chat.None? then Nothing
    else
      match PayloadData(c, row.payload)
      case None => Nothing
      case Some(data) => Deliver(row.chat.value, MarshalEnvelope(c, row.eventType, data))
  }

  function Fanout(c: Codec, raw: string): Delivery {
    match Unmarshal(c, raw)
    case None => Nothing
    case Some(ev) =>
      if ev.chat == "" then Nothing
      else
        match PayloadData(c, ev.payload)
        case None => Nothing
        case Some(data) => Deliver(ev.chat, MarshalEnvelope(c, ev.eventType, data))
  }

  function DeliverThroughBroker(c: Codec, row: OutboxRow): Delivery {
    match Marshal(c, EventOfRow(row))
    case None => Nothing
    case Some(raw) => Fanout(c, raw)
  }

  lemma PrintedPayload(c: Codec, v: Json)
    requires Faithful(c)
    ensures PayloadData(c, Some(c.show(v))) == Some(v)
  {
    assert c.parse(c.show(v)) == Some(v);
  }

  /** Local mode and broker mode hand the same envelope to the same chat for every row, null,
      nil, empty and malformed payloads included, unless the row has an empty chat id (which
      the uuid column cannot hold) and a payload that marshals. */
  lemma ModesAgreeIff(c: Codec, row: OutboxRow)
    requires Faithful(c)
    ensures DeliverLocally(c, row) == DeliverThroughBroker(c, row)
            <==> row.chat != Some("") || RawValue(c, row.payload).None?
  {
    var ev := EventOfRow(row);
    if Marshal(c, ev).Some? {
      DomainEventRoundTrip(c, ev);
      var v := RawValue(c, ev.payload).value;
      var back := Unmarshal(c, Marshal(c, ev).value).value;
      assert PayloadData(c, back.payload) == Some(v) by {
        PrintedPayload(c, v);
      }
    }
  }

  /** What the chat of a row receives, in either mode: nothing without a chat or when the payload is
      no JSON text, otherwise the event's name with the payload as its data, a missing or null
      payload as an empty object. */
  lemma ChatReceives(c: Codec, row: OutboxRow)
    requires Faithful(c) && row.chat != Some("")
    ensures DeliverThroughBroker(c, row) == DeliverLocally(c, row)
    ensures DeliverLocally(c, row)
            == if row.chat.None? || (row.payload.Some? && c.parse(row.payload.value).None?) then Nothing
               else
                 var v := if row.payload.None? then JNull else c.parse(row.payload.value).value;
                 Deliver(row.chat.value,
                         c.show(JObj(map[EVENT := JStr(row.eventType), DATA := if v == JNull then JObj(map[]) else v,
                                         META := JObj(map[])])))
  {
    ModesAgreeIff(c, row);
  }

  // ---- What the writer puts into rows, and what a client can read out of envelopes ----

  function TypeName(k: MessageType): string {
    match k
    case Text => "text"
    case Image => "image"
    case File => "file"
    case System => "system"
  }

  function ReadType(s: string): Option<MessageType> {
    if s == "text" then Some(Text) else if s == "image" then Some(Image)
    else if s == "file" then Some(File) else if s == "system" then Some(System) else None
  }

  lemma TypeRoundTrip(k: MessageType)
    ensures ReadType(TypeName(k)) == Some(k)
  {
  }

  /** Absent text and reply are omitted. */
  function EncodeMessage(c: Codec, w: WireMessage): Json {
    var always := map[
      ID := JStr(c.idText(w.id)), CHAT_ID := JStr(c.idText(w.chat)), SENDER_ID := JStr(c.idText(w.sender)),
      TYPE := JStr(TypeName(w.kind)),
      CREATED_AT := JStr(c.timeText(w.createdAt)), UPDATED_AT := JStr(c.timeText(w.updatedAt))];
    var withText := if w.text.Some? then always[TEXT := JStr(w.text.value)] else always;
    JObj(if w.reply.Some? then withText[REPLY_TO_ID := JStr(c.idText(w.reply.value))] else withText)
  }

  function TextAt(m: map<Name, Json>, name: Name): Option<string> {
    if name in m && m[name].JStr? then Some(m[name].text) else None
  }

  function IdAt(c: Codec, m: map<Name, Json>, name: Name): Option<Id> {
    if TextAt(m, name).Some? then c.readId(TextAt(m, name).value) else None
  }

  function TimeAt(c: Codec, m: map<Name, Json>, name: Name): Option<Time> {
    if TextAt(m, name).Some? then c.readTime(TextAt(m, name).value) else None
  }

  function DecodeMessage(c: Codec, m: map<Name, Json>): Option<WireMessage> {
    var id, chat, sender := IdAt(c, m, ID), IdAt(c, m, CHAT_ID), IdAt(c, m, SENDER_ID);
    var kind := if TextAt(m, TYPE).Some? then ReadType(TextAt(m, TYPE).value) else None;
    var created, updated := TimeAt(c, m, CREATED_AT), TimeAt(c, m, UPDATED_AT);
    if id.None? || chat.None? || sender.None? || kind.None? || created.None? || updated.None? then None
    else Some(WireMessage(id.value, chat.value, sender.value, kind.value,
                          TextAt(m, TEXT), IdAt(c, m, REPLY_TO_ID), created.value, updated.value))
  }

  /** The members of an encoded message. */
  ghost predicate EncodedAs(c: Codec, w: WireMessage, m: map<Name, Json>) {
    && {ID, CHAT_ID, SENDER_ID, TYPE, CREATED_AT, UPDATED_AT} <= m.Keys
    && m[ID] == JStr(c.idText(w.id)) && m[CHAT_ID] == JStr(c.idText(w.chat)) && m[SENDER_ID] == JStr(c.idText(w.sender))
    && m[TYPE] == JStr(TypeName(w.kind))
    && m[CREATED_AT] == JStr(c.timeText(w.createdAt)) && m[UPDATED_AT] == JStr(c.timeText(w.updatedAt))
    && (if w.text.Some? then TEXT in m && m[TEXT] == JStr(w.text.value) else TEXT !in m)
    && (if w.reply.Some? then REPLY_TO_ID in m && m[REPLY_TO_ID] == JStr(c.idText(w.reply.value))
       else REPLY_TO_ID !in m)
  }

  lemma MessageEncoded(c: Codec, w: WireMessage)
    ensures EncodedAs(c, w, EncodeMessage(c, w).members)
  {
  }

  lemma IdReadBack(c: Codec, m: map<Name, Json>, name: Name, id: Id)
    requires Faithful(c) && name in m && m[name] == JStr(c.idText(id))
    ensures IdAt(c, m, name) == Some(id)
  {
  }

  lemma TimeReadBack(c: Codec, m: map<Name, Json>, name: Name, t: Time)
    requires Faithful(c) && name in m && m[name] == JStr(c.timeText(t))
    ensures TimeAt(c, m, name) == Some(t)
  {
  }

  lemma MessageDecoded(c: Codec, w: WireMessage, m: map<Name, Json>)
    requires Faithful(c) && EncodedAs(c, w, m)
    ensures DecodeMessage(c, m) == Some(w)
  {
    IdReadBack(c, m, ID, w.id);
    IdReadBack(c, m, CHAT_ID, w.chat);
    IdReadBack(c, m, SENDER_ID, w.sender);
    TimeReadBack(c, m, CREATED_AT, w.createdAt);
    TimeReadBack(c, m, UPDATED_AT, w.updatedAt);
    if w.reply.Some? {
      IdReadBack(c, m, REPLY_TO_ID, w.reply.value);
    }
    TypeRoundTrip(w.kind);
  }

  /** The wire form loses nothing: absent and empty text, absent and present replies survive. */
  lemma MessageRoundTrip(c: Codec, w: WireMessage)
    requires Faithful(c)
    ensures DecodeMessage(c, EncodeMessage(c, w).members) == Some(w)
  {
    MessageEncoded(c, w);
    MessageDecoded(c, w, EncodeMessage(c, w).members);
  }

  function EventName(e: Event): string {
    match e
    case Created(_) => "message.created"
    case Updated(_) => "message.updated"
    case Deleted(_, _, _) => "message.deleted"
    case ReadReceipt(_, _, _) => "message.read_receipt"
  }

  function Payload(c: Codec, e: Event): Json {
    match e
    case Created(w) => EncodeMessage(c, w)
    case Updated(w) => EncodeMessage(c, w)
    case Deleted(id, chat, at) =>
      JObj(map[ID := JStr(c.idText(id)), CHAT_ID := JStr(c.idText(chat)), DELETED_AT := JStr(c.timeText(at))])
    case ReadReceipt(chat, user, upTo) =>
      JObj(map[CHAT_ID := JStr(c.idText(chat)), USER_ID := JStr(c.idText(user)),
               LAST_READ_MESSAGE_ID := JStr(c.idText(upTo))])
  }

  function DecodeEvent(c: Codec, name: string, m: map<Name, Json>): Option<Event> {
    if name == "message.created" then
      var w := DecodeMessage(c, m); if w.Some? then Some(Created(w.value)) else None
    else if name == "message.updated" then
      var w := DecodeMessage(c, m); if w.Some? then Some(Updated(w.value)) else None
    else if name == "message.deleted" then
      var id, chat, at := IdAt(c, m, ID), IdAt(c, m, CHAT_ID), TimeAt(c, m, DELETED_AT);
      if id.Some? && chat.Some? && at.Some? then Some(Deleted(id.value, chat.value, at.value)) else None
    else if name == "message.read_receipt" then
      var chat, user, upTo := IdAt(c, m, CHAT_ID), IdAt(c, m, USER_ID), IdAt(c, m, LAST_READ_MESSAGE_ID);
      if chat.Some? && user.Some? && upTo.Some? then Some(ReadReceipt(chat.value, user.value, upTo.value)) else None
    else None
  }

  /** The row `insertOutboxTx` stores for an event; message events aggregate on the message,
      receipts on "user:message". */
  function RowOf(c: Codec, eventId: string, e: Event, at: Time): OutboxRow {
    var (kind, aggregate) :=
      match e
      case Created(w) => ("message", c.idText(w.id))
      case Updated(w) => ("message", c.idText(w.id))
      case Deleted(id, _, _) => ("message", c.idText(id))
      case ReadReceipt(_, user, upTo) => ("read_state", c.idText(user) + ":" + c.idText(upTo));
    OutboxRow(eventId, EventName(e), kind, aggregate, Some(c.idText(PartitionKey(e))), at, 1,
              Some(c.show(Payload(c, e))))
  }

  /** What is stored for an event, column by column. */
  lemma RowStored(c: Codec, eventId: string, e: Event, at: Time)
    requires Faithful(c)
    ensures var row := RowOf(c, eventId, e, at);
            && row.eventId == eventId && row.occurredAt == at && row.version == 1 && row.payload.Some?
            && match e
               case Created(w) =>
                 && row.eventType == "message.created" && row.chat == Some(c.idText(w.chat))
                 && row.aggregateType == "message" && row.aggregateId == c.idText(w.id)
                 && exists m :: EncodedAs(c, w, m) && c.parse(row.payload.value) == Some(JObj(m))
               case Updated(w) =>
                 && row.eventType == "message.updated" && row.chat == Some(c.idText(w.chat))
                 && row.aggregateType == "message" && row.aggregateId == c.idText(w.id)
                 && exists m :: EncodedAs(c, w, m) && c.parse(row.payload.value) == Some(JObj(m))
               case Deleted(id, chat, deleted) =>
                 && row.eventType == "message.deleted" && row.chat == Some(c.idText(chat))
                 && row.aggregateType == "message" && row.aggregateId == c.idText(id)
                 && c.parse(row.payload.value)
                    == Some(JObj(map[ID := JStr(c.idText(id)), CHAT_ID := JStr(c.idText(chat)),
                                     DELETED_AT := JStr(c.timeText(deleted))]))
               case ReadReceipt(chat, user, upTo) =>
                 && row.eventType == "message.read_receipt" && row.chat == Some(c.idText(chat))
                 && row.aggregateType == "read_state" && row.aggregateId == c.idText(user) + ":" + c.idText(upTo)
                 && c.parse(row.payload.value)
                    == Some(JObj(map[CHAT_ID := JStr(c.idText(chat)), USER_ID := JStr(c.idText(user)),
                                     LAST_READ_MESSAGE_ID := JStr(c.idText(upTo))]))
  {
    assert c.parse(c.show(Payload(c, e))) == Some(Payload(c, e));
    if e.Created? || e.Updated? {
      MessageEncoded(c, e.msg);
      assert EncodedAs(c, e.msg, EncodeMessage(c, e.msg).members);
    }
  }

  function ReadEnvelope(c: Codec, envelope: string): Option<Event> {
    match c.parse(envelope)
    case Some(JObj(m)) =>
      if EVENT in m && m[EVENT].JStr? && DATA in m && m[DATA].JObj?
      then DecodeEvent(c, m[EVENT].text, m[DATA].members) else None
    case _ => None
  }

  lemma PayloadRoundTrip(c: Codec, e: Event)
    requires Faithful(c)
    ensures Payload(c, e).JObj? && DecodeEvent(c, EventName(e), Payload(c, e).members) == Some(e)
  {
    match e
    case Created(w) => MessageRoundTrip(c, w);
    case Updated(w) => MessageRoundTrip(c, w);
    case Deleted(_, _, _) =>
    case ReadReceipt(_, _, _) =>
  }

  /** An envelope around a payload reads back as the event. */
  lemma EnvelopeReads(c: Codec, e: Event)
    requires Faithful(c)
    ensures ReadEnvelope(c, MarshalEnvelope(c, EventName(e), Payload(c, e))) == Some(e)
  {
    PayloadRoundTrip(c, e);
    var envelope := JObj(map[EVENT := JStr(EventName(e)), DATA := Payload(c, e), META := EMPTY_OBJECT]);
    assert MarshalEnvelope(c, EventName(e), Payload(c, e)) == c.show(envelope);
    assert c.parse(c.show(envelope)) == Some(envelope);
  }

  /** A row the writer stored is delivered with its payload. */
  lemma RowDelivered(c: Codec, eventId: string, e: Event, at: Time)
    requires Faithful(c)
    ensures DeliverLocally(c, RowOf(c, eventId, e, at))
            == Deliver(c.idText(PartitionKey(e)), MarshalEnvelope(c, EventName(e), Payload(c, e)))
  {
    PrintedPayload(c, Payload(c, e));
    assert RawValue(c, RowOf(c, eventId, e, at).payload) == Some(Payload(c, e));
  }

  /** From writer to client: in either mode the chat of a committed event receives an envelope
      from which exactly that event can be read. */
  lemma EnvelopeCarriesEvent(c: Codec, eventId: string, e: Event, at: Time)
    requires Faithful(c) && c.idText(PartitionKey(e)) != ""
    ensures var d := DeliverThroughBroker(c, RowOf(c, eventId, e, at));
            && d == DeliverLocally(c, RowOf(c, eventId, e, at))
            && d.Deliver? && d.chat == c.idText(PartitionKey(e)) && ReadEnvelope(c, d.envelope) == Some(e)
  {
    ModesAgreeIff(c, RowOf(c, eventId, e, at));
    RowDelivered(c, eventId, e, at);
    EnvelopeReads(c, e);
  }
}
