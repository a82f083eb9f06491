# gomsg in Dafny

A Dafny model of the parts of the gomsg chat backend where several actors share state, and proofs
of what every run of them keeps.

* **Outbox and relay.** `Writer` models the four message transactions of the PostgreSQL writer as
  interleaved steps: service reads, row locks, taking an outbox id from the sequence, commit or
  rollback. `Relay` adds any number of relays that fetch, publish and mark without locks, crash
  anywhere, and append to one log. `Changelog` shows that the outbox rebuilds the tables,
  `RelayCopies` bounds duplicates, `RelayTick` has the tick loop itself, `RelayOrder` and
  `RelayRunOrder` say exactly when a tick and a run keep commit order, `RelayDelivery` bounds
  delivery, and `RelayCounterexamples` has the runs that show where the ordering guarantee ends.
  `Requests` ties every published event to the one checked request behind it. `MessageWriter` holds
  the writer and the message service as classes, proved equal to schedules of `Writer`, with the cleaning of texts in
  `MessageText` and `StoredTexts`. `Wire` follows a row through JSON, locally and through the broker.
* **History.** `History` has keyset pages and unread counts over tables that change between requests.
* **Rate limiter.** `RateLimiter` and `RateLimiterExact` compare idle eviction with a map that never
  evicts; `RateLimiterTight` has the exact rule behind every decision.
* **Chats, sessions, hub, migrations.** `ChatService` (with `ChatTables` and `DirectKey`),
  `Sessions` (with `SessionRaces`), `Hub` and `Migration`.

Runs are sequences of labels. A step that is not enabled (its lock is taken, its WHERE clause
matches nothing, its call is in another phase) changes nothing, so a lemma about all label
sequences is a statement about all interleavings. History variables (`commits`, `born`, `done`,
`faults`, `parent`, `chain`, `logins`, `offered`, `kept`, `full`) record a run and decide nothing.

Ids are canonical values with PostgreSQL's total order. Clocks, fresh ids, broker answers, lost
commits and crashes are arguments of the steps. JSON printing and parsing, the text forms of ids
and times, and the key digest are parameters with the stated assumptions: printing is undone by
parsing (the value model is that of section 3 of RFC 8259), and the digest is injective.

Two sentences of the repository's own README.md say more than the code does:

* Line 32 promises in-chat ordering from keying the topic by chat. The code gives it to conflicting
  events only (same message, two creates in one chat, one member's receipts), and only while no
  publish is lost: `tick` goes on to later rows after a failed publish. See
  `RelayCounterexamples.SameChatEditsMayReorder`, `RelayCounterexamples.LostPublishOvertakes`, and
  the exact conditions: `RelayRunOrder.RunKeepsIff` for a run, `RelayRunOrder.ChatOrderIff` for all
  loss-free runs, `RelayOrder.TickKeepsChatOrderIff` and `RelayOrder.TickKeepsConflictOrderIff` for a tick.
* Line 20 says nothing is lost between the row and the WebSocket. The model proves it up to the
  log (`Relay.NoLossNoPhantom`). Beyond it a client's queue drops a frame exactly when it is full
  (`Hub.QueueFaithful`), and the consumer skips a failed fan-out, which is not part of this model.

Six more places where the code does less than one would expect, each with its exact condition:

* A burst above ten times the rate, which only a caller other than `app.go` can ask for, lets
  eviction grant a second burst (`RateLimiterExact.WindowBoundIff`).
* A crash between creating a direct chat and adding its members locks the pair out for good
  (`ChatService.CrashStrands`, `ChatService.OpenableIff`).
* A caller of `CreateDirect` who loses the race is refused exactly when the winner has not added the
  members before the caller's membership is read (`ChatService.RefusedIff`).
* Ids may be spelled in either case, and the check against oneself and the direct key compare the
  spellings: two spellings of one user make a pair, and one pair of users can have several chats.
  Keys agree exactly for the same two strings (`DirectKey.KeyIdentifiesPair`).
* A logout whose session is rotated between its lookup and its revocation leaves the chain active
  (`Sessions.LogoutEndsIff`).
* A rotation that is uncommitted when a logout-all starts outlives it
  (`SessionRaces.RotationOutlives`, `SessionRaces.LogoutAllEndsIff`).

## Model

| member | source | states |
|---|---|---|
| `WriterInvariants.InvStep` | backend/internal/repository/postgres/message_writer.go:29-188 | each step of any writer keeps locks exclusive, ids unused, replies, cursors and last messages inside their chat, and a waiting transaction numbered above every committed conflicting row |
| `WriterInvariants.Reachable` | backend/internal/repository/postgres/message_writer.go:29-223 | the same invariant in every state of every interleaving |
| `WriterInvariants.CommitKeepsTxn` | backend/internal/repository/postgres/message_writer.go:79-90 | the row locks keep one commit from invalidating another open transaction |
| `WriterInvariants.KeepNumberedLast` | backend/internal/repository/postgres/message_writer.go:105-135 | because the lock is taken before the outbox id, a transaction's id is above the ids of all committed conflicting rows |
| `WriterInvariants.CommitExtendsOrder` | backend/internal/repository/postgres/message_writer.go:79-90 | conflicting events commit in the order of their outbox ids |
| `WriterInvariants.ConflictSharesPartition` | backend/internal/worker/outbox_relay.go:84-91 | in every run conflicting events have the same broker key, so they share a partition |
| `WriterInvariants.KeyedByChat` | backend/internal/worker/outbox_relay.go:74-87 | in every run the broker key of a row is the chat its message is stored under |
| `Domain.ConflictIff` | backend/internal/repository/postgres/message_writer.go:39-90 | the row locks make two events conflict exactly when they are about one message, create two messages of one chat, or move one member's cursor |
| `Requests.TransactionsFaithful` | backend/internal/repository/postgres/message_writer.go:93-188 | in every run an open transaction has written exactly what its request asked: sender, chat, text and reply of a create, the text and the time of an edit with the rest of the row as committed, the message of a deletion, the member and message of a receipt |
| `Requests.OneRequestPerEvent` | backend/internal/service/message_service.go:125-151 | in every run each outbox row has a request of its own behind it, which a check of the run let through, and says what it asked: nothing is published unasked, or twice for one request |
| `Requests.MessageKept` | backend/internal/repository/postgres/message_writer.go:105-111 | whatever is committed later, a message keeps its sender, chat, kind, reply and creation time |
| `Requests.EditAskedByAuthor` | backend/internal/service/message_service.go:178-235 | in every run a published edit was asked for, with that text, by the author of its message, who was a member of the chat at the time of the check, while the message was live; only text and system messages are edited |
| `Requests.DeletionAskedByAuthor` | backend/internal/service/message_service.go:237-279 | in every run a published deletion was asked for by the author of its message, a member of the chat at the time of the check, while the message was live |
| `Requests.CreationAskedByMember` | backend/internal/service/message_service.go:81-151 | in every run a created message was asked for by its sender, a member of the chat at the time of the check, with a text that is not empty and has at most 8000 bytes, and the message it answers was live in the same chat |
| `Requests.ReceiptAskedByMember` | backend/internal/service/message_service.go:281-323 | in every run a published receipt was asked for by its reader, a member of the chat at the time of the check, for the message it names, live in that chat |
| `Changelog.FoldCommutes` | backend/internal/repository/postgres/message_writer.go:145-161 | folding two events that lock no common row gives the same view in either order |
| `Changelog.ReplayInsert` | backend/internal/repository/postgres/message_writer.go:200-223 | a row committed late, below rows it does not conflict with, acts in a replay as if it came last |
| `Changelog.ReplayRebuildsTables` | backend/internal/repository/postgres/message_writer.go:62-90 | folding the committed rows of any run in id order rebuilds exactly the live messages field by field, the deleted ids and each chat's last message, and has every cursor a member has |
| `Changelog.ReplayRebuildsCursors` | backend/internal/repository/postgres/message_writer.go:164-188 | in runs in which nobody leaves a chat, the replayed cursors are exactly the members' cursors |
| `StoredTexts.TextsAcceptable` | backend/internal/service/message_service.go:95-101 | in every run each stored and each published text is trimmed, not empty and at most 8000 bytes long |
| `StoredTexts.StoredTextsClean` | backend/internal/service/message_service.go:195-213 | the same with the conditions written out: no white space at either end, not empty, at most 8000 bytes |
| `MessageText.SpacesAre` | backend/internal/service/message_service.go:95-95 | the white space that is trimmed, character by character |
| `MessageText.ByteLengthIs` | backend/internal/service/message_service.go:99-101 | the length that is limited is that of the text in UTF-8 (section 3 of RFC 3629) |
| `MessageText.Utf8RoundTrip` | backend/internal/service/message_service.go:99-101 | each character has one to four bytes, from which it can be read again |
| `MessageText.TrimSpaceSpec` | backend/internal/service/message_service.go:95-101 | trimming cuts the white space off both ends, all of it and nothing else |
| `Changelog.EventLifecycle` | backend/internal/repository/postgres/message_writer.go:100-111 | in every run a message's events are one created, then updated, then at most one deleted, and the row is live exactly until the deleted |
| `Changelog.RepliesWellFounded` | backend/internal/service/message_service.go:102-123 | following reply links stays in the chat, never returns to the start and takes fewer links than there are commits, in every run |
| `MessageWriter.LoneTransaction` | backend/internal/repository/postgres/message_writer.go:190-198 | lock, number and end of a transaction running alone give its statements' effect at once; a lost commit costs only the id |
| `MessageWriter.LoneInsert` | backend/internal/repository/postgres/message_writer.go:39-90 | the labels of a lone create leave the row, the chat's last message, the outbox row and the next id, or nothing when the chat is unknown, or only a used id when the commit is lost |
| `MessageWriter.LoneUpdate` | backend/internal/repository/postgres/message_writer.go:93-188 | the same labels for an edit, a soft delete or a receipt leave its effect at once, and nothing when its UPDATE finds no row; what the effect is, the three methods below write out |
| `MessageWriter.MessageWriter.CreateMessageWithOutbox` | backend/internal/repository/postgres/message_writer.go:29-91 | the tables are those of the schedule of writer steps and, written out: the new row, the chat's last message, the created event under the next id, everything else as before; or nothing but a used id when the commit is lost, nothing at all when the chat is unknown |
| `MessageWriter.MessageWriter.UpdateMessageTextWithOutbox` | backend/internal/repository/postgres/message_writer.go:93-136 | same: the row with the given text and time, its updated event, everything else as before; not found exactly when the message is missing, deleted or in another chat |
| `MessageWriter.MessageWriter.SoftDeleteMessageWithOutbox` | backend/internal/repository/postgres/message_writer.go:138-162 | same: the row marked deleted at the given time, the deleted event for it; a second delete is not found |
| `MessageWriter.MessageWriter.UpdateMemberReadWithOutbox` | backend/internal/repository/postgres/message_writer.go:164-188 | same: the member's cursor at the given message, the receipt for it; not found exactly when the member row is missing |
| `MessageWriter.MessageService.Create` | backend/internal/service/message_service.go:81-151 | accepted exactly when the sender is a member, the trimmed text is neither empty nor over 8000 bytes, and the reply is a live message of the chat; then the row, last message and event are those of the arguments, otherwise no row changes; the tables are those of the schedule check, insert, lock, number, end |
| `MessageWriter.MessageService.Patch` | backend/internal/service/message_service.go:178-235 | accepted exactly when the message is a live text or system message of the actor, who is still a member, and the trimmed text is acceptable; then that row gets the text and the time and the event is its; otherwise nothing changes |
| `MessageWriter.MessageService.Delete` | backend/internal/service/message_service.go:237-279 | accepted exactly when the message is a live one of the actor, who is still a member; then that row is marked and the event names it; otherwise nothing changes |
| `MessageWriter.MessageService.MarkRead` | backend/internal/service/message_service.go:281-323 | accepted exactly when the message is live and the user is in its chat; then the user's cursor in that chat and the receipt are the message named; otherwise nothing changes |
| `Relay.LowestSpec` | backend/internal/repository/postgres/outbox_repository.go:30-35 | the fetch returns ascending pending ids, as many as fit, each below every pending id it leaves out |
| `Relay.FetchOrdered` | backend/internal/worker/outbox_relay.go:56-63 | a batch that holds a row also holds every row ahead of it that is not in the log yet |
| `Relay.RunConserves` | backend/internal/worker/outbox_relay.go:89-111 | in every run marked rows are in the log, logged and fetched rows come from committed rows, and a relay that is about to mark has published |
| `Relay.NoLossNoPhantom` | backend/internal/worker/outbox_relay.go:89-111 | in every run commits and outbox rows correspond one to one, the log holds only committed rows, marked rows are in the log, and every commit is pending or logged |
| `Relay.AscendingIdsLoggedInCommitOrder` | backend/internal/worker/outbox_relay.go:63-112 | with any relays, crashes and lost marks but no lost publish, a row that committed earlier with a lower id has a copy before every copy of the later one |
| `Relay.ConflictsLoggedInCommitOrder` | backend/internal/worker/outbox_relay.go:63-112 | so conflicting events are logged in commit order, whatever their ids |
| `RelayCopies.StepKeepsCopies` | backend/internal/worker/outbox_relay.go:90-111 | each relay step that appends a copy pays for it with the relay's one right to a copy or with a fault |
| `RelayCopies.CopiesAtMostRelaysPlusFaults` | backend/internal/worker/outbox_relay.go:90-111 | with R relays the log holds at most R copies of a row plus one per lost mark, crash between publish and mark, or error after an append |
| `RelayCopies.FaultsAtMostFaultySteps` | backend/internal/worker/outbox_relay.go:96-111 | faults are no more than the crashes, lost marks and misreported publishes of the run |
| `RelayCopies.ExactlyOnceWithoutFaults` | backend/internal/repository/postgres/outbox_repository.go:67-74 | one relay without faults never logs a row twice |
| `RelayTick.OutboxTable.FetchPending` | backend/internal/repository/postgres/outbox_repository.go:23-64 | the loop returns the query's result for the clamped limit |
| `RelayDelivery.MarkedForGood` | backend/internal/repository/postgres/outbox_repository.go:66-76 | a marked row stays marked for the rest of every run and no relay ever fetches it again |
| `RelayTick.OutboxRelay.Tick` | backend/internal/worker/outbox_relay.go:52-113 | a tick appends the fetched rows whose publish was not refused, in order, and marks those published without error |
| `RelayTick.OutboxRelay.PublishRows` | backend/internal/worker/outbox_relay.go:63-112 | the row loop goes on after an error, so each row is decided on its own |
| `RelayTick.TickIsASchedule` | backend/internal/worker/outbox_relay.go:52-113 | the effect of that loop is a schedule of fetch, publish and mark steps |
| `RelayTick.TickRuns` | backend/internal/worker/outbox_relay.go:52-113 | so a tick of an idle relay in the middle of any run continues that run, appending and marking what the loop does |
| `RelayOrder.AppendsKeepIff` | backend/internal/worker/outbox_relay.go:96-104 | for any order on rows: what a batch appends keeps the log in that order if and only if nothing that comes before a row that goes through is skipped |
| `RelayRunOrder.RunKeepsIff` | backend/internal/worker/outbox_relay.go:63-112 | any run, with writers and other relays acting inside and between ticks and any faults: the log ends up in commit order of related events (one chat, or conflicting) if and only if every append, when it is made, finds a copy of each related row committed before its own |
| `RelayRunOrder.ChatOrderIff` | backend/internal/worker/outbox_relay.go:84-91 | however the writers commit: every loss-free way of relaying alongside them keeps each chat's commit order in the log if and only if commits of one chat have ascending outbox ids |
| `RelayOrder.TickKeepsChatOrderIff` | backend/internal/worker/outbox_relay.go:63-112 | in-chat order, tick by tick: in any run, an undisturbed tick keeps each chat's commit order in the log if and only if, for every row of its batch that is not refused, each row of the same chat committed earlier and not logged yet is in the batch too, has the lower id and is not refused |
| `RelayOrder.TickKeepsConflictOrderIff` | backend/internal/worker/outbox_relay.go:96-104 | conflicting events: in any run, an undisturbed tick keeps their commit order if and only if it refuses no unlogged row while it gets through a conflicting row that committed later |
| `RelayOrder.TickKeepsOrderIff` | backend/internal/worker/outbox_relay.go:96-104 | an undisturbed tick, for the order the run lemmas use (ascending ids in commit order across all chats): kept if and only if no refused row without a copy is overtaken by a row of its batch |
| `RelayOrder.TickOrdersPairIff` | backend/internal/worker/outbox_relay.go:63-91 | of two new rows of one clean batch the one with the lower id is logged first, whatever their commit order |
| `RelayDelivery.TickAdvances` | backend/internal/worker/outbox_relay.go:56-63 | a clean tick delivers a row or takes exactly a hundred rows from before it |
| `RelayDelivery.RoundMarks` | backend/internal/worker/outbox_relay.go:63-112 | a tick in which the relay itself meets no error marks every row it fetched, whatever writers and other relays do, faults included, inside the tick |
| `RelayDelivery.RoundPasses` | backend/internal/worker/outbox_relay.go:52-113 | so such a tick that leaves a row pending has marked a hundred rows below it |
| `RelayDelivery.UndisturbedFits` | backend/internal/worker/outbox_relay.go:52-113 | a tick left to itself whose publishes and marks succeed is such a tick |
| `RelayDelivery.DeliveredWithin` | backend/internal/worker/outbox_relay.go:56-112 | in any run a row is marked and in the log once the clean ticks, one after the other and of any relays, outnumber the hundreds of lower rows that were unmarked at the start or were committed meanwhile; writers and relays may act and fail inside and between those ticks |
| `RelayDelivery.DeliveredWhateverArrives` | backend/internal/worker/outbox_relay.go:56-112 | so row id is marked and in the log within id / 100 + 1 clean ticks, whatever arrives |
| `RelayDelivery.DeliveredFromPosition` | backend/internal/worker/outbox_relay.go:56-112 | and with k pending rows before it within k / 100 + 1 clean ticks, when no lower row is committed meanwhile |
| `RelayDelivery.DrainsWithin` | backend/internal/worker/outbox_relay.go:56-112 | in any run, when no row is committed meanwhile, p pending rows are all marked and in the log after p / 100 clean ticks, rounded up |
| `RelayTick.CleanTickEffect` | backend/internal/worker/outbox_relay.go:63-112 | a tick without failures appends and marks its whole batch |
| `RelayCounterexamples.LostPublishOvertakes` | backend/internal/worker/outbox_relay.go:96-104 | a two-row run of one relay: the first of two posts in a chat is refused, the second is logged |
| `RelayCounterexamples.SameChatEditsMayReorder` | backend/internal/worker/outbox_relay.go:84-91 | a run without any lost publish in which two edits with one broker key are logged against their commit order |
| `Wire.DomainEventRoundTrip` | backend/internal/kafka/domain_event.go:9-22 | a domain event that marshals is read back with every field, absent chat included, and a payload of the same JSON value |
| `Wire.RowStored` | backend/internal/service/message_service.go:338-411 | the row stored for an event, column by column: event type, aggregate type and id (the message, or user:message for a receipt), the message's chat, version 1, and the payload's members |
| `Wire.BrokerReceives` | backend/internal/worker/outbox_relay.go:65-83 | what the broker receives for a row, member by member: nothing when the payload is no JSON, otherwise the row's columns, a missing payload as null, the chat left out when absent |
| `Wire.ChatReceives` | backend/internal/worker/outbox_relay.go:115-129 | what the chat of a row receives in either mode: the event's name with the payload as data, a missing or null payload as an empty object, or nothing without a chat or for a payload that is no JSON |
| `Wire.ModesAgreeIff` | backend/internal/worker/kafka_ws_consumer.go:69-105 | local and broker mode give the same envelope to the same chat for every row, nil, empty, null and malformed payloads and rows without chat included, except for an empty chat id with a payload that marshals |
| `Wire.MessageRoundTrip` | backend/internal/repository/postgres/message_writer.go:225-254 | the wire form of a message determines it: absent and empty text, absent and present reply survive |
| `Wire.PayloadRoundTrip` | backend/internal/service/message_service.go:366-411 | each payload determines its event |
| `Wire.EnvelopeCarriesEvent` | backend/internal/worker/outbox_relay.go:115-129 | in either mode the event's chat receives an envelope from which exactly the committed event can be read |
| `Selection.FirstUnique` | backend/internal/repository/postgres/message_repository.go:94-95 | ORDER BY a total order with LIMIT has one result |
| `History.PageSpec` | backend/internal/service/message_service.go:53-78 | a page holds the first of the rows the query lets through, has_more is false only when it holds all of them, and a page with has_more is full |
| `History.NewestPage` | backend/internal/repository/postgres/message_repository.go:89-95 | without a cursor the page is the newest live rows of the chat in descending (created_at, id), 50 of them by default, the given number up to 200 otherwise; has_more says whether it is full |
| `History.PageBelowMessage` | backend/internal/repository/postgres/message_repository.go:76-83 | with a cursor message, deleted or not, the page is the newest live rows below its (created_at, id) |
| `History.PageBelowNothing` | backend/internal/repository/postgres/message_repository.go:78-82 | a cursor that is no message of the chat gives an empty page and no next one |
| `History.PageBelowTime` | backend/internal/repository/postgres/message_repository.go:84-88 | with a time the page is the newest live rows created before it |
| `History.PageLimitStable` | backend/internal/repository/postgres/helpers.go:36-44 | sizes from 1 to 200 are kept, larger ones cut to 200, others read as 50; the repository's clamp keeps the size the service has clamped, so has_more compares with the limit of the query |
| `History.WalkDescends` | backend/internal/repository/postgres/message_repository.go:69-95 | a page walk over changing tables has strictly decreasing keys, so it repeats nothing |
| `History.WalkFinds` | backend/internal/repository/postgres/message_repository.go:76-93 | a finished walk has returned every message that was live throughout and, at the first request, below its cursor: in the chat, with a smaller (created_at, id) or created before the time, any live one without a cursor |
| `History.WalkSound` | backend/internal/repository/postgres/message_repository.go:74-75 | each returned message was live in the chat when its page was read |
| `History.QuietWalkEnds` | backend/internal/service/message_service.go:75-78 | from any cursor, without inserts below it, a walk ends before its pages outnumber the chat's messages |
| `History.EventuallyQuietEnds` | backend/internal/service/message_service.go:75-78 | so does a walk that is undisturbed only from some request on |
| `History.PageWalk` | backend/internal/repository/postgres/message_repository.go:66-115 | for requests placed anywhere in any run of the writers and from any first cursor: a finished walk has strictly decreasing keys, has every message live throughout below the cursor and only messages live when read; and the walk does finish once inserts below its cursor stop |
| `History.TimeCursorIff` | backend/internal/repository/postgres/message_repository.go:84-88 | a timestamp cursor continues like the id cursor if and only if no live message of the chat with a smaller id has that timestamp |
| `History.ListQueryAgrees` | backend/internal/repository/postgres/chat_repository.go:155-176 | the chat list's unread subquery and `CountUnreadAfter` count the same |
| `History.UnreadIsHistoryPosition` | backend/internal/repository/postgres/message_repository.go:158-175 | in every run the cursor is a message of the chat, and the unread count is its position in the newest-first history |
| `History.UnreadStep` | backend/internal/service/message_service.go:281-323 | every step of every run moves a member's count by exactly what it says: a create or delete ahead of the cursor by one, the member's receipt to the count at its message, anything else not at all |
| `History.MarkReadDelta` | backend/internal/repository/postgres/message_repository.go:158-175 | a receipt that does not move the cursor back, the first one included, lowers the count by exactly the live messages it passes |
| `History.MarkReadBackDelta` | backend/internal/service/message_service.go:292-310 | a receipt for an older message raises the count by exactly the live messages it uncovers |
| `RateLimiter.NewLimits` | backend/internal/transport/http/middleware/ratelimit.go:54-75 | no limiter without a rate; a given burst is kept; a default burst is a third of the rate rounded down, one below a rate of three and 60 above 180, and so at most ten times the rate |
| `RateLimiter.IPRateLimiter.GetLimiter` | backend/internal/transport/http/middleware/ratelimit.go:77-98 | above 2048 entries those idle for more than ten minutes go, all others stay as they are; the client's bucket is the one it had, or a full one |
| `RateLimiter.IPRateLimiter.Admit` | backend/internal/transport/http/middleware/ratelimit.go:101-122 | one request: let through exactly when the bucket, refilled at the rate up to the burst, holds a whole token, which it then pays; the new map is that of the state machine |
| `RateLimiter.RunsAgree` | backend/internal/transport/http/middleware/ratelimit.go:82-97 | whenever an empty bucket refills within the idle time, a limiter with eviction decides every request of every ordered trace as one that never evicts |
| `RateLimiter.DefaultEvictionInvisible` | backend/internal/app/app.go:38-41 | so for all four limiters the application builds |
| `RateLimiter.WindowBudget` | backend/internal/transport/http/middleware/ratelimit.go:67-67 | tokens spent in a window plus what is left come out of one burst and the window's refill |
| `RateLimiter.WindowBound` | backend/internal/transport/http/middleware/ratelimit.go:77-122 | for limits whose bucket refills within the idle time: in every window of an ordered trace, evictions included, a client is admitted at most burst + rpm * t / 60 times |
| `RateLimiter.DefaultWindowBound` | backend/internal/app/app.go:38-41 | so for all four limiters the application builds |
| `RateLimiterExact.WindowBoundIff` | backend/internal/transport/http/middleware/ratelimit.go:54-98 | for any limits the constructor makes, the bound holds in every window of every ordered trace if and only if the burst refills within the idle time; otherwise a client gets two bursts around one eviction |
| `RateLimiterExact.RefillsIff` | backend/internal/transport/http/middleware/ratelimit.go:58-67 | below sixty billion requests a minute that condition is burst <= 10 * rpm |
| `RateLimiterExact.EvictionVisible` | backend/internal/transport/http/middleware/ratelimit.go:82-89 | for any limits whose bucket does not refill in time, a concrete ordered trace on which eviction changes a decision |
| `RateLimiterExact.EvictionInvisibleIff` | backend/internal/transport/http/middleware/ratelimit.go:54-98 | eviction is invisible on all ordered traces if and only if burst tokens refill within the idle time |
| `RateLimiterTight.PlainDecided` | backend/internal/transport/http/middleware/ratelimit.go:101-105 | without eviction a request is let through if and only if every window that ends with it, from any earlier request on, has room for one more admission within one burst and the window's refill |
| `RateLimiterTight.DecidedIff` | backend/internal/transport/http/middleware/ratelimit.go:77-105 | with eviction the limiter decides every request of every ordered trace by that rule if and only if the burst refills within the idle time: it never admits more, and never refuses what the bound has room for |
| `ChatService.Reachable` | backend/internal/service/chat_service.go:65-100 | every interleaving of chat calls keeps one direct chat per pair, roles as the rules allow, and each call's reads still meaningful |
| `ChatService.DirectChatsUnique` | backend/internal/service/chat_service.go:65-100 | at most one direct chat per pair, nobody else in it, and the conflict exit unreachable, with crashes anywhere |
| `ChatService.RowOrigin` | backend/internal/repository/postgres/chat_repository.go:238-260 | no step changes a role, and a new row is a membership added by a call past its checks, of a user that call named, or a row of a new group |
| `ChatService.NewGroupJoins` | backend/internal/repository/postgres/chat_repository.go:293-327 | a new group has its creator as owner and everybody named as member, and nobody else; no other chat changes |
| `ChatService.AddJoins` | backend/internal/service/chat_service.go:256-289 | an add past its checks makes every named user a member who is not in the group yet; nobody else joins, roles and other chats stay |
| `ChatService.PairJoins` | backend/internal/service/chat_service.go:71-97 | opening a direct chat puts both users of the call into it; nobody else joins, roles and other chats stay |
| `ChatService.JoinedByCreatorOrPair` | backend/internal/service/chat_service.go:256-289 | in every run whoever joins a group was named by its creator, when creating it or in an add, and whoever joins a direct chat is a user of its pair |
| `ChatService.RemovalDecision` | backend/internal/service/chat_service.go:318-371 | from the caller's role as read before the target's row: a missing target is not found; oneself may leave any chat; in a group the owner may remove everybody but an owner, an admin every plain member; all else is forbidden |
| `ChatService.MayRemoveIff` | backend/internal/service/chat_service.go:318-353 | in every run a removal is let through if and only if the target is in the chat and is the caller, or the caller was read as the chat's owner |
| `ChatService.RowLoss` | backend/internal/service/chat_service.go:318-353 | only a removal past its checks takes a member away |
| `ChatService.OwnerIsCreator` | backend/internal/repository/postgres/chat_repository.go:293-325 | a group's only possible owner is its creator, and nobody is ever an admin |
| `ChatService.KickAllowed` | backend/internal/service/chat_service.go:356-371 | a role may remove exactly the roles it strictly outranks |
| `ChatService.RemovedBySelfOrCreator` | backend/internal/service/chat_service.go:318-353 | in every run whoever leaves does so by their own call or is removed by the group's creator, and nobody is removed from a direct chat |
| `ChatService.OwnerLeavesByOwnCall` | backend/internal/service/chat_service.go:330-371 | only the owner's own call removes the owner, despite the gap between reading roles and deleting |
| `ChatService.OwnerlessGroupsShrink` | backend/internal/service/chat_service.go:256-289 | once the owner has left and adds under way have finished, the member set only shrinks for the rest of every run |
| `ChatService.StrandedForever` | backend/internal/service/chat_service.go:66-75 | an empty direct chat that no call is about to fill stays empty for the rest of every run, and no call opens it |
| `ChatService.OpenableIff` | backend/internal/service/chat_service.go:65-100 | in every reachable state a direct chat can be opened in some continuation if and only if it has a member or a call about to add the pair |
| `ChatService.InsideIff` | backend/internal/service/chat_service.go:71-94 | in every run a user of the pair is in its chat if and only if some step has added the pair and no later step has taken the user out |
| `ChatService.RefusedIff` | backend/internal/service/chat_service.go:66-70 | in every run, a call that has found its chat, at first or after losing the race for it, is refused if and only if nobody has added the pair since its caller was last taken out of the chat, or ever |
| `ChatService.CrashStrands` | backend/internal/service/chat_service.go:86-97 | a crash between creating the chat and adding its members leaves such a chat |
| `ChatService.JoinAllSpec` | backend/internal/repository/postgres/chat_repository.go:256-256 | adding members keeps existing roles and gives every new user the member role |
| `ChatTables.ChatTables.AddMembers` | backend/internal/repository/postgres/chat_repository.go:238-260 | the loop adds exactly the named users without a row, as members; rows that exist stay |
| `ChatTables.ChatTables.RemoveFromChat` | backend/internal/service/chat_service.go:294-371 | the service's removal does what its steps in the state machine do: removed if and only if both are in the chat and the target is the actor or, in a group, one the owner or admin may remove; not found exactly without the chat or the target, forbidden otherwise, and only a removal changes a row |
| `ChatTables.ChatTables.AddToGroup` | backend/internal/service/chat_service.go:235-291 | the service's add does what its steps in the state machine do, and succeeds exactly for a group, a caller who is its owner or an admin, and somebody named; then everybody named is in, nobody else joins and roles stay; each refusal has its exact case |
| `ChatTables.ChatTables.CreateGroupWithMembers` | backend/internal/repository/postgres/chat_repository.go:274-335 | creator filtering and de-duplication change nothing: the result is the group step of the state machine, with the creator as owner, everybody named as member, nobody else, and all other rows as before |
| `ChatTables.ChatTables.GetDirectByKey` | backend/internal/repository/postgres/chat_repository.go:99-114 | finds the pair's chat if and only if there is one |
| `ChatTables.ChatTables.CreateChat` | backend/internal/migration/002_init_chats.sql:22-23 | fails exactly when the pair already has a chat |
| `ChatTables.ChatTables.CreateDirect` | backend/internal/service/chat_service.go:39-101 | with a rival that makes the pair's chat between lookup and insert and adds the users at any of the points that follow, or never, the retry loop ends as its steps in the state machine do; the pair's chat is opened with both users in it; forbidden if and only if the chat was there without the caller, or the rival has not added the users before the caller's membership is read; oneself is refused |
| `DirectKey.JoinInjective` | backend/internal/service/chat_service.go:456-456 | joined ids can be split again in one way |
| `DirectKey.KeyIdentifiesPair` | backend/internal/service/chat_service.go:448-458 | keys are equal if and only if the calls name the same unordered pair of id strings |
| `Sessions.SessionRepository.Create` | backend/internal/repository/postgres/session_repository.go:24-43 | afterwards exactly the tokens accepted before and the new one, while it lasts, are accepted; a taken hash is refused |
| `Sessions.SessionRepository.GetByTokenHash` | backend/internal/repository/postgres/session_repository.go:45-59 | finds a session if and only if one with that hash is unrevoked and unexpired |
| `Sessions.SessionRepository.Revoke` | backend/internal/repository/postgres/session_repository.go:61-75 | afterwards the session's token is accepted at no time and every other token as before |
| `Sessions.SessionRepository.RevokeAllByUser` | backend/internal/repository/postgres/session_repository.go:77-85 | afterwards no session of the user is usable at any time and every other session as before |
| `Sessions.SessionRepository.RotateRefresh` | backend/internal/repository/postgres/session_repository.go:87-123 | replaces the usable session of the hash by the new one, so that the old token is never accepted again, or changes nothing, revocation included |
| `Sessions.AuthService.Refresh` | backend/internal/service/auth_service.go:131-181 | alone, a usable token is replaced by a session of the same user and any other is refused |
| `Sessions.AuthService.Logout` | backend/internal/service/auth_service.go:183-203 | alone, a usable token's session is revoked and any other token is refused |
| `Sessions.Reachable` | backend/internal/service/auth_service.go:137-213 | every interleaving of lookups, rotations and revocations keeps hashes unique, users along chains, one successor and one active session |
| `Sessions.ChainsNeverFork` | backend/internal/repository/postgres/session_repository.go:94-104 | in every run a session has at most one successor, of the same user, and a login chain at most one active session |
| `Sessions.RevokedForever` | backend/internal/repository/postgres/session_repository.go:61-85 | revocation is permanent |
| `Sessions.LoginOpensChain` | backend/internal/service/auth_service.go:108-129 | in every run a login with a free hash opens a chain of its own with one active session |
| `Sessions.RotateIff` | backend/internal/repository/postgres/session_repository.go:94-123 | in every run a refresh past its lookup goes through exactly when its token is still that of an active session; that session is revoked and a new one of the same user continues its chain; otherwise nothing changes |
| `Sessions.LogoutEndsIff` | backend/internal/service/auth_service.go:183-203 | a logout ends its login chain for good if and only if no rotation has taken the chain to another active session since the logout looked its own up |
| `Sessions.LogoutAllEndsChains` | backend/internal/service/auth_service.go:205-213 | with each repository call one step: no chain that exists at a logout-all is ever active again, not even through a refresh already past its lookup |
| `SessionRaces.PlayOk` | backend/internal/repository/postgres/session_repository.go:94-122 | with rotations as transactions: in every run the row lock keeps a session that is being rotated from being revoked by anybody else or rotated twice |
| `SessionRaces.ActiveStaysSingle` | backend/internal/repository/postgres/session_repository.go:94-122 | with rotations as transactions: in every run a login chain has at most one active session |
| `SessionRaces.SignOutEnds` | backend/internal/repository/postgres/session_repository.go:61-75 | and a logout whose session is active when it takes effect ends its chain for good, whatever rotations are under way |
| `SessionRaces.LogoutAllEndsIff` | backend/internal/repository/postgres/session_repository.go:77-123 | a chain that exists when a logout-all takes its snapshot is over for good if and only if no session inserted into it since is active when the logout-all ends |
| `SessionRaces.QuietLogoutAllEnds` | backend/internal/repository/postgres/session_repository.go:77-85 | so a logout-all during which no rotation of the chain commits ends the chain for good, whatever rotations of other chains and users do |
| `SessionRaces.RotationOutlives` | backend/internal/repository/postgres/session_repository.go:94-122 | and a run in which a rotation uncommitted at the snapshot leaves its chain active |
| `Hub.TotalCountsPairs` | backend/internal/transport/ws/hub.go:13-13 | the summed size of all client sets is the number of (user, connection) pairs |
| `Hub.UnregisterKeepsGaugeIff` | backend/internal/transport/ws/hub.go:35-49 | an unregister keeps the gauge equal to that sum if and only if the connection is registered or its user has no entry |
| `Hub.GaugeCountsConnections` | backend/internal/transport/ws/client.go:51-58 | under the connect and disconnect lifecycle the gauge is the sum, no empty set is stored, and the sets hold exactly the open connections |
| `Hub.QueueFaithful` | backend/internal/transport/ws/client.go:43-43 | a queue never exceeds 256 frames, sent and queued frames are the accepted ones in offered order, and a frame is dropped exactly at a full queue |
| `Hub.Hub.Register` | backend/internal/transport/ws/hub.go:21-33 | the connection joins its user's set and the gauge rises |
| `Hub.Hub.Unregister` | backend/internal/transport/ws/hub.go:35-49 | the connection leaves, the last one takes the entry with it, and the gauge falls whenever the user had an entry |
| `Hub.Hub.SendToUser` | backend/internal/transport/ws/hub.go:52-70 | every connection of the user is offered the frame once and no other queue changes |
| `Hub.Hub.DeliverPayload` | backend/internal/transport/ws/broadcaster.go:45-57 | every connection of every member is offered the frame exactly once, and nobody else's |
| `Migration.Database.Up` | backend/internal/migration/runner.go:44-74 | the loop's outcome for any point of failure |
| `Migration.RunExtends` | backend/internal/migration/runner.go:44-74 | from a prefix of the files a run applies the next ones in order, up to where it fails, and succeeds exactly when none is left |
| `Migration.RunsLeaveAPrefix` | backend/internal/migration/runner.go:44-74 | after any sequence of runs the committed files are a prefix of the names, each executed exactly once |
| `Migration.UninterruptedCompletes` | backend/internal/migration/runner.go:44-74 | an undisturbed run completes the list and a further run changes nothing |

## Left out

- HTTP handlers, routing, request decoding, id syntax, error-to-status mapping, user profile and search: single-branch facts.
- JWT, bcrypt, SHA-256 and randomness: the digest is an injective parameter, new ids and hashes are arguments.
- Redis presence, typing, tickets and publish/subscribe: single commands.
- Kafka and gorilla/websocket internals and consumer offsets: the broker is one append-only log; nothing is claimed about delivery to clients beyond the log, since a failed fan-out is skipped and slow clients drop frames.
- A missing Kafka producer, which reports success without sending: the broker of the model answers for every publish.
- PostgreSQL isolation beyond row locks, the snapshot of one UPDATE, unique indexes and conditional UPDATEs: no foreign-key share locks.
- Changelog.ReplayRebuildsTables: after a member has left, which writes no event, the replay keeps the old cursor, so with departures it only has every cursor the table has.
- The value of `deleted_at`: the event carries the service clock and the row the database clock, and they are separate arguments.
- Soft deletion of chats, deletion of users and the cascades of both: no modelled code does either.
- Text of JSON: invalid UTF-8 and Go's case-insensitive matching of member names; member names are constructors, so a payload with two spellings of one name is outside the model.
- Uniqueness of `event_id`: it is a fresh random id.
- Metrics other than the hub gauge, logging, configuration, shutdown.
- RateLimiter.IPRateLimiter.Admit: levels are exact integers where the library uses float64, and the bucket is looked up and asked at one instant.
- ChatTables.ChatTables.CreateDirect: meets one rival; arbitrary interference and crashes are in `ChatService`, whose steps are its repository calls.
- RelayOrder.TickKeepsChatOrderIff: is about an undisturbed tick, like the other tick conditions of its module; `RelayRunOrder.RunKeepsIff` has steps of others inside ticks.
- Sessions.LogoutAllEndsChains: takes a rotation as one step; `SessionRaces` has it as a transaction.
- Sessions.AuthService.Refresh: runs without interference, like `Sessions.AuthService.Logout`; interference is in the state machine of the same module.
- MessageWriter.MessageService.Create: running alone it shows nothing about races; those are the schedules of `Writer`.
- RelayTick.OutboxRelay.Tick: marshalling a row is in `Wire`; a row that does not marshal counts as a refused publish.
- Hub.Hub.SendToUser: the copy of the client set taken under the read lock and the sends after it are one step.
- Migration.Database.Up: the names arrive sorted and filtered, and runs do not overlap; a file that commits by itself is outside the model.
