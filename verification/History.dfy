/** Newest-first message history: keyset pages over a table that changes between requests,
    and unread counts against a read cursor. */
module History {
  import opened Domain
  import opened Writer
  import opened WriterInvariants
  import opened Selection

  type Table = map<Id, Message>

  /** The sort key (created_at, id). */
  datatype Key = Key(at: Time, id: Id)

  predicate Newer(a: Key, b: Key) {
    a.at > b.at || (a.at == b.at && a.id > b.id)
  }

  lemma NewerOrder()
    ensures StrictOrder(Newer)
  {
  }

  predicate LiveIn(t: Table, chat: Id, id: Id) {
    id in t && t[id].chat == chat && t[id].deletedAt.None?
  }

  function KeyOf(t: Table, id: Id): Key
    requires id in t
  {
    Key(t[id].createdAt, id)
  }

  function LiveKeys(t: Table, chat: Id): set<Key> {
    set id | id in t && LiveIn(t, chat, id) :: KeyOf(t, id)
  }

  lemma LiveKey(t: Table, chat: Id, k: Key)
    ensures k in LiveKeys(t, chat) <==> LiveIn(t, chat, k.id) && k == KeyOf(t, k.id)
  {
  }

  // ---- GetChatMessages and ListByChat ----

  datatype Before = Newest | BeforeId(id: Id) | BeforeTime(at: Time)

  /** Rows the WHERE clause lets through. A cursor id without a row in the chat makes the row
      comparison NULL, so nothing passes; the cursor row itself may be soft-deleted. */
  function Candidates(t: Table, chat: Id, before: Before): set<Key> {
    match before
    case Newest => LiveKeys(t, chat)
    case BeforeId(id) =>
      if id in t && t[id].chat == chat then set k | k in LiveKeys(t, chat) && Newer(KeyOf(t, id), k) else {}
    case BeforeTime(at) => set k | k in LiveKeys(t, chat) && k.at < at
  }

  /** Service and repository both clamp with this rule, so the page size the service compares
      against is the one the query used. */
  function PageLimit(n: int): nat {
    if n <= 0 then 50 else if n > 200 then 200 else n
  }

  /** Clamping a second time changes nothing; a size the API accepts is kept, a larger one is cut
      to the maximum, and without a positive one the default holds. */
  lemma PageLimitStable(n: int)
    ensures 1 <= PageLimit(n) <= 200 && PageLimit(PageLimit(n)) == PageLimit(n)
    ensures 1 <= n <= 200 ==> PageLimit(n) == n
    ensures n > 200 ==> PageLimit(n) == 200
    ensures n <= 0 ==> PageLimit(n) == 50
  {
  }

  ghost function GetChatMessages(t: Table, chat: Id, limit: int, before: Before): seq<Key> {
    NewerOrder();
    First(Newer, Candidates(t, chat, before), PageLimit(limit))
  }

  datatype Page = Page(rows: seq<Key>, hasMore: bool)

  ghost function ListByChat(t: Table, chat: Id, limit: int, before: Before): Page {
    var rows := GetChatMessages(t, chat, PageLimit(limit), before);
    Page(rows, |rows| == PageLimit(limit))
  }

  /** A page holds the newest rows below the cursor, and `hasMore` is false only when it holds all of them. */
  lemma PageSpec(t: Table, chat: Id, limit: int, before: Before)
    ensures var page, all := ListByChat(t, chat, limit, before), Candidates(t, chat, before);
            && IsFirst(Newer, all, PageLimit(limit), page.rows)
            && (!page.hasMore ==> forall k :: k in all ==> k in page.rows)
            && (page.hasMore ==> |page.rows| == PageLimit(limit) > 0)
  {
    NewerOrder();
    FirstIsFirst(Newer, Candidates(t, chat, before), PageLimit(limit));
  }

  /** The live rows of the chat that a request may return: all of them without a cursor, those with
      a smaller (created_at, id) than the cursor message's, or those created before the given time. */
  predicate Below(t: Table, chat: Id, before: Before, id: Id) {
    && id in t && t[id].chat == chat && t[id].deletedAt == None
    && match before
       case Newest => true
       case BeforeId(anchor) =>
         anchor in t && t[anchor].chat == chat
         && (t[id].createdAt < t[anchor].createdAt || (t[id].createdAt == t[anchor].createdAt && id < anchor))
       case BeforeTime(at) => t[id].createdAt < at
  }

  function KeysOf(t: Table, ids: set<Id>): set<Key>
    requires ids <= t.Keys
  {
    set id | id in ids :: Key(t[id].createdAt, id)
  }

  lemma KeyIn(t: Table, ids: set<Id>, k: Key)
    requires ids <= t.Keys
    ensures k in KeysOf(t, ids) <==> k.id in ids && k.at == t[k.id].createdAt
  {
    if k.id in ids && k.at == t[k.id].createdAt {
      assert k == Key(t[k.id].createdAt, k.id);
    }
  }

  lemma CandidatesAreBelow(t: Table, chat: Id, before: Before, k: Key)
    ensures k in Candidates(t, chat, before) <==> Below(t, chat, before, k.id) && k.at == t[k.id].createdAt
  {
    LiveKey(t, chat, k);
  }

  lemma PageOfCandidates(t: Table, chat: Id, limit: int, before: Before)
    ensures PageOf(ListByChat(t, chat, limit, before), Candidates(t, chat, before), limit)
  {
    PageSpec(t, chat, limit, before);
  }

  lemma RowsBelow(t: Table, chat: Id, before: Before, ids: set<Id>)
    requires ids <= t.Keys && forall id :: id in ids <==> Below(t, chat, before, id)
    ensures KeysOf(t, ids) == Candidates(t, chat, before)
  {
    forall k ensures k in KeysOf(t, ids) <==> k in Candidates(t, chat, before) {
      KeyIn(t, ids, k);
      CandidatesAreBelow(t, chat, before, k);
    }
  }

  /** The page of any request, for the rows it may return, however they are described. */
  lemma PageOfRows(t: Table, chat: Id, limit: int, before: Before, ids: set<Id>)
    requires ids <= t.Keys && forall id :: id in ids <==> Below(t, chat, before, id)
    ensures PageOf(ListByChat(t, chat, limit, before), KeysOf(t, ids), limit)
  {
    RowsBelow(t, chat, before, ids);
    PageOfCandidates(t, chat, limit, before);
  }

  /** Without a cursor the page holds the newest live rows of the chat. */
  lemma NewestPage(t: Table, chat: Id, limit: int)
    ensures var ids := set id | id in t && t[id].chat == chat && t[id].deletedAt == None;
            PageOf(ListByChat(t, chat, limit, Newest), KeysOf(t, ids), limit)
  {
    PageOfRows(t, chat, limit, Newest, set id | id in t && t[id].chat == chat && t[id].deletedAt == None);
  }

  /** From a cursor message, deleted or not, it holds the newest of those below it. */
  lemma PageBelowMessage(t: Table, chat: Id, limit: int, anchor: Id)
    requires anchor in t && t[anchor].chat == chat
    ensures var at := t[anchor].createdAt;
            var ids := set id | id in t && t[id].chat == chat && t[id].deletedAt == None
                                && (t[id].createdAt < at || (t[id].createdAt == at && id < anchor));
            PageOf(ListByChat(t, chat, limit, BeforeId(anchor)), KeysOf(t, ids), limit)
  {
    var at := t[anchor].createdAt;
    var ids := set id | id in t && t[id].chat == chat && t[id].deletedAt == None
                        && (t[id].createdAt < at || (t[id].createdAt == at && id < anchor));
    PageOfRows(t, chat, limit, BeforeId(anchor), ids);
  }

  /** A cursor that is no message of the chat gives an empty page and no next one. */
  lemma PageBelowNothing(t: Table, chat: Id, limit: int, anchor: Id)
    requires anchor !in t || t[anchor].chat != chat
    ensures ListByChat(t, chat, limit, BeforeId(anchor)) == Page([], false)
  {
    PageSpec(t, chat, limit, BeforeId(anchor));
  }

  /** From a time it holds the newest of those created before it. */
  lemma PageBelowTime(t: Table, chat: Id, limit: int, at: Time)
    ensures var ids := set id | id in t && t[id].chat == chat && t[id].deletedAt == None && t[id].createdAt < at;
            PageOf(ListByChat(t, chat, limit, BeforeTime(at)), KeysOf(t, ids), limit)
  {
    var ids := set id | id in t && t[id].chat == chat && t[id].deletedAt == None && t[id].createdAt < at;
    PageOfRows(t, chat, limit, BeforeTime(at), ids);
  }

  /** The page is what ORDER BY created_at DESC, id DESC LIMIT gives for `all`, with the clamped
      size; `hasMore` is false only when it holds all of them. */
  ghost predicate PageOf(page: Page, all: set<Key>, limit: int) {
    var size := if limit <= 0 then 50 else if limit > 200 then 200 else limit;
    && (forall k :: k in page.rows ==> k in all)
    && |page.rows| == (if |all| < size then |all| else size)
    && (forall i, j :: 0 <= i < j < |page.rows| ==>
          page.rows[i].at > page.rows[j].at
          || (page.rows[i].at == page.rows[j].at && page.rows[i].id > page.rows[j].id))
    && (forall k, x :: k in all && k !in page.rows && x in page.rows ==>
          k.at < x.at || (k.at == x.at && k.id < x.id))
    && page.hasMore == (|page.rows| == size)
    && (!page.hasMore ==> forall k :: k in all ==> k in page.rows)
  }

  // ---- Walking the pages while the table changes ----

  /** Messages stay, keep their chat and creation time, and are never undeleted. */
  ghost predicate Evolves(t: Table, t': Table) {
    forall id :: id in t ==>
      id in t' && t'[id].chat == t[id].chat && t'[id].createdAt == t[id].createdAt
      && (t[id].deletedAt.Some? ==> t'[id].deletedAt.Some?)
  }

  ghost predicate Chain(tables: seq<Table>) {
    forall i :: 0 <= i < |tables| - 1 ==> Evolves(tables[i], tables[i + 1])
  }

  /** Request i reads `tables[i]`; each next request passes the last id of the page before it,
      until a page says there is no more. */
  ghost function Walk(tables: seq<Table>, chat: Id, limit: int, before: Before): seq<Key>
    decreases |tables|
  {
    if tables == [] then []
    else
      var page := ListByChat(tables[0], chat, limit, before);
      PageSpec(tables[0], chat, limit, before);
      if !page.hasMore then page.rows
      else page.rows + Walk(tables[1..], chat, limit, BeforeId(page.rows[|page.rows| - 1].id))
  }

  /** The walk has reached a page without successor. */
  ghost predicate WalkEnds(tables: seq<Table>, chat: Id, limit: int, before: Before)
    decreases |tables|
  {
    tables != [] &&
    var page := ListByChat(tables[0], chat, limit, before);
    PageSpec(tables[0], chat, limit, before);
    page.hasMore ==> WalkEnds(tables[1..], chat, limit, BeforeId(page.rows[|page.rows| - 1].id))
  }

  ghost predicate Valid(tables: seq<Table>, chat: Id, before: Before) {
    && Chain(tables)
    && (before.BeforeId? && tables != [] ==> before.id in tables[0] && tables[0][before.id].chat == chat)
  }

  /** The cursor of the second request, and its key, survive whatever happens in between. */
  lemma NextCursor(tables: seq<Table>, chat: Id, limit: int, before: Before)
    requires Valid(tables, chat, before) && tables != [] && ListByChat(tables[0], chat, limit, before).hasMore
    ensures var rows := ListByChat(tables[0], chat, limit, before).rows;
            && rows != []
            && Valid(tables[1..], chat, BeforeId(rows[|rows| - 1].id))
            && (forall k :: k in rows ==>
               k.id in tables[0] && k == KeyOf(tables[0], k.id) && tables[0][k.id].chat == chat)
            && (|tables| > 1 ==> rows[|rows| - 1] == KeyOf(tables[1], rows[|rows| - 1].id))
  {
    PageSpec(tables[0], chat, limit, before);
    var rows := ListByChat(tables[0], chat, limit, before).rows;
    forall k | k in rows ensures LiveIn(tables[0], chat, k.id) && k == KeyOf(tables[0], k.id) {
      assert k in LiveKeys(tables[0], chat);
      LiveKey(tables[0], chat, k);
    }
    assert rows[|rows| - 1] in rows;
    forall i | 0 <= i < |tables[1..]| - 1 ensures Evolves(tables[1..][i], tables[1..][i + 1]) {
      var j := i + 1;
      assert Evolves(tables[j], tables[j + 1]);
    }
  }

  /** Everything a walk from a cursor returns is older than the cursor. */
  lemma {:induction false} WalkBelow(tables: seq<Table>, chat: Id, limit: int, before: Before, k: Key)
    requires Valid(tables, chat, before) && before.BeforeId? && k in Walk(tables, chat, limit, before)
    ensures tables != [] && before.id in tables[0] && Newer(KeyOf(tables[0], before.id), k)
    decreases |tables|
  {
    var page := ListByChat(tables[0], chat, limit, before);
    PageSpec(tables[0], chat, limit, before);
    if k !in page.rows {
      NextCursor(tables, chat, limit, before);
      var last := page.rows[|page.rows| - 1];
      WalkBelow(tables[1..], chat, limit, BeforeId(last.id), k);
      assert last in page.rows && last in Candidates(tables[0], chat, before);
    }
  }

  lemma SortedThen(a: seq<Key>, b: seq<Key>)
    requires a != [] && Sorted(Newer, a) && Sorted(Newer, b)
    requires forall k :: k in b ==> Newer(a[|a| - 1], k)
    ensures Sorted(Newer, a + b)
  {
    forall i, j | 0 <= i < |a| && 0 <= j < |b| ensures Newer(a[i], b[j]) {
      assert b[j] in b && (i == |a| - 1 || Newer(a[i], a[|a| - 1]));
    }
  }

  /** A walk never repeats a message: its keys are strictly decreasing. */
  lemma {:induction false} WalkDescends(tables: seq<Table>, chat: Id, limit: int, before: Before)
    requires Valid(tables, chat, before)
    ensures Sorted(Newer, Walk(tables, chat, limit, before))
    decreases |tables|
  {
    if tables != [] {
      var page := ListByChat(tables[0], chat, limit, before);
      PageSpec(tables[0], chat, limit, before);
      if page.hasMore {
        NextCursor(tables, chat, limit, before);
        var last := page.rows[|page.rows| - 1];
        var rest := Walk(tables[1..], chat, limit, BeforeId(last.id));
        WalkDescends(tables[1..], chat, limit, BeforeId(last.id));
        forall k | k in rest ensures Newer(last, k) {
          WalkBelow(tables[1..], chat, limit, BeforeId(last.id), k);
        }
        SortedThen(page.rows, rest);
      }
    }
  }

  predicate LiveThroughout(tables: seq<Table>, chat: Id, id: Id) {
    forall i :: 0 <= i < |tables| ==> LiveIn(tables[i], chat, id)
  }

  /** A finished walk has returned every message that was live throughout and below its cursor. */
  lemma {:induction false} WalkFinds(tables: seq<Table>, chat: Id, limit: int, before: Before, id: Id)
    requires Valid(tables, chat, before) && WalkEnds(tables, chat, limit, before)
    requires LiveThroughout(tables, chat, id) && Below(tables[0], chat, before, id)
    ensures Key(tables[0][id].createdAt, id) in Walk(tables, chat, limit, before)
    decreases |tables|
  {
    CandidatesAreBelow(tables[0], chat, before, KeyOf(tables[0], id));
    var page, k := ListByChat(tables[0], chat, limit, before), KeyOf(tables[0], id);
    PageSpec(tables[0], chat, limit, before);
    if page.hasMore && k !in page.rows {
      NextCursor(tables, chat, limit, before);
      var last := page.rows[|page.rows| - 1];
      assert last in page.rows;
      assert tables[1..] != [] && tables[1..][0] == tables[1];
      assert Evolves(tables[0], tables[0 + 1]) && KeyOf(tables[1], id) == k;
      LiveKey(tables[1], chat, k);
      assert LiveIn(tables[1], chat, id) && Newer(last, k);
      assert LiveThroughout(tables[1..], chat, id);
      WalkFinds(tables[1..], chat, limit, BeforeId(last.id), id);
    }
  }

  /** Everything returned was a live message of the chat when its page was read. */
  lemma {:induction false} WalkSound(tables: seq<Table>, chat: Id, limit: int, before: Before, k: Key)
    requires k in Walk(tables, chat, limit, before)
    ensures exists i :: 0 <= i < |tables| && LiveIn(tables[i], chat, k.id) && k == KeyOf(tables[i], k.id)
    decreases |tables|
  {
    var page := ListByChat(tables[0], chat, limit, before);
    PageSpec(tables[0], chat, limit, before);
    if k in page.rows {
      LiveKey(tables[0], chat, k);
    } else {
      WalkSound(tables[1..], chat, limit, BeforeId(page.rows[|page.rows| - 1].id), k);
      var i :| 0 <= i < |tables[1..]| && LiveIn(tables[1..][i], chat, k.id) && k == KeyOf(tables[1..][i], k.id);
      assert LiveIn(tables[i + 1], chat, k.id);
    }
  }

  // ---- Termination once inserts below the cursor stop ----

  function ChatKeys(t: Table, chat: Id): set<Key> {
    set id | id in t && t[id].chat == chat :: KeyOf(t, id)
  }

  /** Between two requests of the walk no message appears below the cursor. */
  ghost predicate Quiet(tables: seq<Table>, chat: Id, limit: int, before: Before)
    decreases |tables|
  {
    |tables| > 1 ==>
      var page := ListByChat(tables[0], chat, limit, before);
      PageSpec(tables[0], chat, limit, before);
      page.hasMore ==>
        var last := page.rows[|page.rows| - 1];
        && (forall id :: id in tables[1] && tables[1][id].chat == chat && Newer(last, KeyOf(tables[1], id)) ==>
           id in tables[0])
        && Quiet(tables[1..], chat, limit, BeforeId(last.id))
  }

  lemma {:induction false} QuietWalkStays(tables: seq<Table>, chat: Id, limit: int, before: Before, k: Key)
    requires Valid(tables, chat, before) && Quiet(tables, chat, limit, before) && k in Walk(tables, chat, limit, before)
    ensures k in ChatKeys(tables[0], chat)
    decreases |tables|
  {
    var page := ListByChat(tables[0], chat, limit, before);
    PageSpec(tables[0], chat, limit, before);
    if k in page.rows {
      LiveKey(tables[0], chat, k);
    } else {
      NextCursor(tables, chat, limit, before);
      var last := page.rows[|page.rows| - 1];
      WalkBelow(tables[1..], chat, limit, BeforeId(last.id), k);
      QuietWalkStays(tables[1..], chat, limit, BeforeId(last.id), k);
      assert Evolves(tables[0], tables[0 + 1]) && k == KeyOf(tables[1], k.id);
    }
  }

  lemma PagesAdd(n: nat, size: nat)
    requires n > 0
    ensures n * size == size + (n - 1) * size
  {
  }

  lemma {:induction false} UnfinishedLength(tables: seq<Table>, chat: Id, limit: int, before: Before)
    requires !WalkEnds(tables, chat, limit, before)
    ensures |Walk(tables, chat, limit, before)| == |tables| * PageLimit(limit)
    decreases |tables|
  {
    if tables != [] {
      var size := PageLimit(limit);
      var page := ListByChat(tables[0], chat, limit, before);
      PageSpec(tables[0], chat, limit, before);
      var next := BeforeId(page.rows[|page.rows| - 1].id);
      UnfinishedLength(tables[1..], chat, limit, next);
      assert |Walk(tables, chat, limit, before)| == size + |Walk(tables[1..], chat, limit, next)|;
      PagesAdd(|tables|, size);
    }
  }

  lemma {:induction false} DistinctFits(s: seq<Key>, bound: set<Key>)
    requires Sorted(Newer, s) && forall k :: k in s ==> k in bound
    ensures |s| <= |bound|
    decreases |s|
  {
    if s != [] {
      var x := s[|s| - 1];
      assert forall i :: 0 <= i < |s| - 1 ==> Newer(s[i], x);
      assert x !in s[..|s| - 1];
      DistinctFits(s[..|s| - 1], bound - {x});
    }
  }

  /** A walk from any cursor, undisturbed by inserts below it, ends before its requests, a full
      page each, outnumber the messages the chat had at the start. */
  lemma QuietWalkEnds(tables: seq<Table>, chat: Id, limit: int, before: Before)
    requires Valid(tables, chat, before) && Quiet(tables, chat, limit, before)
    requires tables != [] && |tables| * PageLimit(limit) > |ChatKeys(tables[0], chat)|
    ensures WalkEnds(tables, chat, limit, before)
  {
    if !WalkEnds(tables, chat, limit, before) {
      var walk := Walk(tables, chat, limit, before);
      UnfinishedLength(tables, chat, limit, before);
      WalkDescends(tables, chat, limit, before);
      forall k | k in walk ensures k in ChatKeys(tables[0], chat) {
        QuietWalkStays(tables, chat, limit, before, k);
      }
      DistinctFits(walk, ChatKeys(tables[0], chat));
    }
  }

  /** The cursor of request m; None when the walk has ended before it. */
  ghost function CursorAt(tables: seq<Table>, chat: Id, limit: int, before: Before, m: nat): Option<Before>
    requires m <= |tables|
    decreases m
  {
    if m == 0 then Some(before)
    else
      var page := ListByChat(tables[0], chat, limit, before);
      PageSpec(tables[0], chat, limit, before);
      if !page.hasMore then None
      else CursorAt(tables[1..], chat, limit, BeforeId(page.rows[|page.rows| - 1].id), m - 1)
  }

  lemma QuietFromTail(tables: seq<Table>, chat: Id, limit: int, before: Before, m: nat)
    requires 0 < m < |tables| && QuietFrom(tables, chat, limit, before, m)
    requires ListByChat(tables[0], chat, limit, before).hasMore
    ensures var rows := ListByChat(tables[0], chat, limit, before).rows;
            rows != [] && QuietFrom(tables[1..], chat, limit, BeforeId(rows[|rows| - 1].id), m - 1)
  {
    PageSpec(tables[0], chat, limit, before);
    assert tables[1..][m - 1..] == tables[m..] && tables[1..][m - 1] == tables[m];
  }

  /** Once inserts below the cursor stop, from request m on, a walk ends before its further
      requests outnumber the pages of the chat as it was then. */
  lemma {:induction false} EventuallyQuietEnds(tables: seq<Table>, chat: Id, limit: int, before: Before, m: nat)
    requires Valid(tables, chat, before) && m < |tables|
    requires QuietFrom(tables, chat, limit, before, m)
    ensures WalkEnds(tables, chat, limit, before)
    decreases m
  {
    if m == 0 {
      assert tables[0..] == tables;
      QuietWalkEnds(tables, chat, limit, before);
    } else {
      var page := ListByChat(tables[0], chat, limit, before);
      PageSpec(tables[0], chat, limit, before);
      if page.hasMore {
        NextCursor(tables, chat, limit, before);
        QuietFromTail(tables, chat, limit, before, m);
        EventuallyQuietEnds(tables[1..], chat, limit, BeforeId(page.rows[|page.rows| - 1].id), m - 1);
      }
    }
  }

  // ---- The tables the writers produce ----

  lemma CommitEvolves(db: Db, t: nat)
    requires Inv(db) && Enabled(db, Commit(t))
    ensures Evolves(db.messages, CommitTxn(db, t).messages)
  {
    assert TxnOk(db, db.txs[t]);
    var e, t' := db.txs[t].stage.event, CommitTxn(db, t).messages;
    forall id | id in db.messages
      ensures id in t' && t'[id].chat == db.messages[id].chat && t'[id].createdAt == db.messages[id].createdAt
              && (db.messages[id].deletedAt.Some? ==> t'[id].deletedAt.Some?)
    {
      if MessageRow(id) !in Locks(e) {
        CommitLeavesRow(db, t, id);
      }
    }
  }

  lemma StepEvolves(db: Db, l: Label)
    requires Inv(db)
    ensures Evolves(db.messages, Next(db, l).messages)
  {
    if l.Commit? && Enabled(db, l) {
      CommitEvolves(db, l.t);
    } else {
      assert Next(db, l).messages == db.messages;
    }
  }

  lemma {:induction false} ScheduleEvolves(ls: seq<Label>, n: nat)
    requires n <= |ls|
    ensures Evolves(Exec(ls[..n]).messages, Exec(ls).messages)
    decreases |ls|
  {
    if n == |ls| {
      assert ls[..n] == ls;
    } else {
      var m := |ls| - 1;
      assert ls[..m][..n] == ls[..n];
      ScheduleEvolves(ls[..m], n);
      Reachable(ls[..m]);
      StepEvolves(Exec(ls[..m]), ls[m]);
    }
  }

  /** The tables seen by requests made after `times[i]` steps of a schedule. */
  function Seen(ls: seq<Label>, times: seq<nat>): seq<Table>
    requires forall i :: 0 <= i < |times| ==> times[i] <= |ls|
  {
    seq(|times|, i requires 0 <= i < |times| => Exec(ls[..times[i]]).messages)
  }

  /** What a finished walk has returned. */
  ghost predicate CompleteWalk(tables: seq<Table>, chat: Id, limit: int, before: Before)
    requires tables != []
  {
    var walk := Walk(tables, chat, limit, before);
    && Sorted(Newer, walk)
    && (forall id :: Below(tables[0], chat, before, id) && LiveThroughout(tables, chat, id) ==>
          Key(tables[0][id].createdAt, id) in walk)
    && (forall k :: k in walk ==> exists i :: 0 <= i < |tables| && LiveIn(tables[i], chat, k.id))
  }

  /** From request m on, if the walk gets there, no message appears below its cursor, and more
      requests follow than the chat then has pages. */
  ghost predicate QuietFrom(tables: seq<Table>, chat: Id, limit: int, before: Before, m: nat)
    requires m < |tables|
  {
    var cursor := CursorAt(tables, chat, limit, before, m);
    cursor.Some? ==> Quiet(tables[m..], chat, limit, cursor.value)
                     && (|tables| - m) * PageLimit(limit) > |ChatKeys(tables[m], chat)|
  }

  /** Whatever the writers do between the requests (creates, edits, soft deletes, of the
      cursor message too), and from whatever cursor, a finished walk returns every message below
      its first cursor that was live at each request exactly once, in strictly decreasing
      (created_at, id), and nothing else than messages of the chat that were live when their
      page was read. It does finish once inserts below its cursor have stopped. */
  lemma PageWalk(ls: seq<Label>, times: seq<nat>, chat: Id, limit: int, before: Before, m: nat)
    requires forall i :: 0 <= i < |times| ==> times[i] <= |ls|
    requires forall i, j :: 0 <= i < j < |times| ==> times[i] <= times[j]
    requires m < |times|
    ensures WalkEnds(Seen(ls, times), chat, limit, before) ==> CompleteWalk(Seen(ls, times), chat, limit, before)
    ensures QuietFrom(Seen(ls, times), chat, limit, before, m) ==> WalkEnds(Seen(ls, times), chat, limit, before)
  {
    var tables: seq<Table> := Seen(ls, times);
    SeenChain(ls, times);
    if before.BeforeId? && !(before.id in tables[0] && tables[0][before.id].chat == chat) {
      UnknownCursor(tables, chat, limit, before);
    } else {
      if WalkEnds(tables, chat, limit, before) {
        FinishedWalk(tables, chat, limit, before);
      }
      if QuietFrom(tables, chat, limit, before, m) {
        EventuallyQuietEnds(tables, chat, limit, before, m);
      }
    }
  }

  /** A cursor that is no message of the chat ends the walk at once, with nothing. */
  lemma UnknownCursor(tables: seq<Table>, chat: Id, limit: int, before: Before)
    requires tables != [] && before.BeforeId? && !(before.id in tables[0] && tables[0][before.id].chat == chat)
    ensures WalkEnds(tables, chat, limit, before) && Walk(tables, chat, limit, before) == []
    ensures CompleteWalk(tables, chat, limit, before)
  {
    PageSpec(tables[0], chat, limit, before);
    assert Candidates(tables[0], chat, before) == {};
    assert ListByChat(tables[0], chat, limit, before).rows == [];
  }

  lemma FinishedWalk(tables: seq<Table>, chat: Id, limit: int, before: Before)
    requires Valid(tables, chat, before) && WalkEnds(tables, chat, limit, before)
    ensures CompleteWalk(tables, chat, limit, before)
  {
    WalkDescends(tables, chat, limit, before);
    forall id | Below(tables[0], chat, before, id) && LiveThroughout(tables, chat, id)
      ensures Key(tables[0][id].createdAt, id) in Walk(tables, chat, limit, before)
    {
      WalkFinds(tables, chat, limit, before, id);
    }
    forall k | k in Walk(tables, chat, limit, before)
      ensures exists i :: 0 <= i < |tables| && LiveIn(tables[i], chat, k.id)
    {
      WalkSound(tables, chat, limit, before, k);
    }
  }

  lemma SeenChain(ls: seq<Label>, times: seq<nat>)
    requires forall i :: 0 <= i < |times| ==> times[i] <= |ls|
    requires forall i, j :: 0 <= i < j < |times| ==> times[i] <= times[j]
    ensures Chain(Seen(ls, times))
  {
    forall i | 0 <= i < |times| - 1 ensures Evolves(Seen(ls, times)[i], Seen(ls, times)[i + 1]) {
      var later := ls[..times[i + 1]];
      assert later[..times[i]] == ls[..times[i]];
      ScheduleEvolves(later, times[i]);
    }
  }

  /** A timestamp cursor taken from the last row continues exactly like its id if and only if
      no live message of the chat shares that timestamp with a smaller id. */
  lemma TimeCursorIff(t: Table, chat: Id, last: Id)
    requires last in t && t[last].chat == chat
    ensures Candidates(t, chat, BeforeTime(t[last].createdAt)) == Candidates(t, chat, BeforeId(last))
            <==> !exists id: Id :: LiveIn(t, chat, id) && t[id].createdAt == t[last].createdAt && id < last
  {
    var byTime, byId := Candidates(t, chat, BeforeTime(t[last].createdAt)), Candidates(t, chat, BeforeId(last));
    forall id: Id | LiveIn(t, chat, id) && t[id].createdAt == t[last].createdAt && id < last
      ensures KeyOf(t, id) in byId && KeyOf(t, id) !in byTime
    {
      LiveKey(t, chat, KeyOf(t, id));
    }
    forall k ensures k in byTime ==> k in byId
             ensures k in byId && k !in byTime ==>
                     LiveIn(t, chat, k.id) && k.at == t[k.id].createdAt == t[last].createdAt && k.id < last
    {
      LiveKey(t, chat, k);
    }
  }

  // ---- Unread counts ----

  /** Live messages of the chat strictly ahead of the cursor; all of them without a cursor,
      none when the cursor has no row in the chat. */
  function Unread(t: Table, chat: Id, cursor: Option<Id>): set<Key> {
    match cursor
    case None => LiveKeys(t, chat)
    case Some(id) =>
      if id in t && t[id].chat == chat then set k | k in LiveKeys(t, chat) && Newer(k, KeyOf(t, id)) else {}
  }

  function CountUnreadAfter(t: Table, chat: Id, cursor: Option<Id>): nat {
    |Unread(t, chat, cursor)|
  }

  /** The unread count of a member. */
  function MemberUnread(db: Db, chat: Id, user: Id): nat
    requires (chat, user) in db.members
  {
    CountUnreadAfter(db.messages, chat, db.members[(chat, user)])
  }

  /** The rows the subquery of the chat list counts, for the member rows that join its chat. */
  function ListedRows(db: Db, chat: Id, user: Id): set<Id>
    requires (chat, user) in db.members
  {
    set id | id in db.messages && db.messages[id].chat == chat && db.messages[id].deletedAt.None?
             && (db.members[(chat, user)].None?
                 || exists anchor :: anchor in db.messages && db.members[(chat, user)] == Some(anchor)
                                     && db.messages[anchor].chat == chat
                                     && Newer(KeyOf(db.messages, id), KeyOf(db.messages, anchor)))
  }

  lemma {:induction false} KeysCount(t: Table, ids: set<Id>, keys: set<Key>)
    requires ids <= t.Keys && forall k :: k in keys <==> k.id in ids && k == KeyOf(t, k.id)
    ensures |keys| == |ids|
    decreases |ids|
  {
    if ids == {} {
      assert keys == {};
    } else {
      var id :| id in ids;
      assert KeyOf(t, id).id == id && KeyOf(t, id) in keys;
      KeysCount(t, ids - {id}, keys - {KeyOf(t, id)});
    }
  }

  /** The unread_count column of the chat list is `CountUnreadAfter` of the member's cursor. */
  lemma ListQueryAgrees(db: Db, chat: Id, user: Id)
    requires (chat, user) in db.members
    ensures |ListedRows(db, chat, user)| == CountUnreadAfter(db.messages, chat, db.members[(chat, user)])
  {
    var cursor := db.members[(chat, user)];
    forall k
      ensures k in Unread(db.messages, chat, cursor)
              <==> k.id in ListedRows(db, chat, user) && k == KeyOf(db.messages, k.id)
    {
      UnreadKey(db.messages, chat, cursor, k);
    }
    KeysCount(db.messages, ListedRows(db, chat, user), Unread(db.messages, chat, cursor));
  }

  /** The unread count is the position of the read cursor in the newest-first history: the
      rows before it are newer than the cursor message, the rows from it on are not. */
  lemma UnreadIsHistoryPosition(ls: seq<Label>, chat: Id, user: Id, n: nat)
    requires (chat, user) in Exec(ls).members && Exec(ls).members[(chat, user)].Some?
    requires n >= |LiveKeys(Exec(ls).messages, chat)|
    ensures var db := Exec(ls); var cursor := db.members[(chat, user)].value; var u := MemberUnread(db, chat, user);
            && cursor in db.messages && db.messages[cursor].chat == chat
            && (NewerOrder(); var rows := First(Newer, LiveKeys(db.messages, chat), n);
                && u <= |rows| == |LiveKeys(db.messages, chat)|
                && (forall i :: 0 <= i < |rows| ==> (i < u <==> Newer(rows[i], KeyOf(db.messages, cursor)))))
  {
    Reachable(ls);
    var db := Exec(ls);
    var cursor := db.members[(chat, user)].value;
    assert InChat(db, cursor, chat);
    NewerOrder();
    var live := LiveKeys(db.messages, chat);
    FirstIsFirst(Newer, live, n);
    var rows := First(Newer, live, n);
    NewerPrefix(rows, live, KeyOf(db.messages, cursor), Unread(db.messages, chat, Some(cursor)));
  }

  /** In a sorted listing of `all`, the rows newer than `key` are a prefix of size `|ahead|`. */
  lemma {:induction false} NewerPrefix(rows: seq<Key>, all: set<Key>, key: Key, ahead: set<Key>)
    requires Sorted(Newer, rows) && (forall k :: k in rows <==> k in all)
    requires forall k :: k in ahead <==> k in all && Newer(k, key)
    ensures |ahead| <= |rows|
    ensures forall i :: 0 <= i < |rows| ==> (i < |ahead| <==> Newer(rows[i], key))
    decreases |rows|
  {
    if rows == [] {
      assert ahead == {};
    } else {
      var first, rest := rows[0], rows[1..];
      assert forall i :: 0 < i < |rows| ==> Newer(first, rows[i]);
      assert rows == [first] + rest;
      assert first !in rest;
      if Newer(first, key) {
        NewerPrefix(rest, all - {first}, key, ahead - {first});
        forall i | 0 <= i < |rows| ensures i < |ahead| <==> Newer(rows[i], key) {
          assert i > 0 ==> rows[i] == rest[i - 1];
        }
      } else {
        forall i | 0 <= i < |rows| ensures !Newer(rows[i], key) {
          assert i > 0 ==> Newer(first, rows[i]);
        }
        forall k ensures k !in ahead {
          assert k in all ==> k in rows;
        }
        assert ahead == {};
      }
    }
  }

  /** Whether a key counts as unread for a cursor. */
  predicate Counts(t: Table, chat: Id, cursor: Option<Id>, k: Key) {
    cursor.None? || (cursor.value in t && t[cursor.value].chat == chat && Newer(k, KeyOf(t, cursor.value)))
  }

  lemma UnreadKey(t: Table, chat: Id, cursor: Option<Id>, k: Key)
    ensures k in Unread(t, chat, cursor) <==>
            LiveIn(t, chat, k.id) && k == KeyOf(t, k.id) && Counts(t, chat, cursor, k)
  {
    LiveKey(t, chat, k);
  }

  /** How a committed event moves a member's unread count from `u` to `u'`: a create ahead
      of the cursor adds one, a delete ahead of it takes one, an edit leaves it, and the
      member's own receipt recounts from the new cursor. */
  predicate UnreadMoves(db: Db, e: Event, chat: Id, user: Id, u: nat, u': nat)
    requires (chat, user) in db.members
  {
    var cursor := db.members[(chat, user)];
    match e
    case Created(w) =>
      u' == u + if w.chat == chat && Counts(db.messages, chat, cursor, Key(w.createdAt, w.id)) then 1 else 0
    case Updated(_) => u' == u
    case Deleted(id, c, _) =>
      && id in db.messages
      && u == u' + if c == chat && Counts(db.messages, chat, cursor, KeyOf(db.messages, id)) then 1 else 0
    case ReadReceipt(c, v, upTo) =>
      u' == if (c, v) == (chat, user) then CountUnreadAfter(db.messages, chat, Some(upTo)) else u
  }

  lemma UnreadChanges(db: Db, t: nat, chat: Id, user: Id)
    requires Inv(db) && Enabled(db, Commit(t)) && (chat, user) in db.members
    ensures (chat, user) in CommitTxn(db, t).members
    ensures UnreadMoves(db, db.txs[t].stage.event, chat, user,
                        MemberUnread(db, chat, user), MemberUnread(CommitTxn(db, t), chat, user))
  {
    assert TxnOk(db, db.txs[t]);
    var db' := CommitTxn(db, t);
    var cursor := db.members[(chat, user)];
    match db.txs[t].stage.event
    case Created(w) =>
      CreateUnread(db, w, chat, cursor);
      assert db'.messages == db.messages[w.id := LiveMessage(w)];
    case Updated(w) =>
      UpdateUnread(db.messages, db'.messages, w, chat, cursor);
    case Deleted(id, c, _) =>
      DeleteUnread(db.messages, db'.messages, id, chat, cursor);
    case ReadReceipt(_, _, _) =>
  }

  lemma UpdateUnread(t: Table, t': Table, w: WireMessage, chat: Id, cursor: Option<Id>)
    requires w.id in t && t' == t[w.id := LiveMessage(w)]
    requires t[w.id].deletedAt.None? && t[w.id].chat == w.chat && t[w.id].createdAt == w.createdAt
    ensures Unread(t', chat, cursor) == Unread(t, chat, cursor)
  {
    forall k ensures k in Unread(t', chat, cursor) <==> k in Unread(t, chat, cursor) {
      UnreadKey(t, chat, cursor, k);
      UnreadKey(t', chat, cursor, k);
    }
  }

  /** Every step of every schedule changes a member's unread count by exactly what it says. */
  lemma UnreadStep(ls: seq<Label>, l: Label, chat: Id, user: Id)
    requires (chat, user) in Exec(ls).members && (chat, user) in Next(Exec(ls), l).members
    ensures var db, db' := Exec(ls), Next(Exec(ls), l);
            if l.Commit? && Enabled(db, l)
            then UnreadMoves(db, db.txs[l.t].stage.event, chat, user,
                             MemberUnread(db, chat, user), MemberUnread(db', chat, user))
            else MemberUnread(db', chat, user) == MemberUnread(db, chat, user)
  {
    Reachable(ls);
    if l.Commit? && Enabled(Exec(ls), l) {
      UnreadChanges(Exec(ls), l.t, chat, user);
    }
  }

  lemma CreateUnreadKey(db: Db, w: WireMessage, chat: Id, cursor: Option<Id>, x: Key)
    requires w.id !in db.messages && (cursor.Some? ==> InChat(db, cursor.value, chat))
    ensures x in Unread(db.messages[w.id := LiveMessage(w)], chat, cursor)
            <==> x in Unread(db.messages, chat, cursor)
                 || (x == Key(w.createdAt, w.id) && w.chat == chat && Counts(db.messages, chat, cursor, x))
  {
    UnreadKey(db.messages, chat, cursor, x);
    UnreadKey(db.messages[w.id := LiveMessage(w)], chat, cursor, x);
  }

  lemma CreateUnread(db: Db, w: WireMessage, chat: Id, cursor: Option<Id>)
    requires w.id !in db.messages && (cursor.Some? ==> InChat(db, cursor.value, chat))
    ensures var k := Key(w.createdAt, w.id); var t' := db.messages[w.id := LiveMessage(w)];
            |Unread(t', chat, cursor)| == |Unread(db.messages, chat, cursor)|
              + if w.chat == chat && Counts(db.messages, chat, cursor, k) then 1 else 0
  {
    var k := Key(w.createdAt, w.id);
    var a, b := Unread(db.messages, chat, cursor), Unread(db.messages[w.id := LiveMessage(w)], chat, cursor);
    var counted := w.chat == chat && Counts(db.messages, chat, cursor, k);
    forall x ensures x in b <==> x in a || (x == k && counted) {
      CreateUnreadKey(db, w, chat, cursor, x);
    }
    UnreadKey(db.messages, chat, cursor, k);
    OneMore(a, b, k, counted);
  }

  lemma OneMore(a: set<Key>, b: set<Key>, k: Key, counted: bool)
    requires k !in a && forall x :: x in b <==> x in a || (x == k && counted)
    ensures |b| == |a| + if counted then 1 else 0
  {
    assert b == if counted then a + {k} else a;
  }

  lemma DeleteUnreadKey(t: Table, t': Table, id: Id, chat: Id, cursor: Option<Id>, x: Key)
    requires id in t && t[id].deletedAt.None? && t'.Keys == t.Keys
    requires t'[id].deletedAt.Some? && t'[id].chat == t[id].chat && t'[id].createdAt == t[id].createdAt
    requires forall y :: y in t && y != id ==> t'[y] == t[y]
    ensures x in Unread(t, chat, cursor)
            <==> x in Unread(t', chat, cursor)
                 || (x == KeyOf(t, id) && t[id].chat == chat && Counts(t, chat, cursor, x))
  {
    UnreadKey(t, chat, cursor, x);
    UnreadKey(t', chat, cursor, x);
  }

  lemma DeleteUnread(t: Table, t': Table, id: Id, chat: Id, cursor: Option<Id>)
    requires id in t && t[id].deletedAt.None? && t'.Keys == t.Keys
    requires t'[id].deletedAt.Some? && t'[id].chat == t[id].chat && t'[id].createdAt == t[id].createdAt
    requires forall x :: x in t && x != id ==> t'[x] == t[x]
    ensures |Unread(t, chat, cursor)| == |Unread(t', chat, cursor)|
              + if t[id].chat == chat && Counts(t, chat, cursor, KeyOf(t, id)) then 1 else 0
  {
    var k := KeyOf(t, id);
    var a, b := Unread(t, chat, cursor), Unread(t', chat, cursor);
    var counted := t[id].chat == chat && Counts(t, chat, cursor, k);
    forall x ensures x in a <==> x in b || (x == k && counted) {
      DeleteUnreadKey(t, t', id, chat, cursor, x);
    }
    UnreadKey(t', chat, cursor, k);
    OneMore(b, a, k, counted);
  }

  /** The live messages a receipt passes: newer than the old cursor, or all of them when there
      was none, and not newer than the new one. */
  function PassedKeys(t: Table, chat: Id, from: Option<Id>, to: Id): set<Key>
    requires to in t
  {
    set k | k in Unread(t, chat, from) && !Newer(k, KeyOf(t, to))
  }

  /** A receipt that does not move the cursor back, the member's first one included, lowers the
      count by exactly the live messages it passes. */
  lemma MarkReadDelta(t: Table, chat: Id, from: Option<Id>, to: Id)
    requires to in t && t[to].chat == chat
    requires from.Some? ==> from.value in t && t[from.value].chat == chat && !Newer(KeyOf(t, from.value), KeyOf(t, to))
    ensures CountUnreadAfter(t, chat, from) == CountUnreadAfter(t, chat, Some(to)) + |PassedKeys(t, chat, from, to)|
  {
    var passed := PassedKeys(t, chat, from, to);
    assert Unread(t, chat, from) == Unread(t, chat, Some(to)) + passed;
  }

  /** A receipt for an older message raises the count by exactly the live messages it uncovers. */
  lemma MarkReadBackDelta(t: Table, chat: Id, from: Id, to: Id)
    requires from in t && to in t && t[from].chat == chat && t[to].chat == chat && !Newer(KeyOf(t, to), KeyOf(t, from))
    ensures CountUnreadAfter(t, chat, Some(to)) == CountUnreadAfter(t, chat, Some(from))
            + |PassedKeys(t, chat, Some(to), from)|
  {
    MarkReadDelta(t, chat, Some(to), from);
  }
}
