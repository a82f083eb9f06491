/** Direct and group chats: service calls as sequences of atomic repository steps, with any
    other call's steps in between and a crash possible anywhere. */
module ChatService {
  import opened Domain
  import opened Sequences

  datatype Role = Owner | Admin | Member

  /** An unordered pair of users, as `directKey` identifies it. */
  datatype Pair = Pair(low: Id, high: Id)

  function PairOf(a: Id, b: Id): Pair {
    if a > b then Pair(b, a) else Pair(a, b)
  }

  /** Chats are never deleted, so every direct chat takes part in the unique index. */
  datatype Chat = Direct(pair: Pair) | Group(creator: Id)

  datatype Result = Opened(chat: Id) | Invalid | Forbidden | NotFound | Conflict | Added | Removed

  datatype Phase =
    | Lookup(attempt: nat)                                // GetDirectByKey comes next
    | Insert(attempt: nat)                                // nothing found: CreateChat comes next
    | CheckActor(chat: Id)                                // found: the actor's membership comes next
    | Reuse(chat: Id)                                     // actor is a member: AddMembers, errors ignored
    | Fill(chat: Id)                                      // created: AddMembers comes next
    | Adding(chat: Id, users: seq<Id>)                    // role check passed
    | Judging(chat: Id, target: Id, role: Role)           // actor's role read, target's comes next
    | Removing(chat: Id, target: Id)                      // rules passed
    | Done(result: Result)

  datatype Call = Call(actor: Id, peer: Id, phase: Phase)

  datatype State = State(chats: map<Id, Chat>, roles: map<(Id, Id), Role>, calls: map<nat, Call>)

  const EMPTY := State(map[], map[], map[])

  datatype Label =
    | StartDirect(t: nat, actor: Id, peer: Id)
    | Find(t: nat)
    | Make(t: nat, id: Id)
    | Verify(t: nat)
    | AddPair(t: nat)
    | AddPairFails(t: nat)
    | NewGroup(id: Id, creator: Id, others: seq<Id>)
    | AskAdd(t: nat, actor: Id, chat: Id, users: seq<Id>)
    | DoAdd(t: nat)
    | AskRemove(t: nat, actor: Id, chat: Id, target: Id)
    | ReadTarget(t: nat)
    | DoRemove(t: nat)
    | Crash(t: nat)

  /** INSERT ... ON CONFLICT DO NOTHING. */
  function Join(roles: map<(Id, Id), Role>, chat: Id, user: Id, role: Role): map<(Id, Id), Role> {
    if (chat, user) in roles then roles else roles[(chat, user) := role]
  }

  function JoinAll(roles: map<(Id, Id), Role>, chat: Id, users: seq<Id>): map<(Id, Id), Role> {
    if users == [] then roles
    else Join(JoinAll(roles, chat, users[..|users| - 1]), chat, users[|users| - 1], Member)
  }

  function Rank(role: Role): nat {
    match role
    case Owner => 2
    case Admin => 1
    case Member => 0
  }

  /** The kick rules: one removes those one strictly outranks, never an equal. */
  predicate KickAllowed(actor: Role, target: Role): (ok: bool)
    ensures ok <==> Rank(actor) > Rank(target)
  {
    match actor
    case Owner => target != Owner
    case Admin => target == Member
    case Member => false
  }

  ghost predicate HasDirect(s: State, pair: Pair) {
    exists c :: c in s.chats && s.chats[c] == Direct(pair)
  }

  ghost function Goto(s: State, t: nat, phase: Phase): State
    requires t in s.calls
  {
    s.(calls := s.calls[t := s.calls[t].(phase := phase)])
  }

  ghost function FindStep(s: State, t: nat, attempt: nat): State
    requires t in s.calls
  {
    var pair := PairOf(s.calls[t].actor, s.calls[t].peer);
    if attempt >= 3 then Goto(s, t, Done(Conflict))
    else if HasDirect(s, pair) then
      var c :| c in s.chats && s.chats[c] == Direct(pair);
      Goto(s, t, CheckActor(c))
    else Goto(s, t, Insert(attempt))
  }

  ghost function MakeStep(s: State, t: nat, attempt: nat, id: Id): State
    requires t in s.calls
  {
    var pair := PairOf(s.calls[t].actor, s.calls[t].peer);
    if HasDirect(s, pair) then Goto(s, t, Lookup(attempt + 1))
    else Goto(s.(chats := s.chats[id := Direct(pair)]), t, Fill(id))
  }

  /** A step that does not fit the call's phase leaves the state alone. */
  ghost function Next(s: State, l: Label): State {
    match l
    case StartDirect(t, actor, peer) =>
      if t in s.calls || actor == peer then s else s.(calls := s.calls[t := Call(actor, peer, Lookup(0))])
    case Find(t) =>
      if t in s.calls && s.calls[t].phase.Lookup? then FindStep(s, t, s.calls[t].phase.attempt) else s
    case Make(t, id) =>
      if t in s.calls && s.calls[t].phase.Insert? && id !in s.chats && (forall u :: (id, u) !in s.roles)
      then MakeStep(s, t, s.calls[t].phase.attempt, id) else s
    case Verify(t) =>
      if t in s.calls && s.calls[t].phase.CheckActor? then
        var c := s.calls[t].phase.chat;
        Goto(s, t, if (c, s.calls[t].actor) in s.roles then Reuse(c) else Done(Forbidden))
      else s
    case AddPair(t) =>
      if t in s.calls && (s.calls[t].phase.Reuse? || s.calls[t].phase.Fill?) then
        var c := s.calls[t].phase.chat;
        Goto(s.(roles := JoinAll(s.roles, c, [s.calls[t].actor, s.calls[t].peer])), t, Done(Opened(c)))
      else s
    case AddPairFails(t) =>
      if t in s.calls && s.calls[t].phase.Reuse? then Goto(s, t, Done(Opened(s.calls[t].phase.chat))) else s
    case NewGroup(id, creator, others) =>
      if id in s.chats || (exists u :: (id, u) in s.roles) then s
      else s.(chats := s.chats[id := Group(creator)],
              roles := JoinAll(s.roles[(id, creator) := Owner], id, others))
    case AskAdd(t, actor, chat, users) =>
      if t !in s.calls && chat in s.chats && s.chats[chat].Group? && users != []
         && (chat, actor) in s.roles && s.roles[(chat, actor)] != Member
      then s.(calls := s.calls[t := Call(actor, actor, Adding(chat, users))]) else s
    case DoAdd(t) =>
      if t in s.calls && s.calls[t].phase.Adding? then
        Goto(s.(roles := JoinAll(s.roles, s.calls[t].phase.chat, s.calls[t].phase.users)), t, Done(Added))
      else s
    case AskRemove(t, actor, chat, target) =>
      if t !in s.calls && chat in s.chats && (chat, actor) in s.roles
      then s.(calls := s.calls[t := Call(actor, actor, Judging(chat, target, s.roles[(chat, actor)]))]) else s
    case ReadTarget(t) =>
      if t in s.calls && s.calls[t].phase.Judging? then
        var Judging(chat, target, role) := s.calls[t].phase;
        Goto(s, t,
             if (chat, target) !in s.roles then Done(NotFound)
             else if s.calls[t].actor == target then Removing(chat, target)
             else if chat in s.chats && s.chats[chat].Direct? then Done(Forbidden)
             else if KickAllowed(role, s.roles[(chat, target)]) then Removing(chat, target)
             else Done(Forbidden))
      else s
    case DoRemove(t) =>
      if t in s.calls && s.calls[t].phase.Removing? then
        var Removing(chat, target) := s.calls[t].phase;
        Goto(s.(roles := s.roles - {(chat, target)}), t, Done(if (chat, target) in s.roles then Removed else NotFound))
      else s
    case Crash(t) => s.(calls := s.calls - {t})
  }

  ghost function Run(s: State, ls: seq<Label>): State {
    if ls == [] then s else Next(Run(s, ls[..|ls| - 1]), ls[|ls| - 1])
  }

  lemma {:induction false} JoinAllSpec(roles: map<(Id, Id), Role>, chat: Id, users: seq<Id>)
    ensures var r := JoinAll(roles, chat, users);
            && (forall key :: key in r <==> key in roles || (key.0 == chat && key.1 in users))
            && (forall key :: key in r ==> r[key] == if key in roles then roles[key] else Member)
  {
    if users != [] {
      var n := |users| - 1;
      JoinAllSpec(roles, chat, users[..n]);
      assert users == users[..n] + [users[n]];
    }
  }

  // ---- What the membership steps do ----

  /** Creating a group makes its creator the owner and everybody named a member, and nobody else;
      no other chat changes. */
  lemma NewGroupJoins(s: State, id: Id, creator: Id, others: seq<Id>)
    requires id !in s.chats && forall u :: (id, u) !in s.roles
    ensures var s' := Next(s, NewGroup(id, creator, others));
            && s'.chats == s.chats[id := Group(creator)] && s'.calls == s.calls
            && (forall u :: (id, u) in s'.roles <==> u == creator || u in others)
            && (forall u :: (id, u) in s'.roles ==> s'.roles[(id, u)] == if u == creator then Owner else Member)
            && (forall key :: key in s'.roles && key !in s.roles ==> key.0 == id)
            && (forall key :: key in s.roles ==> key in s'.roles && s'.roles[key] == s.roles[key])
  {
    JoinAllSpec(s.roles[(id, creator) := Owner], id, others);
  }

  /** An add that is past its checks makes every named user a member who is not in the group yet;
      nobody else joins, and roles stay. */
  lemma AddJoins(s: State, t: nat)
    requires t in s.calls && s.calls[t].phase.Adding?
    ensures var s' := Next(s, DoAdd(t)); var Adding(chat, users) := s.calls[t].phase;
            && s'.chats == s.chats && s'.calls == s.calls[t := s.calls[t].(phase := Done(Added))]
            && (forall u :: (chat, u) in s'.roles <==> (chat, u) in s.roles || u in users)
            && (forall key :: key in s'.roles && key !in s.roles ==> key.0 == chat && s'.roles[key] == Member)
            && (forall key :: key in s.roles ==> key in s'.roles && s'.roles[key] == s.roles[key])
  {
    JoinAllSpec(s.roles, s.calls[t].phase.chat, s.calls[t].phase.users);
  }

  /** Opening a direct chat puts both users of the call into it; nobody else joins, and roles stay. */
  lemma PairJoins(s: State, t: nat)
    requires t in s.calls && (s.calls[t].phase.Fill? || s.calls[t].phase.Reuse?)
    ensures var s' := Next(s, AddPair(t)); var chat := s.calls[t].phase.chat;
            && s'.chats == s.chats && s'.calls == s.calls[t := s.calls[t].(phase := Done(Opened(chat)))]
            && (forall u :: (chat, u) in s'.roles
                  <==> (chat, u) in s.roles || u == s.calls[t].actor || u == s.calls[t].peer)
            && (forall key :: key in s'.roles && key !in s.roles ==> key.0 == chat && s'.roles[key] == Member)
            && (forall key :: key in s.roles ==> key in s'.roles && s'.roles[key] == s.roles[key])
  {
    JoinAllSpec(s.roles, s.calls[t].phase.chat, [s.calls[t].actor, s.calls[t].peer]);
  }

  /** The decision on a removal, from the caller's role as it was read before the target's row: a
      missing target is not found, leaving is always allowed, and in a group the owner may remove
      everybody but an owner and an admin every plain member. */
  lemma RemovalDecision(s: State, t: nat)
    requires t in s.calls && s.calls[t].phase.Judging? && s.calls[t].phase.chat in s.chats
    ensures var Judging(chat, target, role) := s.calls[t].phase; var call' := Next(s, ReadTarget(t)).calls[t];
            && (call'.phase == Removing(chat, target)
                <==> (chat, target) in s.roles
                     && (s.calls[t].actor == target
                         || (s.chats[chat].Group?
                             && ((role == Owner && s.roles[(chat, target)] != Owner)
                                 || (role == Admin && s.roles[(chat, target)] == Member)))))
            && (call'.phase == Done(NotFound) <==> (chat, target) !in s.roles)
            && (call'.phase == Removing(chat, target) || call'.phase == Done(NotFound)
                || call'.phase == Done(Forbidden))
  {
  }

  // ---- Invariants of every run ----

  ghost predicate OneDirectPerPair(s: State) {
    forall c, d :: c in s.chats && d in s.chats && s.chats[c].Direct? && s.chats[c] == s.chats[d] ==> c == d
  }

  /** What a role row may be: members of a direct chat are its pair; an owner is the creator;
      nobody is an admin. */
  predicate RoleOk(s: State, key: (Id, Id), role: Role) {
    && key.0 in s.chats
    && match s.chats[key.0]
       case Direct(pair) => role == Member && (key.1 == pair.low || key.1 == pair.high)
       case Group(creator) => role != Admin && (role == Owner ==> key.1 == creator)
  }

  ghost predicate RolesOk(s: State) {
    forall key :: key in s.roles ==> RoleOk(s, key, s.roles[key])
  }

  ghost predicate CallOk(s: State, call: Call) {
    var pair := PairOf(call.actor, call.peer);
    match call.phase
    case Lookup(n) => call.actor != call.peer && n <= 1 && (n == 1 ==> HasDirect(s, pair))
    case Insert(n) => call.actor != call.peer && n == 0
    case CheckActor(c) => c in s.chats && s.chats[c] == Direct(pair)
    case Reuse(c) => c in s.chats && s.chats[c] == Direct(pair)
    case Fill(c) => c in s.chats && s.chats[c] == Direct(pair)
    case Adding(c, _) => c in s.chats && s.chats[c] == Group(call.actor)
    case Judging(c, _, role) => c in s.chats && role != Admin && (role == Owner ==> s.chats[c] == Group(call.actor))
    case Removing(c, target) =>
      && c in s.chats
      && (target != call.actor ==> s.chats[c] == Group(call.actor))
      && (target != call.actor && (c, target) in s.roles ==> s.roles[(c, target)] != Owner)
    case Done(result) => result != Conflict
  }

  ghost predicate CallsOk(s: State) {
    forall t :: t in s.calls ==> CallOk(s, s.calls[t])
  }

  /** Nobody has a direct chat with themselves. */
  ghost predicate PairsOk(s: State) {
    forall c :: c in s.chats && s.chats[c].Direct? ==> s.chats[c].pair.low < s.chats[c].pair.high
  }

  ghost predicate Inv(s: State) {
    OneDirectPerPair(s) && RolesOk(s) && CallsOk(s) && PairsOk(s)
  }

  /** A step never changes a role, and a row it adds to an existing chat is a plain membership
      added by a call that was past its checks. */
  lemma RowOrigin(s: State, l: Label, key: (Id, Id))
    requires key in Next(s, l).roles
    ensures key in s.roles ==> Next(s, l).roles[key] == s.roles[key]
    ensures key !in s.roles ==>
      || (l.NewGroup? && l.id == key.0 && key.0 !in s.chats
          && Next(s, l).roles[key] == if key.1 == l.creator then Owner else Member)
      || (l.DoAdd? && l.t in s.calls && s.calls[l.t].phase.Adding? && s.calls[l.t].phase.chat == key.0
          && key.1 in s.calls[l.t].phase.users && Next(s, l).roles[key] == Member)
      || (l.AddPair? && l.t in s.calls && (s.calls[l.t].phase.Reuse? || s.calls[l.t].phase.Fill?)
          && s.calls[l.t].phase.chat == key.0 && key.1 in [s.calls[l.t].actor, s.calls[l.t].peer]
          && Next(s, l).roles[key] == Member)
  {
    match l
    case AddPair(t) =>
      if t in s.calls && (s.calls[t].phase.Reuse? || s.calls[t].phase.Fill?) {
        JoinAllSpec(s.roles, s.calls[t].phase.chat, [s.calls[t].actor, s.calls[t].peer]);
      }
    case DoAdd(t) =>
      if t in s.calls && s.calls[t].phase.Adding? {
        JoinAllSpec(s.roles, s.calls[t].phase.chat, s.calls[t].phase.users);
      }
    case NewGroup(id, creator, others) =>
      JoinAllSpec(s.roles[(id, creator) := Owner], id, others);
    case _ =>
  }

  /** Only a removal that was past its checks takes a row away. */
  lemma RowLoss(s: State, l: Label, key: (Id, Id))
    requires key in s.roles && key !in Next(s, l).roles
    ensures l.DoRemove? && l.t in s.calls && s.calls[l.t].phase == Removing(key.0, key.1)
  {
    match l
    case AddPair(t) =>
      if t in s.calls && (s.calls[t].phase.Reuse? || s.calls[t].phase.Fill?) {
        JoinAllSpec(s.roles, s.calls[t].phase.chat, [s.calls[t].actor, s.calls[t].peer]);
      }
    case DoAdd(t) =>
      if t in s.calls && s.calls[t].phase.Adding? {
        JoinAllSpec(s.roles, s.calls[t].phase.chat, s.calls[t].phase.users);
      }
    case NewGroup(id, creator, others) =>
      JoinAllSpec(s.roles[(id, creator) := Owner], id, others);
    case _ =>
  }

  lemma ChatsGrow(s: State, l: Label)
    ensures forall c :: c in s.chats ==> c in Next(s, l).chats && Next(s, l).chats[c] == s.chats[c]
  {
  }

  lemma KeepDirect(s: State, l: Label)
    requires OneDirectPerPair(s)
    ensures OneDirectPerPair(Next(s, l))
  {
  }

  lemma KeepPairs(s: State, l: Label)
    requires CallsOk(s) && PairsOk(s)
    ensures PairsOk(Next(s, l))
  {
    if l.Make? && l.t in s.calls {
      assert CallOk(s, s.calls[l.t]);
    }
  }

  lemma KeepRoles(s: State, l: Label)
    requires RolesOk(s) && CallsOk(s)
    ensures RolesOk(Next(s, l))
  {
    var s' := Next(s, l);
    ChatsGrow(s, l);
    forall key | key in s'.roles ensures RoleOk(s', key, s'.roles[key]) {
      RowOrigin(s, l, key);
      if key in s.roles {
        assert RoleOk(s, key, s.roles[key]);
      } else if !l.NewGroup? {
        assert CallOk(s, s.calls[l.t]);
      }
    }
  }

  lemma CallFrame(s: State, l: Label, call: Call)
    requires CallOk(s, call)
    ensures CallOk(Next(s, l), call)
  {
    ChatsGrow(s, l);
    if call.phase.Removing? {
      var key := (call.phase.chat, call.phase.target);
      if key in Next(s, l).roles {
        RowOrigin(s, l, key);
      }
    } else if call.phase.Lookup? && call.phase.attempt == 1 {
      var c :| c in s.chats && s.chats[c] == Direct(PairOf(call.actor, call.peer));
      assert c in Next(s, l).chats;
    }
  }

  lemma OwnStepOk(s: State, l: Label, t: nat)
    requires Inv(s) && t in Next(s, l).calls && (t !in s.calls || Next(s, l).calls[t] != s.calls[t])
    ensures CallOk(Next(s, l), Next(s, l).calls[t])
  {
    if t in s.calls {
      assert CallOk(s, s.calls[t]);
      if l.Make? && !HasDirect(s, PairOf(s.calls[t].actor, s.calls[t].peer)) {
        assert Next(s, l).chats[l.id] == Direct(PairOf(s.calls[t].actor, s.calls[t].peer));
      }
      if l.Find? {
        assert s.calls[t].phase.attempt == 1 ==> HasDirect(s, PairOf(s.calls[t].actor, s.calls[t].peer));
      }
      if l.ReadTarget? {
        var Judging(chat, target, role) := s.calls[t].phase;
      }
    } else if l.AskAdd? || l.AskRemove? {
      assert RoleOk(s, (l.chat, l.actor), s.roles[(l.chat, l.actor)]);
    }
  }

  lemma {:induction false} Reachable(ls: seq<Label>)
    ensures Inv(Run(EMPTY, ls))
  {
    if ls != [] {
      var s, l := Run(EMPTY, ls[..|ls| - 1]), ls[|ls| - 1];
      Reachable(ls[..|ls| - 1]);
      KeepDirect(s, l);
      KeepRoles(s, l);
      KeepPairs(s, l);
      forall t | t in Next(s, l).calls ensures CallOk(Next(s, l), Next(s, l).calls[t]) {
        if t in s.calls && Next(s, l).calls[t] == s.calls[t] {
          CallFrame(s, l, s.calls[t]);
        } else {
          OwnStepOk(s, l, t);
        }
      }
    }
  }

  /** One direct chat per unordered pair, holding nobody else, and the exit "could not create
      or resolve" is never taken, whatever runs in between and wherever calls crash. */
  lemma DirectChatsUnique(ls: seq<Label>)
    ensures var s := Run(EMPTY, ls);
            && (forall c, d :: c in s.chats && d in s.chats && s.chats[c].Direct? && s.chats[c] == s.chats[d] ==>
               c == d)
            && (forall c, u :: c in s.chats && s.chats[c].Direct? && (c, u) in s.roles ==>
                  u == s.chats[c].pair.low || u == s.chats[c].pair.high)
            && (forall t :: t in s.calls ==> s.calls[t].phase != Done(Conflict))
  {
    Reachable(ls);
    var s := Run(EMPTY, ls);
    forall c, u | c in s.chats && s.chats[c].Direct? && (c, u) in s.roles
      ensures u == s.chats[c].pair.low || u == s.chats[c].pair.high
    {
      assert RoleOk(s, (c, u), s.roles[(c, u)]);
    }
    forall t | t in s.calls ensures s.calls[t].phase != Done(Conflict) {
      assert CallOk(s, s.calls[t]);
    }
  }

  /** A group has at most one owner, its creator; nobody is ever an admin. */
  lemma OwnerIsCreator(ls: seq<Label>, chat: Id, user: Id)
    requires (chat, user) in Run(EMPTY, ls).roles
    ensures var s := Run(EMPTY, ls);
            && chat in s.chats && s.roles[(chat, user)] != Admin
            && (s.roles[(chat, user)] == Owner ==> s.chats[chat] == Group(user))
  {
    Reachable(ls);
    var s := Run(EMPTY, ls);
    assert RoleOk(s, (chat, user), s.roles[(chat, user)]);
  }

  /** Only the owner's own call takes the owner's row away. */
  lemma OwnerLeavesByOwnCall(ls: seq<Label>, l: Label, chat: Id, user: Id)
    requires var s := Run(EMPTY, ls); (chat, user) in s.roles && s.roles[(chat, user)] == Owner
    requires (chat, user) !in Next(Run(EMPTY, ls), l).roles
    ensures l.DoRemove? && l.t in Run(EMPTY, ls).calls && Run(EMPTY, ls).calls[l.t].actor == user
  {
    Reachable(ls);
    var s := Run(EMPTY, ls);
    RowLoss(s, l, (chat, user));
    assert CallOk(s, s.calls[l.t]);
  }

  /** Whoever leaves a chat does so by their own call or is removed by the group's creator;
      nobody is ever removed from a direct chat. */
  lemma RemovedBySelfOrCreator(ls: seq<Label>, l: Label, chat: Id, user: Id)
    requires (chat, user) in Run(EMPTY, ls).roles && (chat, user) !in Next(Run(EMPTY, ls), l).roles
    ensures var s := Run(EMPTY, ls);
            && l.DoRemove? && l.t in s.calls && chat in s.chats
            && (s.calls[l.t].actor == user || s.chats[chat] == Group(s.calls[l.t].actor))
  {
    Reachable(ls);
    var s := Run(EMPTY, ls);
    RowLoss(s, l, (chat, user));
    assert CallOk(s, s.calls[l.t]);
  }

  /** Whoever is in a chat was named for it: the users of the pair in a direct chat; in a group its
      creator and those the creator named, when creating it or in a later add. */
  lemma JoinedByCreatorOrPair(ls: seq<Label>, l: Label, chat: Id, user: Id)
    requires (chat, user) !in Run(EMPTY, ls).roles && (chat, user) in Next(Run(EMPTY, ls), l).roles
    ensures var s := Run(EMPTY, ls);
            || (l.NewGroup? && l.id == chat && chat !in s.chats && (user == l.creator || user in l.others))
            || (l.DoAdd? && l.t in s.calls && s.calls[l.t].phase.Adding? && s.calls[l.t].phase.chat == chat
                && chat in s.chats && s.chats[chat] == Group(s.calls[l.t].actor)
                && user in s.calls[l.t].phase.users)
            || (l.AddPair? && l.t in s.calls && chat in s.chats
                && s.chats[chat] == Direct(PairOf(s.calls[l.t].actor, s.calls[l.t].peer))
                && (user == s.calls[l.t].actor || user == s.calls[l.t].peer))
  {
    Reachable(ls);
    var s := Run(EMPTY, ls);
    RowOrigin(s, l, (chat, user));
    assert (l.DoAdd? || l.AddPair?) && l.t in s.calls ==> CallOk(s, s.calls[l.t]);
    if l.NewGroup? {
      NewGroupJoins(s, l.id, l.creator, l.others);
    }
  }

  /** In every run a removal is let through if and only if the target is in the chat and is the
      caller itself or the caller was read as the chat's owner. */
  lemma MayRemoveIff(ls: seq<Label>, t: nat)
    requires t in Run(EMPTY, ls).calls && Run(EMPTY, ls).calls[t].phase.Judging?
    ensures var s := Run(EMPTY, ls); var Judging(chat, target, role) := s.calls[t].phase;
            Next(s, ReadTarget(t)).calls[t].phase == Removing(chat, target)
            <==> (chat, target) in s.roles && (s.calls[t].actor == target || role == Owner)
  {
    Reachable(ls);
    var s := Run(EMPTY, ls);
    var Judging(chat, target, role) := s.calls[t].phase;
    assert CallOk(s, s.calls[t]);
    RemovalDecision(s, t);
    if (chat, target) in s.roles {
      assert RoleOk(s, (chat, target), s.roles[(chat, target)]);
    }
  }

  function Users(s: State, chat: Id): set<Id> {
    set key | key in s.roles && key.0 == chat :: key.1
  }

  /** Nobody owns the group and no add is past its role check. */
  ghost predicate Ownerless(s: State, chat: Id) {
    && chat in s.chats && s.chats[chat].Group?
    && (forall u :: (chat, u) in s.roles ==> s.roles[(chat, u)] == Member)
    && (forall t :: t in s.calls && s.calls[t].phase.Adding? ==> s.calls[t].phase.chat != chat)
  }

  lemma OwnerlessStep(s: State, l: Label, chat: Id)
    requires Inv(s) && Ownerless(s, chat)
    ensures Ownerless(Next(s, l), chat) && Users(Next(s, l), chat) <= Users(s, chat)
  {
    ChatsGrow(s, l);
    var s' := Next(s, l);
    forall u | (chat, u) in s'.roles ensures (chat, u) in s.roles && s'.roles[(chat, u)] == Member {
      RowOrigin(s, l, (chat, u));
      assert l.AddPair? && l.t in s.calls ==> CallOk(s, s.calls[l.t]);
    }
  }

  lemma LastStep(s: State, ls: seq<Label>, init: seq<Label>, l: Label)
    requires ls == init + [l]
    ensures Run(s, ls) == Next(Run(s, init), l)
  {
    assert ls[..|ls| - 1] == init;
  }

  lemma RunSnoc(s: State, ls: seq<Label>, rest: seq<Label>)
    requires rest != []
    ensures Run(s, ls + rest) == Next(Run(s, ls + rest[..|rest| - 1]), rest[|rest| - 1])
  {
    Unsnoc(ls, rest);
    LastStep(s, ls + rest, ls + rest[..|rest| - 1], rest[|rest| - 1]);
  }

  /** Once the owner has left and the adds under way are finished, the member set only shrinks,
      for the rest of every run. */
  lemma {:induction false} OwnerlessGroupsShrink(ls: seq<Label>, rest: seq<Label>, chat: Id)
    requires Ownerless(Run(EMPTY, ls), chat)
    ensures Ownerless(Run(EMPTY, ls + rest), chat)
    ensures Users(Run(EMPTY, ls + rest), chat) <= Users(Run(EMPTY, ls), chat)
    decreases |rest|
  {
    if rest == [] {
      assert ls + rest == ls;
    } else {
      var shorter, l := rest[..|rest| - 1], rest[|rest| - 1];
      OwnerlessGroupsShrink(ls, shorter, chat);
      Reachable(ls + shorter);
      RunSnoc(EMPTY, ls, rest);
      var mid := Run(EMPTY, ls + shorter);
      OwnerlessStep(mid, l, chat);
      assert Users(Next(mid, l), chat) <= Users(mid, chat);
    }
  }

  // ---- A direct chat left without members ----

  /** The pair's chat exists, nobody is in it, and no call is about to fill it. */
  ghost predicate Stranded(s: State, chat: Id) {
    && chat in s.chats && s.chats[chat].Direct?
    && (forall u :: (chat, u) !in s.roles)
    && (forall t :: t in s.calls && (s.calls[t].phase.Fill? || s.calls[t].phase.Reuse?) ==>
       s.calls[t].phase.chat != chat)
  }

  lemma StrandedRoles(s: State, l: Label, chat: Id)
    requires Inv(s) && Stranded(s, chat)
    ensures forall u :: (chat, u) !in Next(s, l).roles
  {
    assert l.DoAdd? && l.t in s.calls ==> CallOk(s, s.calls[l.t]);
    forall u ensures (chat, u) !in Next(s, l).roles {
      if (chat, u) in Next(s, l).roles {
        RowOrigin(s, l, (chat, u));
      }
    }
  }

  /** No call comes to fill, reuse or open the chat. */
  lemma StrandedCalls(s: State, l: Label, chat: Id, t: nat)
    requires Inv(s) && Stranded(s, chat) && t in Next(s, l).calls
    ensures Next(s, l).calls[t].phase != Fill(chat) && Next(s, l).calls[t].phase != Reuse(chat)
    ensures Next(s, l).calls[t].phase == Done(Opened(chat)) ==> t in s.calls && s.calls[t].phase == Done(Opened(chat))
  {
  }

  lemma StrandedStep(s: State, l: Label, chat: Id)
    requires Inv(s) && Stranded(s, chat)
    ensures Stranded(Next(s, l), chat)
    ensures forall t :: t in Next(s, l).calls && Next(s, l).calls[t].phase == Done(Opened(chat)) ==>
              t in s.calls && s.calls[t].phase == Done(Opened(chat))
  {
    ChatsGrow(s, l);
    StrandedRoles(s, l, chat);
    forall t | t in Next(s, l).calls
      ensures Next(s, l).calls[t].phase != Fill(chat) && Next(s, l).calls[t].phase != Reuse(chat)
      ensures Next(s, l).calls[t].phase == Done(Opened(chat)) ==> t in s.calls && s.calls[t].phase == Done(Opened(chat))
    {
      StrandedCalls(s, l, chat, t);
    }
  }

  /** A direct chat created by a call that crashed before adding the members stays empty for
      the rest of every run: each later call finds it and is refused, none opens it. */
  lemma {:induction false} StrandedForever(ls: seq<Label>, rest: seq<Label>, chat: Id, t: nat)
    requires Stranded(Run(EMPTY, ls), chat)
    requires t in Run(EMPTY, ls).calls ==> Run(EMPTY, ls).calls[t].phase != Done(Opened(chat))
    ensures var s := Run(EMPTY, ls + rest);
            && Stranded(s, chat) && Users(s, chat) == {}
            && (t in s.calls ==> s.calls[t].phase != Done(Opened(chat)))
    decreases |rest|
  {
    if rest == [] {
      assert ls + rest == ls;
    } else {
      var shorter, l := rest[..|rest| - 1], rest[|rest| - 1];
      StrandedForever(ls, shorter, chat, t);
      Reachable(ls + shorter);
      RunSnoc(EMPTY, ls, rest);
      StrandedStep(Run(EMPTY, ls + shorter), l, chat);
    }
  }

  // ---- When a direct chat can still be opened ----

  /** Continuing the run with `rest` lets call `t` open the chat. */
  ghost predicate Opens(s: State, rest: seq<Label>, t: nat, chat: Id) {
    && t in Run(s, rest).calls && Run(s, rest).calls[t].phase == Done(Opened(chat))
    && !(t in s.calls && s.calls[t].phase == Done(Opened(chat)))
  }

  ghost predicate Openable(s: State, chat: Id) {
    exists rest, t :: Opens(s, rest, t, chat)
  }

  lemma {:induction false} RunAppend(s: State, a: seq<Label>, b: seq<Label>)
    ensures Run(s, a + b) == Run(Run(s, a), b)
    decreases |b|
  {
    if b == [] {
      assert a + b == a;
    } else {
      var n := |b| - 1;
      RunAppend(s, a, b[..n]);
      Unsnoc(a, b);
      LastStep(s, a + b, a + b[..n], b[n]);
    }
  }

  lemma {:induction false} UpperBound(s: set<nat>) returns (n: nat)
    ensures forall x :: x in s ==> x < n
    decreases |s|
  {
    if s == {} {
      n := 0;
    } else {
      var x :| x in s;
      var m := UpperBound(s - {x});
      n := if m <= x then x + 1 else m;
      forall y | y in s ensures y < n {
        assert y == x || y in s - {x};
      }
    }
  }

  lemma FourSteps(s: State, a: Label, b: Label, c: Label, d: Label)
    ensures Run(s, [a, b, c, d]) == Next(Next(Next(Next(s, a), b), c), d)
  {
    LastStep(s, [a], [], a);
    LastStep(s, [a, b], [a], b);
    LastStep(s, [a, b, c], [a, b], c);
    LastStep(s, [a, b, c, d], [a, b, c], d);
  }

  lemma ThreeSteps(s: State, a: Label, b: Label, c: Label)
    ensures Run(s, [a, b, c]) == Next(Next(Next(s, a), b), c)
  {
    LastStep(s, [a], [], a);
    LastStep(s, [a, b], [a], b);
    LastStep(s, [a, b, c], [a, b], c);
  }

  lemma TwoSteps(s: State, a: Label, b: Label)
    ensures Run(s, [a, b]) == Next(Next(s, a), b)
  {
    LastStep(s, [a], [], a);
    LastStep(s, [a, b], [a], b);
  }

  /** A member's own call finds the chat and opens it. */
  lemma MemberOpens(s: State, chat: Id, actor: Id, peer: Id, t: nat)
    requires OneDirectPerPair(s) && t !in s.calls && actor != peer
    requires chat in s.chats && s.chats[chat] == Direct(PairOf(actor, peer)) && (chat, actor) in s.roles
    ensures Opens(s, [StartDirect(t, actor, peer), Find(t), Verify(t), AddPair(t)], t, chat)
  {
    FourSteps(s, StartDirect(t, actor, peer), Find(t), Verify(t), AddPair(t));
    var s1 := Next(s, StartDirect(t, actor, peer));
    assert s1.calls[t] == Call(actor, peer, Lookup(0)) && s1.chats == s.chats && s1.roles == s.roles;
    var s2 := Next(s1, Find(t));
    assert HasDirect(s1, PairOf(actor, peer));
    assert s2.calls[t].phase == CheckActor(chat) && s2.roles == s.roles && s2.calls[t].actor == actor;
    var s3 := Next(s2, Verify(t));
    assert s3.calls[t].phase == Reuse(chat);
    assert Next(s3, AddPair(t)).calls[t].phase == Done(Opened(chat));
  }

  /** A call about to add the pair opens the chat. */
  lemma PendingOpens(s: State, chat: Id, t: nat)
    requires t in s.calls && (s.calls[t].phase == Fill(chat) || s.calls[t].phase == Reuse(chat))
    ensures Opens(s, [AddPair(t)], t, chat)
  {
    LastStep(s, [AddPair(t)], [], AddPair(t));
    assert Next(s, AddPair(t)).calls[t].phase == Done(Opened(chat));
  }

  lemma NotStrandedOpens(s: State, chat: Id)
    requires Inv(s) && chat in s.chats && s.chats[chat].Direct? && !Stranded(s, chat)
    ensures Openable(s, chat)
  {
    if u :| (chat, u) in s.roles {
      assert RoleOk(s, (chat, u), s.roles[(chat, u)]);
      var pair := s.chats[chat].pair;
      var peer := if u == pair.low then pair.high else pair.low;
      assert PairOf(u, peer) == pair;
      var t := UpperBound(s.calls.Keys);
      MemberOpens(s, chat, u, peer, t);
    } else {
      var t :| t in s.calls && (s.calls[t].phase.Fill? || s.calls[t].phase.Reuse?) && s.calls[t].phase.chat == chat;
      PendingOpens(s, chat, t);
    }
  }

  /** In every reachable state a direct chat can be opened by some continuation of the run if and
      only if it has a member or a call about to add the pair: otherwise it is locked for good. */
  lemma OpenableIff(ls: seq<Label>, chat: Id)
    requires chat in Run(EMPTY, ls).chats && Run(EMPTY, ls).chats[chat].Direct?
    ensures Openable(Run(EMPTY, ls), chat) <==> !Stranded(Run(EMPTY, ls), chat)
  {
    Reachable(ls);
    var s := Run(EMPTY, ls);
    if !Stranded(s, chat) {
      NotStrandedOpens(s, chat);
    }
    if Openable(s, chat) && Stranded(s, chat) {
      var rest, t :| Opens(s, rest, t, chat);
      RunAppend(EMPTY, ls, rest);
      StrandedForever(ls, rest, chat, t);
      assert false;
    }
  }

  // ---- Who is refused a direct chat ----

  /** Step `i` adds both users of the pair to chat `c`. */
  ghost predicate AddsPair(ls: seq<Label>, i: nat, c: Id)
    requires i < |ls|
  {
    var s := Run(EMPTY, ls[..i]);
    && ls[i].AddPair? && ls[i].t in s.calls
    && (s.calls[ls[i].t].phase == Reuse(c) || s.calls[ls[i].t].phase == Fill(c))
  }

  /** Step `i` takes the user out of chat `c`. */
  ghost predicate TakesOut(ls: seq<Label>, i: nat, c: Id, u: Id)
    requires i < |ls|
  {
    (c, u) in Run(EMPTY, ls[..i]).roles && (c, u) !in Next(Run(EMPTY, ls[..i]), ls[i]).roles
  }

  /** Some step has added the pair, and none has taken the user out since. */
  ghost predicate AddedLast(ls: seq<Label>, c: Id, u: Id) {
    exists i :: 0 <= i < |ls| && AddsPair(ls, i, c) && forall k :: i < k < |ls| ==> !TakesOut(ls, k, c, u)
  }

  lemma PrefixSteps(ls: seq<Label>, n: nat, i: nat, c: Id, u: Id)
    requires i < n <= |ls|
    ensures AddsPair(ls[..n], i, c) <==> AddsPair(ls, i, c)
    ensures TakesOut(ls[..n], i, c, u) <==> TakesOut(ls, i, c, u)
  {
    assert ls[..n][..i] == ls[..i];
  }

  /** Having been added last survives a step that does not take the user out. */
  lemma AddedStays(ls: seq<Label>, c: Id, u: Id)
    requires ls != [] && AddedLast(ls[..|ls| - 1], c, u) && !TakesOut(ls, |ls| - 1, c, u)
    ensures AddedLast(ls, c, u)
  {
    var n := |ls| - 1;
    var i :| 0 <= i < n && AddsPair(ls[..n], i, c) && forall k :: i < k < n ==> !TakesOut(ls[..n], k, c, u);
    PrefixSteps(ls, n, i, c, u);
    forall k | i < k < |ls| ensures !TakesOut(ls, k, c, u) {
      if k < n {
        PrefixSteps(ls, n, k, c, u);
      }
    }
  }

  /** Having been added last was so before a step that does not add the pair. */
  lemma AddedBefore(ls: seq<Label>, c: Id, u: Id)
    requires ls != [] && AddedLast(ls, c, u) && !AddsPair(ls, |ls| - 1, c)
    ensures AddedLast(ls[..|ls| - 1], c, u) && !TakesOut(ls, |ls| - 1, c, u)
  {
    var n := |ls| - 1;
    var i :| 0 <= i < |ls| && AddsPair(ls, i, c) && forall k :: i < k < |ls| ==> !TakesOut(ls, k, c, u);
    PrefixSteps(ls, n, i, c, u);
    forall k | i < k < n ensures !TakesOut(ls[..n], k, c, u) {
      PrefixSteps(ls, n, k, c, u);
    }
  }

  lemma AddedLastStep(ls: seq<Label>, c: Id, u: Id)
    requires ls != []
    ensures AddedLast(ls, c, u)
            <==> AddsPair(ls, |ls| - 1, c) || (AddedLast(ls[..|ls| - 1], c, u) && !TakesOut(ls, |ls| - 1, c, u))
  {
    if AddedLast(ls[..|ls| - 1], c, u) && !TakesOut(ls, |ls| - 1, c, u) {
      AddedStays(ls, c, u);
    }
    if AddedLast(ls, c, u) && !AddsPair(ls, |ls| - 1, c) {
      AddedBefore(ls, c, u);
    }
  }

  /** A direct chat of a pair `u` belongs to, or no chat yet. */
  predicate PairChat(s: State, c: Id, u: Id) {
    c in s.chats ==> s.chats[c].Direct? && (u == s.chats[c].pair.low || u == s.chats[c].pair.high)
  }

  /** One step of a run: a row that appears in the pair's chat comes from adding the pair, and
      adding the pair puts it there. */
  lemma PairRowStep(s: State, l: Label, c: Id, u: Id)
    requires Inv(s) && PairChat(s, c, u) && PairChat(Next(s, l), c, u)
    ensures var adds := l.AddPair? && l.t in s.calls
                        && (s.calls[l.t].phase == Reuse(c) || s.calls[l.t].phase == Fill(c));
            && (adds ==> (c, u) in Next(s, l).roles)
            && ((c, u) in Next(s, l).roles ==> adds || (c, u) in s.roles)
  {
    if l.AddPair? && l.t in s.calls && (s.calls[l.t].phase == Reuse(c) || s.calls[l.t].phase == Fill(c)) {
      assert CallOk(s, s.calls[l.t]);
      JoinAllSpec(s.roles, c, [s.calls[l.t].actor, s.calls[l.t].peer]);
      assert u in [s.calls[l.t].actor, s.calls[l.t].peer];
    } else if (c, u) in Next(s, l).roles {
      RowOrigin(s, l, (c, u));
      assert l.DoAdd? && l.t in s.calls ==> CallOk(s, s.calls[l.t]);
    }
  }

  /** In every run a user of the pair is in its chat if and only if some step has added the pair
      to it and no later one has taken the user out. */
  lemma {:induction false} InsideIff(ls: seq<Label>, c: Id, u: Id)
    requires PairChat(Run(EMPTY, ls), c, u)
    ensures (c, u) in Run(EMPTY, ls).roles <==> AddedLast(ls, c, u)
  {
    if ls != [] {
      var n := |ls| - 1;
      var s := Run(EMPTY, ls[..n]);
      Reachable(ls[..n]);
      ChatsGrow(s, ls[n]);
      InsideIff(ls[..n], c, u);
      PairRowStep(s, ls[n], c, u);
      AddedLastStep(ls, c, u);
    }
  }

  /** Whatever interleaves: a call that has found its chat, by its first lookup or after losing the
      race for it, is refused if and only if nobody has added the pair since its caller was last
      taken out of the chat, or ever. */
  lemma RefusedIff(ls: seq<Label>, t: nat)
    requires t in Run(EMPTY, ls).calls && Run(EMPTY, ls).calls[t].phase.CheckActor?
    ensures var s := Run(EMPTY, ls); var call := s.calls[t];
            Next(s, Verify(t)).calls[t].phase == Done(Forbidden) <==> !AddedLast(ls, call.phase.chat, call.actor)
  {
    Reachable(ls);
    var call := Run(EMPTY, ls).calls[t];
    assert CallOk(Run(EMPTY, ls), call);
    InsideIff(ls, call.phase.chat, call.actor);
  }

  /** Four steps of one call are enough to strand a pair. */
  lemma CrashStrands(actor: Id, peer: Id, chat: Id)
    requires actor != peer
    ensures Stranded(Run(EMPTY, [StartDirect(0, actor, peer), Find(0), Make(0, chat), Crash(0)]), chat)
  {
    var ls := [StartDirect(0, actor, peer), Find(0), Make(0, chat), Crash(0)];
    assert ls[..3] == [StartDirect(0, actor, peer), Find(0), Make(0, chat)];
    assert ls[..3][..2] == [StartDirect(0, actor, peer), Find(0)];
    assert ls[..3][..2][..1] == [StartDirect(0, actor, peer)];
    var s1 := Run(EMPTY, ls[..3][..2][..1]);
    assert s1 == Next(Run(EMPTY, []), StartDirect(0, actor, peer));
    assert s1.calls[0] == Call(actor, peer, Lookup(0)) && s1.chats == map[];
    var s2 := Run(EMPTY, ls[..3][..2]);
    assert s2 == Next(s1, Find(0)) && s2.calls[0].phase == Insert(0);
    var s3 := Run(EMPTY, ls[..3]);
    assert s3 == Next(s2, Make(0, chat)) && s3.chats == map[chat := Direct(PairOf(actor, peer))];
    assert Run(EMPTY, ls) == Next(s3, Crash(0));
  }
}
