/** The chat repository's statements and the create-or-find loop, run without interference. */
module ChatTables {
  import opened Domain
  import opened ChatService

  lemma JoinAllSame(roles: map<(Id, Id), Role>, chat: Id, a: seq<Id>, b: seq<Id>)
    requires forall u :: (chat, u) in roles || (u in a <==> u in b)
    ensures JoinAll(roles, chat, a) == JoinAll(roles, chat, b)
  {
    JoinAllSpec(roles, chat, a);
    JoinAllSpec(roles, chat, b);
  }

  // ---- Schedules of one call ----

  /** A rival call for the same pair that commits its chat between this call's lookup and its
      insert. It adds both users right away (0), after this call's insert has failed (1), after
      this call has found the rival's chat (2), or too late or never (more). */
  datatype Race = Race(id: Id, joins: nat)

  function Rival(actor: Id, peer: Id, race: Option<Race>): seq<Label> {
    match race
    case None => []
    case Some(q) => [StartDirect(1, peer, actor), Find(1), Make(1, q.id)]
  }

  function Joins(race: Option<Race>, k: nat): seq<Label> {
    if race.Some? && race.value.joins == k then [AddPair(1)] else []
  }

  /** `CreateDirect` as call 0, with its rival; steps that do not fit the call's phase have no effect. */
  function DirectSteps(actor: Id, peer: Id, id: Id, race: Option<Race>): seq<Label> {
    [StartDirect(0, actor, peer), Find(0)] + Rival(actor, peer, race) + Joins(race, 0)
    + [Make(0, id)] + Joins(race, 1) + [Find(0)] + Joins(race, 2) + [Verify(0), AddPair(0)]
  }

  /** The call has ended with `r` and left these tables. */
  ghost predicate EndedWith(s: State, chats: map<Id, Chat>, roles: map<(Id, Id), Role>, r: Result) {
    s.chats == chats && s.roles == roles && 0 in s.calls && s.calls[0].phase == Done(r)
  }

  /** The rest of the schedule from a state in which the rival has its chat, or has none. */
  ghost function Rest(s: State, id: Id, race: Option<Race>): State {
    var s4 := Next(Run(s, Joins(race, 0)), Make(0, id));
    var s6 := Next(Run(s4, Joins(race, 1)), Find(0));
    Next(Next(Run(s6, Joins(race, 2)), Verify(0)), AddPair(0))
  }

  lemma DirectParts(s: State, actor: Id, peer: Id, id: Id, race: Option<Race>)
    ensures Run(s, DirectSteps(actor, peer, id, race))
            == Rest(Run(Run(s, [StartDirect(0, actor, peer), Find(0)]), Rival(actor, peer, race)), id, race)
  {
    var a, b := [StartDirect(0, actor, peer), Find(0)], Rival(actor, peer, race);
    var c := a + b + Joins(race, 0);
    RunAppend(s, a, b);
    RunAppend(s, a + b, Joins(race, 0));
    LastStep(s, c + [Make(0, id)], c, Make(0, id));
    var d := c + [Make(0, id)] + Joins(race, 1);
    RunAppend(s, c + [Make(0, id)], Joins(race, 1));
    LastStep(s, d + [Find(0)], d, Find(0));
    var e := d + [Find(0)] + Joins(race, 2);
    RunAppend(s, d + [Find(0)], Joins(race, 2));
    LastStep(s, e + [Verify(0)], e, Verify(0));
    LastStep(s, e + [Verify(0)] + [AddPair(0)], e + [Verify(0)], AddPair(0));
    assert e + [Verify(0)] + [AddPair(0)] == DirectSteps(actor, peer, id, race);
  }

  /** Without a rival that is about to add the pair its steps have no effect. */
  lemma JoinsNothing(s: State, race: Option<Race>, k: nat)
    requires race.Some? && 1 in s.calls ==> !s.calls[1].phase.Fill? && !s.calls[1].phase.Reuse?
    requires race.Some? ==> 1 in s.calls
    ensures Run(s, Joins(race, k)) == s
  {
    if race.Some? && race.value.joins == k {
      LastStep(s, [AddPair(1)], [], AddPair(1));
    }
  }

  /** The first two steps: the call has found the pair's chat, or is about to create it. */
  lemma DirectStarts(s: State, actor: Id, peer: Id)
    requires OneDirectPerPair(s) && s.calls == map[] && actor != peer
    ensures var s' := Run(s, [StartDirect(0, actor, peer), Find(0)]);
            && s'.chats == s.chats && s'.roles == s.roles && s'.calls.Keys == {0}
            && s'.calls[0].actor == actor && s'.calls[0].peer == peer
            && (if HasDirect(s, PairOf(actor, peer))
                then s'.calls[0].phase.CheckActor? && s'.calls[0].phase.chat in s.chats
                     && s.chats[s'.calls[0].phase.chat] == Direct(PairOf(actor, peer))
                else s'.calls[0].phase == ChatService.Insert(0))
  {
    TwoSteps(s, StartDirect(0, actor, peer), Find(0));
    var s1 := Next(s, StartDirect(0, actor, peer));
    assert s1.calls[0] == Call(actor, peer, Lookup(0)) && s1.chats == s.chats;
    assert HasDirect(s1, PairOf(actor, peer)) <==> HasDirect(s, PairOf(actor, peer));
  }

  lemma PairSymmetric(a: Id, b: Id)
    ensures PairOf(a, b) == PairOf(b, a)
  {
  }

  /** A rival has no effect when the pair's chat exists. */
  lemma RivalFinds(s: State, actor: Id, peer: Id, race: Option<Race>)
    requires HasDirect(s, PairOf(actor, peer)) && actor != peer && s.calls.Keys == {0}
    ensures var s' := Run(s, Rival(actor, peer, race));
            && s'.chats == s.chats && s'.roles == s.roles && 0 in s'.calls && s'.calls[0] == s.calls[0]
            && (race.Some? ==> 1 in s'.calls && s'.calls[1].phase.CheckActor?)
  {
    if race.Some? {
      ThreeSteps(s, StartDirect(1, peer, actor), Find(1), Make(1, race.value.id));
      var s1 := Next(s, StartDirect(1, peer, actor));
      PairSymmetric(peer, actor);
      assert HasDirect(s1, PairOf(peer, actor));
      var s2 := Next(s1, Find(1));
      assert s2.calls[1].phase.CheckActor? && Next(s2, Make(1, race.value.id)) == s2;
    }
  }

  lemma FoundRest(s: State, id: Id, race: Option<Race>, c: Id)
    requires 0 in s.calls && s.calls[0].phase == CheckActor(c)
    requires race.Some? ==> 1 in s.calls && s.calls[1].phase.CheckActor?
    ensures var actor, peer := s.calls[0].actor, s.calls[0].peer;
            if (c, actor) in s.roles
            then EndedWith(Rest(s, id, race), s.chats, JoinAll(s.roles, c, [actor, peer]), Opened(c))
            else EndedWith(Rest(s, id, race), s.chats, s.roles, Forbidden)
  {
    JoinsNothing(s, race, 0);
    assert Next(s, Make(0, id)) == s;
    JoinsNothing(s, race, 1);
    assert Next(s, Find(0)) == s;
    JoinsNothing(s, race, 2);
  }

  lemma NewRest(s: State, id: Id)
    requires 0 in s.calls && s.calls[0].phase == ChatService.Insert(0) && id !in s.chats
             && (forall u :: (id, u) !in s.roles)
    requires !HasDirect(s, PairOf(s.calls[0].actor, s.calls[0].peer))
    ensures var actor, peer := s.calls[0].actor, s.calls[0].peer;
            EndedWith(Rest(s, id, None), s.chats[id := Direct(PairOf(actor, peer))],
                      JoinAll(s.roles, id, [actor, peer]), Opened(id))
  {
    JoinsNothing(s, None, 0);
    var s1 := Next(s, Make(0, id));
    assert s1.calls[0].phase == Fill(id) && s1.roles == s.roles;
    JoinsNothing(s1, None, 1);
    assert Next(s1, Find(0)) == s1;
    JoinsNothing(s1, None, 2);
    assert Next(s1, Verify(0)) == s1;
  }

  // ---- A lost race ----

  function JoinedRoles(roles: map<(Id, Id), Role>, actor: Id, peer: Id, q: Race, joined: bool): map<(Id, Id), Role> {
    if joined then JoinAll(roles, q.id, [peer, actor]) else roles
  }

  /** The rival's chat stands, its users have joined or not, and call 0 is at `phase`. */
  ghost predicate LostAt(s: State, start: State, actor: Id, peer: Id, q: Race, phase: Phase, joined: bool) {
    && s.chats == start.chats[q.id := Direct(PairOf(actor, peer))]
    && s.roles == JoinedRoles(start.roles, actor, peer, q, joined)
    && s.calls == map[0 := Call(actor, peer, phase),
                      1 := Call(peer, actor, if joined then Done(Opened(q.id)) else Fill(q.id))]
  }

  lemma HasDirectFrame(s: State, s': State, pair: Pair)
    requires s'.chats == s.chats
    ensures HasDirect(s', pair) <==> HasDirect(s, pair)
  {
  }

  /** A rival that finds nothing creates the pair's chat. */
  lemma RivalCreates(s: State, start: State, actor: Id, peer: Id, q: Race)
    requires s.chats == start.chats && s.roles == start.roles
    requires s.calls == map[0 := Call(actor, peer, ChatService.Insert(0))]
    requires !HasDirect(s, PairOf(actor, peer)) && actor != peer
    requires q.id !in s.chats && forall u :: (q.id, u) !in s.roles
    ensures LostAt(Run(s, Rival(actor, peer, Some(q))), start, actor, peer, q, ChatService.Insert(0), false)
  {
    ThreeSteps(s, StartDirect(1, peer, actor), Find(1), Make(1, q.id));
    PairSymmetric(peer, actor);
    var s1 := s.(calls := s.calls[1 := Call(peer, actor, Lookup(0))]);
    assert Next(s, StartDirect(1, peer, actor)) == s1;
    HasDirectFrame(s, s1, PairOf(peer, actor));
    var s2 := s.(calls := s.calls[1 := Call(peer, actor, ChatService.Insert(0))]);
    assert Next(s1, Find(1)) == s2;
    HasDirectFrame(s, s2, PairOf(peer, actor));
    RivalMakes(s2, start, actor, peer, q);
  }

  lemma RivalMakes(s: State, start: State, actor: Id, peer: Id, q: Race)
    requires s.chats == start.chats && s.roles == start.roles && PairOf(peer, actor) == PairOf(actor, peer)
    requires s.calls == map[0 := Call(actor, peer, ChatService.Insert(0)),
                                1 := Call(peer, actor, ChatService.Insert(0))]
    requires !HasDirect(s, PairOf(actor, peer)) && q.id !in s.chats && forall u :: (q.id, u) !in s.roles
    ensures LostAt(Next(s, Make(1, q.id)), start, actor, peer, q, ChatService.Insert(0), false)
  {
  }

  lemma LostJoins(s: State, start: State, actor: Id, peer: Id, q: Race, phase: Phase, k: nat)
    requires LostAt(s, start, actor, peer, q, phase, q.joins < k)
    ensures LostAt(Run(s, Joins(Some(q), k)), start, actor, peer, q, phase, q.joins < k + 1)
  {
    if q.joins == k {
      LastStep(s, [AddPair(1)], [], AddPair(1));
    }
  }

  lemma LostMake(s: State, start: State, actor: Id, peer: Id, q: Race, id: Id, joined: bool)
    requires LostAt(s, start, actor, peer, q, ChatService.Insert(0), joined)
    requires id != q.id && id !in start.chats && forall u :: (id, u) !in start.roles
    ensures LostAt(Next(s, Make(0, id)), start, actor, peer, q, Lookup(1), joined)
  {
    assert s.chats[q.id] == Direct(PairOf(actor, peer));
    assert HasDirect(s, PairOf(actor, peer));
    if joined {
      JoinAllSpec(start.roles, q.id, [peer, actor]);
    }
    assert id !in s.chats && forall u :: (id, u) !in s.roles;
    assert Next(s, Make(0, id)) == Goto(s, 0, Lookup(1));
  }

  lemma LostFind(s: State, start: State, actor: Id, peer: Id, q: Race, joined: bool)
    requires LostAt(s, start, actor, peer, q, Lookup(1), joined) && !HasDirect(start, PairOf(actor, peer))
    ensures LostAt(Next(s, Find(0)), start, actor, peer, q, CheckActor(q.id), joined)
  {
    assert s.chats[q.id] == Direct(PairOf(actor, peer));
    assert forall c :: c in s.chats && s.chats[c] == Direct(PairOf(actor, peer)) ==> c == q.id;
  }

  lemma JoinedIff(roles: map<(Id, Id), Role>, actor: Id, peer: Id, q: Race, joined: bool)
    requires forall u :: (q.id, u) !in roles
    ensures (q.id, actor) in JoinedRoles(roles, actor, peer, q, joined) <==> joined
  {
    JoinAllSpec(roles, q.id, [peer, actor]);
  }

  lemma LostEnds(s: State, start: State, actor: Id, peer: Id, q: Race, joined: bool)
    requires LostAt(s, start, actor, peer, q, CheckActor(q.id), joined) && (forall u :: (q.id, u) !in start.roles)
    ensures var s' := Next(Next(s, Verify(0)), AddPair(0));
            if joined then EndedWith(s', s.chats, JoinAll(s.roles, q.id, [actor, peer]), Opened(q.id))
            else EndedWith(s', s.chats, s.roles, Forbidden)
  {
    JoinedIff(start.roles, actor, peer, q, joined);
  }

  lemma LostRest(s: State, start: State, actor: Id, peer: Id, q: Race, id: Id)
    requires LostAt(s, start, actor, peer, q, ChatService.Insert(0), false) && !HasDirect(start, PairOf(actor, peer))
    requires id != q.id && id !in start.chats && forall u :: (id, u) !in start.roles
    requires forall u :: (q.id, u) !in start.roles
    ensures var roles := JoinedRoles(start.roles, actor, peer, q, q.joins < 3);
            if q.joins < 3
            then EndedWith(Rest(s, id, Some(q)), s.chats, JoinAll(roles, q.id, [actor, peer]), Opened(q.id))
            else EndedWith(Rest(s, id, Some(q)), s.chats, roles, Forbidden)
  {
    LostJoins(s, start, actor, peer, q, ChatService.Insert(0), 0);
    var s3 := Run(s, Joins(Some(q), 0));
    LostMake(s3, start, actor, peer, q, id, q.joins < 1);
    LostJoins(Next(s3, Make(0, id)), start, actor, peer, q, Lookup(1), 1);
    var s5 := Run(Next(s3, Make(0, id)), Joins(Some(q), 1));
    LostFind(s5, start, actor, peer, q, q.joins < 2);
    LostJoins(Next(s5, Find(0)), start, actor, peer, q, CheckActor(q.id), 2);
    LostEnds(Run(Next(s5, Find(0)), Joins(Some(q), 2)), start, actor, peer, q, q.joins < 3);
  }

  // ---- Outcomes ----

  /** The pair has a chat already. */
  lemma FoundOutcome(start: State, actor: Id, peer: Id, id: Id, race: Option<Race>, c: Id)
    requires OneDirectPerPair(start) && start.calls == map[] && actor != peer
    requires c in start.chats && start.chats[c] == Direct(PairOf(actor, peer))
    ensures var s' := Run(start, DirectSteps(actor, peer, id, race));
            if (c, actor) in start.roles
            then EndedWith(s', start.chats, JoinAll(start.roles, c, [actor, peer]), Opened(c))
            else EndedWith(s', start.chats, start.roles, Forbidden)
  {
    DirectParts(start, actor, peer, id, race);
    DirectStarts(start, actor, peer);
    var s1 := Run(start, [StartDirect(0, actor, peer), Find(0)]);
    assert HasDirect(start, PairOf(actor, peer)) && HasDirect(s1, PairOf(actor, peer));
    RivalFinds(s1, actor, peer, race);
    FoundRest(Run(s1, Rival(actor, peer, race)), id, race, c);
  }

  /** Alone a call whose pair has no chat makes one. */
  lemma NewOutcome(start: State, actor: Id, peer: Id, id: Id)
    requires OneDirectPerPair(start) && start.calls == map[] && actor != peer && !HasDirect(start, PairOf(actor, peer))
    requires id !in start.chats && forall u :: (id, u) !in start.roles
    ensures EndedWith(Run(start, DirectSteps(actor, peer, id, None)), start.chats[id := Direct(PairOf(actor, peer))],
                      JoinAll(start.roles, id, [actor, peer]), Opened(id))
  {
    DirectParts(start, actor, peer, id, None);
    DirectStarts(start, actor, peer);
    var s1 := Run(start, [StartDirect(0, actor, peer), Find(0)]);
    assert Run(s1, []) == s1;
    assert HasDirect(s1, PairOf(actor, peer)) <==> HasDirect(start, PairOf(actor, peer));
    NewRest(s1, id);
  }

  lemma LostStarts(start: State, actor: Id, peer: Id, q: Race)
    requires OneDirectPerPair(start) && start.calls == map[] && actor != peer && !HasDirect(start, PairOf(actor, peer))
    requires q.id !in start.chats && forall u :: (q.id, u) !in start.roles
    ensures LostAt(Run(Run(start, [StartDirect(0, actor, peer), Find(0)]), Rival(actor, peer, Some(q))),
                   start, actor, peer, q, ChatService.Insert(0), false)
  {
    DirectStarts(start, actor, peer);
    var s1 := Run(start, [StartDirect(0, actor, peer), Find(0)]);
    HasDirectFrame(start, s1, PairOf(actor, peer));
    assert s1.calls == map[0 := Call(actor, peer, ChatService.Insert(0))];
    RivalCreates(s1, start, actor, peer, q);
  }

  /** A rival makes the pair's chat first. */
  lemma LostOutcome(start: State, actor: Id, peer: Id, id: Id, q: Race)
    requires OneDirectPerPair(start) && start.calls == map[] && actor != peer && !HasDirect(start, PairOf(actor, peer))
    requires id != q.id && id !in start.chats && forall u :: (id, u) !in start.roles
    requires q.id !in start.chats && forall u :: (q.id, u) !in start.roles
    ensures var s' := Run(start, DirectSteps(actor, peer, id, Some(q)));
            var chats := start.chats[q.id := Direct(PairOf(actor, peer))];
            var roles := JoinedRoles(start.roles, actor, peer, q, q.joins < 3);
            if q.joins < 3 then EndedWith(s', chats, JoinAll(roles, q.id, [actor, peer]), Opened(q.id))
            else EndedWith(s', chats, roles, Forbidden)
  {
    DirectParts(start, actor, peer, id, Some(q));
    LostStarts(start, actor, peer, q);
    var s1 := Run(start, [StartDirect(0, actor, peer), Find(0)]);
    LostRest(Run(s1, Rival(actor, peer, Some(q))), start, actor, peer, q, id);
  }

  class ChatTables {
    var chats: map<Id, Chat>
    var roles: map<(Id, Id), Role>

    /** The unique index on direct_key. */
    ghost predicate Valid()
      reads this
    {
      OneDirectPerPair(Tables())
    }

    ghost function Tables(): State
      reads this
    {
      State(chats, roles, map[])
    }

    constructor ()
      ensures Valid() && Tables() == EMPTY
    {
      chats, roles := map[], map[];
    }

    /** One INSERT for all users; rows that exist keep their role. */
    method AddMembers(chat: Id, users: seq<Id>)
      modifies this`roles
      ensures roles == JoinAll(old(roles), chat, users)
      ensures forall u :: (chat, u) in roles <==> (chat, u) in old(roles) || u in users
      ensures forall key :: key in roles && key !in old(roles) ==> key.0 == chat && roles[key] == Member
      ensures forall key :: key in old(roles) ==> key in roles && roles[key] == old(roles)[key]
    {
      JoinAllSpec(roles, chat, users);
      var i := 0;
      while i < |users|
        invariant 0 <= i <= |users|
        invariant roles == JoinAll(old(roles), chat, users[..i])
      {
        if (chat, users[i]) !in roles {
          roles := roles[(chat, users[i]) := Member];
        }
        assert users[..i + 1][..i] == users[..i];
        i := i + 1;
      }
      assert users[..i] == users;
    }

    method RemoveMember(chat: Id, user: Id) returns (ok: bool)
      modifies this`roles
      ensures ok <==> (chat, user) in old(roles)
      ensures roles == old(roles) - {(chat, user)}
    {
      ok := (chat, user) in roles;
      roles := roles - {(chat, user)};
    }

    /** The creator becomes the owner; the creator and repeated ids are dropped from the others. */
    method CreateGroupWithMembers(id: Id, creator: Id, others: seq<Id>)
      requires Valid() && id !in chats && forall u :: (id, u) !in roles
      modifies this
      ensures Valid()
      ensures Tables() == Next(old(Tables()), NewGroup(id, creator, others))
      ensures chats == old(chats)[id := Group(creator)]
      ensures forall u :: (id, u) in roles <==> u == creator || u in others
      ensures forall u :: (id, u) in roles ==> roles[(id, u)] == if u == creator then Owner else Member
      ensures forall key :: key in roles && key !in old(roles) ==> key.0 == id
      ensures forall key :: key in old(roles) ==> key in roles && roles[key] == old(roles)[key]
    {
      var seen, toAdd := {creator}, [];
      var i := 0;
      while i < |others|
        invariant 0 <= i <= |others|
        invariant forall u :: u in seen <==> u == creator || u in others[..i]
        invariant forall u :: u in toAdd <==> u != creator && u in others[..i]
      {
        assert others[..i + 1] == others[..i] + [others[i]];
        if others[i] !in seen {
          seen, toAdd := seen + {others[i]}, toAdd + [others[i]];
        }
        i := i + 1;
      }
      assert others[..i] == others;
      chats, roles := chats[id := Group(creator)], roles[(id, creator) := Owner];
      JoinAllSame(roles, id, toAdd, others);
      AddMembers(id, toAdd);
    }

    method GetDirectByKey(pair: Pair) returns (found: Option<Id>)
      ensures found.Some? ==> found.value in chats && chats[found.value] == Direct(pair)
      ensures found.None? ==> !HasDirect(Tables(), pair)
    {
      found := None;
      var left := chats.Keys;
      while left != {}
        invariant left <= chats.Keys && found.None?
        invariant forall c :: c in chats && chats[c] == Direct(pair) ==> c in left
        decreases |left|
      {
        var c :| c in left;
        if chats[c] == Direct(pair) {
          return Some(c);
        }
        left := left - {c};
      }
    }

    /** Fails on the unique index when the pair already has a chat. */
    method CreateChat(id: Id, pair: Pair) returns (ok: bool)
      requires Valid() && id !in chats
      modifies this`chats
      ensures Valid()
      ensures ok <==> !HasDirect(old(Tables()), pair)
      ensures chats == if ok then old(chats)[id := Direct(pair)] else old(chats)
    {
      var found := GetDirectByKey(pair);
      ok := found.None?;
      if ok {
        chats := chats[id := Direct(pair)];
      }
    }

    /** Create or find, at most three attempts, with a rival that makes the chat between the lookup
        and the insert of the first. The outcome is that of the same steps in the state machine: the
        pair's chat is opened with both users in it, unless the caller is not in the chat that
        exists by then; nobody has a direct chat with themselves. */
    method CreateDirect(actor: Id, peer: Id, id: Id, race: Option<Race>) returns (r: Result)
      requires Valid() && id !in chats && forall u :: (id, u) !in roles
      requires race.Some? ==> race.value.id !in chats && race.value.id != id && forall u :: (race.value.id, u) !in roles
      modifies this
      ensures Valid()
      ensures r.Opened? || r == Forbidden || r == Invalid
      ensures (actor == peer <==> r == Invalid) && (r == Invalid ==> Tables() == old(Tables()))
      ensures actor != peer ==> EndedWith(Run(old(Tables()), DirectSteps(actor, peer, id, race)), chats, roles, r)
      ensures r.Opened? ==> r.chat in chats && chats[r.chat] == Direct(PairOf(actor, peer))
                            && (r.chat, actor) in roles && (r.chat, peer) in roles
      ensures r == Forbidden
              <==> actor != peer
                   && if HasDirect(old(Tables()), PairOf(actor, peer))
                      then exists c :: c in old(chats) && old(chats)[c] == Direct(PairOf(actor, peer))
                                       && (c, actor) !in old(roles)
                      else race.Some? && race.value.joins > 2
    {
      if actor == peer {
        return Invalid;
      }
      var pair := PairOf(actor, peer);
      ghost var start := Tables();
      for attempt := 0 to 3
        invariant Valid() && attempt <= 1
        invariant attempt == 0 ==> Tables() == start
        invariant attempt == 1 ==> race.Some? && !HasDirect(start, pair)
                                   && chats == start.chats[race.value.id := Direct(pair)]
                                   && roles == JoinedRoles(start.roles, actor, peer, race.value, race.value.joins < 2)
      {
        var existing := GetDirectByKey(pair);
        if existing.Some? {
          if attempt == 1 {
            assert existing.value == race.value.id;
            LostOutcome(start, actor, peer, id, race.value);
            JoinedIff(start.roles, actor, peer, race.value, race.value.joins < 3);
            if race.value.joins == 2 {
              AddMembers(existing.value, [peer, actor]);
            }
          } else {
            FoundOutcome(start, actor, peer, id, race, existing.value);
          }
          if (existing.value, actor) !in roles {
            return Forbidden;
          }
          JoinAllSpec(roles, existing.value, [actor, peer]);
          AddMembers(existing.value, [actor, peer]);
          return Opened(existing.value);
        }
        if race.Some? {
          var won := CreateChat(race.value.id, pair);
          if race.value.joins == 0 {
            AddMembers(race.value.id, [peer, actor]);
          }
          assert chats[race.value.id] == Direct(pair);
        }
        var created := CreateChat(id, pair);
        if !created {
          if race.Some? && race.value.joins == 1 {
            AddMembers(race.value.id, [peer, actor]);
          }
          continue;
        }
        assert race == None;
        NewOutcome(start, actor, peer, id);
        JoinAllSpec(start.roles, id, [actor, peer]);
        AddMembers(id, [actor, peer]);
        return Opened(id);
      }
      return Conflict;
    }

    /** The service's add: only an owner or admin of a group may add, and somebody must be named. */
    method AddToGroup(actor: Id, chat: Id, users: seq<Id>) returns (r: Result)
      requires Valid()
      modifies this
      ensures Valid()
      ensures var s := Run(old(Tables()), [AskAdd(0, actor, chat, users), DoAdd(0)]);
              if r == Added then EndedWith(s, chats, roles, r) else s == old(Tables()) == Tables()
      ensures r == Added <==> chat in old(chats) && old(chats)[chat].Group? && (chat, actor) in old(roles)
                              && (old(roles)[(chat, actor)] == Owner || old(roles)[(chat, actor)] == Admin)
                              && users != []
      ensures r == NotFound <==> chat !in old(chats)
      ensures r == Forbidden <==> chat in old(chats)
                                  && (old(chats)[chat].Direct? || (chat, actor) !in old(roles)
                                      || old(roles)[(chat, actor)] == Member)
      ensures r == Added || r == NotFound || r == Forbidden || r == Invalid
      ensures chats == old(chats) && (r != Added ==> roles == old(roles))
      ensures r == Added ==>
                && (forall u :: (chat, u) in roles <==> (chat, u) in old(roles) || u in users)
                && (forall key :: key in roles && key !in old(roles) ==> key.0 == chat && roles[key] == Member)
                && (forall key :: key in old(roles) ==> key in roles && roles[key] == old(roles)[key])
    {
      TwoSteps(Tables(), AskAdd(0, actor, chat, users), DoAdd(0));
      if chat !in chats {
        return NotFound;
      }
      if chats[chat].Direct? || (chat, actor) !in roles || roles[(chat, actor)] == Member {
        return Forbidden;
      }
      if users == [] {
        return Invalid;
      }
      AddMembers(chat, users);
      return Added;
    }

    /** The service's removal: leaving is always allowed, removing somebody else only in a group
        and by the kick rules. */
    method RemoveFromChat(actor: Id, chat: Id, target: Id) returns (r: Result)
      requires Valid()
      modifies this
      ensures Valid()
      ensures var s := Run(old(Tables()), [AskRemove(0, actor, chat, target), ReadTarget(0), DoRemove(0)]);
              if chat in chats && (chat, actor) in old(roles) then EndedWith(s, chats, roles, r)
              else s == old(Tables()) == Tables()
      ensures r == Removed
              <==> chat in chats && (chat, actor) in old(roles) && (chat, target) in old(roles)
                   && (actor == target
                       || (chats[chat].Group?
                           && ((old(roles)[(chat, actor)] == Owner && old(roles)[(chat, target)] != Owner)
                               || (old(roles)[(chat, actor)] == Admin && old(roles)[(chat, target)] == Member))))
      ensures r == NotFound
              <==> chat !in chats || ((chat, actor) in old(roles) && (chat, target) !in old(roles))
      ensures r == Removed || r == NotFound || r == Forbidden
      ensures r == Removed ==> roles == old(roles) - {(chat, target)} && chats == old(chats)
      ensures r != Removed ==> Tables() == old(Tables())
    {
      ThreeSteps(Tables(), AskRemove(0, actor, chat, target), ReadTarget(0), DoRemove(0));
      if chat !in chats {
        return NotFound;
      }
      if (chat, actor) !in roles {
        return Forbidden;
      }
      if (chat, target) !in roles {
        return NotFound;
      }
      if actor != target {
        if chats[chat].Direct? || !KickAllowed(roles[(chat, actor)], roles[(chat, target)]) {
          return Forbidden;
        }
      }
      var removed := RemoveMember(chat, target);
      return Removed;
    }
  }
}
