/** The WebSocket hub: connections per user, their gauge, and the bounded send queues. */
module Hub {
  import opened Domain

  // ---- The nested map, for any kind of connection ----

  type Clients<!C> = map<Id, set<C>>

  function Connected<C>(m: Clients<C>, user: Id, c: C): Clients<C> {
    m[user := (if user in m then m[user] else {}) + {c}]
  }

  /** The user's entry goes with the last connection. */
  function Disconnected<C>(m: Clients<C>, user: Id, c: C): Clients<C> {
    if user !in m then m
    else if m[user] - {c} == {} then m - {user}
    else m[user := m[user] - {c}]
  }

  /** The summed size of all client sets. */
  ghost function Total<C>(m: Clients<C>): nat
    decreases |m|
  {
    if m == map[] then 0
    else
      var u :| u in m;
      assert (m - {u}).Keys == m.Keys - {u};
      |m[u]| + Total(m - {u})
  }

  function Pairs<C>(m: Clients<C>): set<(Id, C)> {
    set u, c | u in m && c in m[u] :: (u, c)
  }

  function Column<C>(u: Id, s: set<C>): set<(Id, C)> {
    set c | c in s :: (u, c)
  }

  lemma {:induction false} ColumnSize<C>(u: Id, s: set<C>)
    ensures |Column(u, s)| == |s|
    decreases |s|
  {
    if s == {} {
      assert Column(u, s) == {};
    } else {
      var c :| c in s;
      ColumnSize(u, s - {c});
      assert Column(u, s) == Column(u, s - {c}) + {(u, c)};
    }
  }

  lemma {:induction false} TotalCountsPairs<C>(m: Clients<C>)
    ensures Total(m) == |Pairs(m)|
    decreases |m|
  {
    if m == map[] {
      assert Pairs(m) == {};
    } else {
      var u :| u in m && Total(m) == |m[u]| + Total(m - {u});
      assert (m - {u}).Keys == m.Keys - {u};
      TotalCountsPairs(m - {u});
      ColumnSize(u, m[u]);
      assert Pairs(m) == Column(u, m[u]) + Pairs(m - {u});
      assert Column(u, m[u]) !! Pairs(m - {u});
    }
  }

  lemma PairsConnected<C>(m: Clients<C>, user: Id, c: C)
    ensures Pairs(Connected(m, user, c)) == Pairs(m) + {(user, c)}
    ensures (user, c) in Pairs(m) <==> user in m && c in m[user]
  {
  }

  lemma PairsDisconnected<C>(m: Clients<C>, user: Id, c: C)
    ensures Pairs(Disconnected(m, user, c)) == Pairs(m) - {(user, c)}
    ensures (user, c) in Pairs(m) <==> user in m && c in m[user]
  {
    forall u: Id, x ensures (u, x) in Pairs(Disconnected(m, user, c)) <==> (u, x) in Pairs(m) && (u, x) != (user, c) {
      DisconnectedHas(m, user, c, u, x);
    }
  }

  /** Disconnecting takes one connection from one user. */
  lemma DisconnectedHas<C>(m: Clients<C>, user: Id, c: C, u: Id, x: C)
    ensures (u in Disconnected(m, user, c) && x in Disconnected(m, user, c)[u])
            <==> u in m && x in m[u] && (u, x) != (user, c)
  {
    if user in m && x in m[user] && x != c {
      assert x in m[user] - {c};
    }
  }

  lemma AddSize<T>(s: set<T>, x: T)
    ensures |s + {x}| == |s| + if x in s then 0 else 1
  {
    if x in s {
      assert s + {x} == s;
    }
  }

  lemma ConnectTotal<C>(m: Clients<C>, user: Id, c: C)
    ensures Total(Connected(m, user, c)) == Total(m) + if user in m && c in m[user] then 0 else 1
  {
    var m' := Connected(m, user, c);
    assert Total(m) == |Pairs(m)| && Total(m') == |Pairs(m')| by {
      TotalCountsPairs(m);
      TotalCountsPairs(m');
    }
    PairsConnected(m, user, c);
    AddSize(Pairs(m), (user, c));
  }

  lemma DisconnectTotal<C>(m: Clients<C>, user: Id, c: C)
    ensures Total(m) == Total(Disconnected(m, user, c)) + if user in m && c in m[user] then 1 else 0
  {
    var m' := Disconnected(m, user, c);
    assert Total(m) == |Pairs(m)| && Total(m') == |Pairs(m')| by {
      TotalCountsPairs(m);
      TotalCountsPairs(m');
    }
    PairsDisconnected(m, user, c);
    AddSize(Pairs(m'), (user, c));
    assert (user, c) in Pairs(m) ==> Pairs(m) == Pairs(m') + {(user, c)};
    assert (user, c) !in Pairs(m) ==> Pairs(m) == Pairs(m');
  }

  ghost predicate NoEmptySet<C>(m: Clients<C>) {
    forall u :: u in m ==> m[u] != {}
  }

  /** The gauge moves even for a connection that is not in the user's set, as long as the user
      has an entry. */
  function GaugeAfterUnregister<C>(m: Clients<C>, gauge: int, user: Id): int {
    if user in m then gauge - 1 else gauge
  }

  /** An unregister keeps the gauge equal to the total if and only if the connection is in its
      user's set or the user has no entry at all. */
  lemma UnregisterKeepsGaugeIff<C>(m: Clients<C>, user: Id, c: C)
    ensures GaugeAfterUnregister(m, Total(m), user) == Total(Disconnected(m, user, c))
            <==> user !in m || c in m[user]
  {
    DisconnectTotal(m, user, c);
  }

  // ---- The connect and disconnect lifecycle ----

  datatype Life = Open(user: Id) | Closed

  datatype HubState = HubState(clients: Clients<nat>, gauge: int, lives: map<nat, Life>)

  const IDLE_HUB := HubState(map[], 0, map[])

  datatype Label = Connect(c: nat, user: Id) | Disconnect(c: nat)

  /** The handler registers each connection once; its read loop unregisters it once. */
  function Next(s: HubState, l: Label): HubState {
    match l
    case Connect(c, user) =>
      if c in s.lives then s
      else HubState(Connected(s.clients, user, c), s.gauge + 1, s.lives[c := Open(user)])
    case Disconnect(c) =>
      if c !in s.lives || s.lives[c].Closed? then s
      else
        var user := s.lives[c].user;
        HubState(Disconnected(s.clients, user, c), GaugeAfterUnregister(s.clients, s.gauge, user), s.lives[c := Closed])
  }

  function Run(ls: seq<Label>): HubState {
    if ls == [] then IDLE_HUB else Next(Run(ls[..|ls| - 1]), ls[|ls| - 1])
  }

  ghost predicate Tracks(s: HubState) {
    forall u, c :: (u in s.clients && c in s.clients[u]) <==> (c in s.lives && s.lives[c] == Open(u))
  }

  ghost predicate Balanced(s: HubState) {
    s.gauge == Total(s.clients) && NoEmptySet(s.clients) && Tracks(s)
  }

  lemma ConnectBalanced(s: HubState, c: nat, user: Id)
    requires Balanced(s)
    ensures Balanced(Next(s, Connect(c, user)))
  {
    if c !in s.lives {
      assert !(user in s.clients && c in s.clients[user]);
      ConnectTotal(s.clients, user, c);
    }
  }

  lemma DisconnectBalanced(s: HubState, c: nat)
    requires Balanced(s)
    ensures Balanced(Next(s, Disconnect(c)))
  {
    if c in s.lives && s.lives[c].Open? {
      var user := s.lives[c].user;
      assert user in s.clients && c in s.clients[user];
      DisconnectTotal(s.clients, user, c);
      var s' := Next(s, Disconnect(c));
      forall u: Id, x: nat ensures (u in s'.clients && x in s'.clients[u])
          <==> (x in s'.lives && s'.lives[x] == Open(u)) {
        DisconnectedHas(s.clients, user, c, u, x);
        assert (u in s.clients && x in s.clients[u]) <==> (x in s.lives && s.lives[x] == Open(u));
      }
    }
  }

  /** In every run the gauge is the summed size of the client sets, no empty set is stored, and
      a set holds exactly its user's open connections. */
  lemma {:induction false} GaugeCountsConnections(ls: seq<Label>)
    ensures Balanced(Run(ls))
  {
    if ls != [] {
      GaugeCountsConnections(ls[..|ls| - 1]);
      match ls[|ls| - 1]
      case Connect(c, user) => ConnectBalanced(Run(ls[..|ls| - 1]), c, user);
      case Disconnect(c) => DisconnectBalanced(Run(ls[..|ls| - 1]), c);
    }
  }

  // ---- Send queues ----

  const QUEUE: nat := 256

  type Frame = seq<bv8>

  /** A send that does not block: a full queue drops the frame. */
  function Offered(queue: seq<Frame>, frame: Frame): seq<Frame> {
    if |queue| < QUEUE then queue + [frame] else queue
  }

  class Client {
    const user: Id
    var send: seq<Frame>

    constructor (user: Id)
      ensures this.user == user && send == []
    {
      this.user := user;
      send := [];
    }

    method Offer(frame: Frame)
      modifies this`send
      ensures send == Offered(old(send), frame)
      ensures send == if |old(send)| < 256 then old(send) + [frame] else old(send)
    {
      if |send| < 256 {
        send := send + [frame];
      }
    }
  }

  class Hub {
    var clients: Clients<Client>
    var gauge: int

    /** Connections sit under their own user. */
    ghost predicate Valid()
      reads this
    {
      forall u, c :: u in clients && c in clients[u] ==> c.user == u
    }

    constructor ()
      ensures Valid() && clients == map[] && gauge == 0
    {
      clients, gauge := map[], 0;
    }

    method Register(c: Client)
      requires Valid()
      modifies this
      ensures Valid()
      ensures clients == Connected(old(clients), c.user, c) && gauge == old(gauge) + 1
      ensures forall u, x :: (u in clients && x in clients[u])
                             <==> (u in old(clients) && x in old(clients)[u]) || (u == c.user && x == c)
    {
      var of := {};
      if c.user in clients {
        of := clients[c.user];
      }
      clients := clients[c.user := of + {c}];
      gauge := gauge + 1;
    }

    method Unregister(c: Client)
      requires Valid()
      modifies this
      ensures Valid()
      ensures clients == Disconnected(old(clients), c.user, c)
      ensures gauge == GaugeAfterUnregister(old(clients), old(gauge), c.user)
      ensures forall u, x :: (u in clients && x in clients[u])
                             <==> u in old(clients) && x in old(clients)[u] && !(u == c.user && x == c)
      ensures c.user in clients ==> clients[c.user] != {}
      ensures gauge == old(gauge) - if c.user in old(clients) then 1 else 0
    {
      forall u, x
        ensures (u in Disconnected(clients, c.user, c) && x in Disconnected(clients, c.user, c)[u])
                <==> u in clients && x in clients[u] && (u, x) != (c.user, c)
      {
        DisconnectedHas(clients, c.user, c, u, x);
      }
      if c.user !in clients {
        return;
      }
      clients := clients[c.user := clients[c.user] - {c}];
      if clients[c.user] == {} {
        clients := clients - {c.user};
      }
      gauge := gauge - 1;
    }

    /** Every connection of the user is offered the frame; no other queue changes. */
    method SendToUser(user: Id, frame: Frame)
      modifies if user in clients then clients[user] else {}
      ensures user in clients ==> forall c :: c in clients[user] ==>
                c.send == if |old(c.send)| < 256 then old(c.send) + [frame] else old(c.send)
    {
      if user !in clients {
        return;
      }
      var left := clients[user];
      while left != {}
        invariant left <= clients[user]
        invariant forall c :: c in clients[user] ==>
                    c.send == if c in left then old(c.send) else Offered(old(c.send), frame)
        decreases |left|
      {
        var c :| c in left;
        c.Offer(frame);
        left := left - {c};
      }
    }

    ghost function Everyone(): set<Client>
      reads this
    {
      set u, c | u in clients && c in clients[u] :: c
    }

    /** A chat's envelope is offered once to every connection of every member, and to nobody
        else; the member rows of a chat name each user once. */
    method DeliverPayload(members: seq<Id>, frame: Frame)
      requires Valid()
      requires forall i, j :: 0 <= i < j < |members| ==> members[i] != members[j]
      modifies Everyone()
      ensures forall c :: c in Everyone() ==>
                c.send == if c.user in members && |old(c.send)| < 256 then old(c.send) + [frame] else old(c.send)
    {
      for i := 0 to |members|
        invariant forall c :: c in Everyone() ==>
                    c.send == if c.user in members[..i] then Offered(old(c.send), frame) else old(c.send)
      {
        assert members[i] in clients ==> clients[members[i]] <= Everyone();
        assert members[..i + 1] == members[..i] + [members[i]];
        label before:
        SendToUser(members[i], frame);
        forall c | c in Everyone()
          ensures c.send == if c.user in members[..i + 1] then Offered(old(c.send), frame) else old(c.send)
        {
          if members[i] in clients && c in clients[members[i]] {
            assert c.user == members[i] && c.user !in members[..i];
          } else {
            assert c.send == old@before(c.send) && c.user != members[i];
          }
        }
      }
    }
  }

  // ---- One queue over a whole run ----

  /** `offered` is everything offered so far, `kept` the indices that were accepted, `full` the
      indices that met a full queue; `sent` has left for the socket. */
  datatype Pipe = Pipe(queue: seq<Frame>, sent: seq<Frame>, offered: seq<Frame>, kept: seq<nat>, full: set<nat>)

  datatype PipeStep = Offer(frame: Frame) | Drain

  function Flow(p: Pipe, s: PipeStep): Pipe {
    match s
    case Offer(f) =>
      var n := |p.offered|;
      p.(queue := Offered(p.queue, f), offered := p.offered + [f],
         kept := if Offered(p.queue, f) == p.queue then p.kept else p.kept + [n],
         full := if |p.queue| == 256 then p.full + {n} else p.full)
    case Drain => if p.queue == [] then p else p.(queue := p.queue[1..], sent := p.sent + [p.queue[0]])
  }

  function FlowAll(steps: seq<PipeStep>): Pipe {
    if steps == [] then Pipe([], [], [], [], {}) else Flow(FlowAll(steps[..|steps| - 1]), steps[|steps| - 1])
  }

  /** A queue never exceeds 256 frames; what was sent followed by what is queued is the accepted
      frames in the order they were offered; a frame was dropped exactly when the queue was full. */
  ghost predicate PipeFaithful(p: Pipe) {
    && |p.queue| <= 256
    && |p.kept| == |p.sent + p.queue|
    && (forall i, j :: 0 <= i < j < |p.kept| ==> p.kept[i] < p.kept[j])
    && (forall i :: 0 <= i < |p.kept| ==> p.kept[i] < |p.offered| && (p.sent + p.queue)[i] == p.offered[p.kept[i]])
    && (forall n :: 0 <= n < |p.offered| ==> (n !in p.kept <==> n in p.full))
    && (forall n :: n in p.full ==> n < |p.offered|)
  }

  lemma DrainFaithful(p: Pipe)
    requires PipeFaithful(p)
    ensures PipeFaithful(Flow(p, Drain))
  {
    assert Flow(p, Drain).sent + Flow(p, Drain).queue == p.sent + p.queue;
  }

  lemma AcceptFaithful(p: Pipe, f: Frame)
    requires PipeFaithful(p) && |p.queue| < QUEUE
    ensures PipeFaithful(Flow(p, PipeStep.Offer(f)))
  {
    var p' := Flow(p, PipeStep.Offer(f));
    assert |Offered(p.queue, f)| == |p.queue| + 1;
    assert p'.sent + p'.queue == p.sent + p.queue + [f];
    assert p'.kept == p.kept + [|p.offered|] && p'.full == p.full;
    forall n | 0 <= n < |p'.offered| ensures n !in p'.kept <==> n in p'.full {
      assert n in p'.kept <==> n in p.kept || n == |p.offered|;
    }
  }

  lemma RefuseFaithful(p: Pipe, f: Frame)
    requires PipeFaithful(p) && |p.queue| == QUEUE
    ensures PipeFaithful(Flow(p, PipeStep.Offer(f)))
  {
    var p' := Flow(p, PipeStep.Offer(f));
    assert p'.queue == p.queue && p'.kept == p.kept && p'.sent == p.sent;
    assert |p.offered| !in p.kept;
  }

  lemma {:induction false} QueueFaithful(steps: seq<PipeStep>)
    ensures PipeFaithful(FlowAll(steps))
  {
    if steps != [] {
      var p := FlowAll(steps[..|steps| - 1]);
      QueueFaithful(steps[..|steps| - 1]);
      match steps[|steps| - 1]
      case Drain => DrainFaithful(p);
      case Offer(f) =>
        if |p.queue| < QUEUE {
          AcceptFaithful(p, f);
        } else {
          RefuseFaithful(p, f);
        }
    }
  }
}
