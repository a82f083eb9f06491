/** Logout-all against rotations under way: the transaction of a rotation and the snapshot of the
    revoking UPDATE as separate steps, with PostgreSQL's row locks between them.

    A rotation holds the lock of the old session from its SELECT ... FOR UPDATE to its commit. The
    UPDATE of a logout-all picks its rows when it starts, waits for those that are locked, and
    finds a row that was revoked meanwhile no longer to its liking. */
module SessionRaces {
  import opened Domain
  import opened Sequences
  import opened Sessions

  datatype Rotation = Rotation(from: Id, id: Id, s: Session)

  datatype Sweep = Sweep(user: Id, seen: set<Id>)

  /** `chain` and `logins` are history, as in `Sessions`. */
  datatype Races = Races(
    rows: Rows, open: map<nat, Rotation>, sweeps: map<nat, Sweep>, chain: map<Id, nat>, logins: seq<Id>)

  const NO_RACES := Races(map[], map[], map[], map[], [])

  datatype Move =
    | SignIn(id: Id, s: Session)
    | Lock(t: nat, from: Id, token: Hash, now: Time, id: Id, hash: Hash, expires: Time)
    | Commit(t: nat)
    | Abort(t: nat)
    | SignOut(id: Id)
    | Begin(u: nat, user: Id)
    | End(u: nat)

  predicate Locked(r: Races, id: Id) {
    exists t :: t in r.open && r.open[t].from == id
  }

  function Snapshot(rows: Rows, user: Id): set<Id> {
    set id | id in rows && rows[id].user == user && !rows[id].revoked
  }

  function RevokedIn(rows: Rows, seen: set<Id>): Rows {
    map id | id in rows :: if id in seen then rows[id].(revoked := true) else rows[id]
  }

  ghost predicate CanMove(r: Races, m: Move) {
    match m
    case SignIn(id, s) => id !in r.rows && HashFree(r.rows, s.hash) && !s.revoked
    case Lock(t, from, token, now, _, _, _) => t !in r.open && Usable(r.rows, from, token, now) && !Locked(r, from)
    case Commit(t) => t in r.open && r.open[t].id !in r.rows && HashFree(r.rows, r.open[t].s.hash)
                      && r.open[t].from in r.chain
    case Abort(t) => t in r.open
    case SignOut(id) => id in r.rows && !Locked(r, id)
    case Begin(u, _) => u !in r.sweeps
    case End(u) => u in r.sweeps && forall id :: id in r.sweeps[u].seen ==> !Locked(r, id)
  }

  /** A move that cannot be made leaves the state alone. */
  ghost function Moved(r: Races, m: Move): Races {
    if !CanMove(r, m) then r else
    match m
    case SignIn(id, s) =>
      r.(rows := r.rows[id := s], chain := r.chain[id := |r.logins|], logins := r.logins + [s.user])
    case Lock(t, from, _, _, id, hash, expires) =>
      r.(open := r.open[t := Rotation(from, id, Session(r.rows[from].user, hash, expires, false))])
    case Commit(t) =>
      var Rotation(from, id, s) := r.open[t];
      if from in r.rows
      then r.(rows := Revoked(r.rows, from)[id := s], open := r.open - {t}, chain := r.chain[id := r.chain[from]])
      else r
    case Abort(t) => r.(open := r.open - {t})
    case SignOut(id) => r.(rows := Revoked(r.rows, id))
    case Begin(u, user) => r.(sweeps := r.sweeps[u := Sweep(user, Snapshot(r.rows, user))])
    case End(u) => r.(rows := RevokedIn(r.rows, r.sweeps[u].seen), sweeps := r.sweeps - {u})
  }

  ghost function Play(r: Races, ms: seq<Move>): Races {
    if ms == [] then r else Moved(Play(r, ms[..|ms| - 1]), ms[|ms| - 1])
  }

  lemma LastMove(r: Races, ms: seq<Move>, init: seq<Move>, m: Move)
    requires ms == init + [m]
    ensures Play(r, ms) == Moved(Play(r, init), m)
  {
    assert ms[..|ms| - 1] == init;
  }

  // ---- What every run keeps ----

  /** Sessions of a chain belong to the user who logged in; the lock keeps a session that is
      being rotated from being revoked by anybody else. */
  ghost predicate RacesOk(r: Races) {
    && r.chain.Keys == r.rows.Keys
    && (forall id :: id in r.rows ==> r.chain[id] < |r.logins| && r.rows[id].user == r.logins[r.chain[id]])
    && (forall t :: t in r.open ==>
          r.open[t].from in r.rows && !r.rows[r.open[t].from].revoked
          && r.open[t].s.user == r.rows[r.open[t].from].user && !r.open[t].s.revoked)
    && (forall t, u :: t in r.open && u in r.open && r.open[t].from == r.open[u].from ==> t == u)
  }

  lemma CommitOk(r: Races, m: Move)
    requires RacesOk(r) && m.Commit?
    ensures RacesOk(Moved(r, m))
  {
    if CanMove(r, m) {
      var r', from := Moved(r, m), r.open[m.t].from;
      forall id | id in r'.rows ensures r'.chain[id] < |r'.logins| && r'.rows[id].user == r'.logins[r'.chain[id]] {
        assert id == r.open[m.t].id || id in r.rows;
      }
      forall t | t in r'.open
        ensures r'.open[t].from in r'.rows && !r'.rows[r'.open[t].from].revoked
                && r'.open[t].s.user == r'.rows[r'.open[t].from].user && !r'.open[t].s.revoked
      {
        assert t in r.open && r.open[t].from != from;
      }
    }
  }

  lemma EndOk(r: Races, m: Move)
    requires RacesOk(r) && (m.End? || m.SignOut?)
    ensures RacesOk(Moved(r, m))
  {
    if CanMove(r, m) {
      forall t | t in r.open ensures !Moved(r, m).rows[r.open[t].from].revoked {
        assert Locked(r, r.open[t].from);
      }
    }
  }

  lemma LockOk(r: Races, m: Move)
    requires RacesOk(r) && m.Lock?
    ensures RacesOk(Moved(r, m))
  {
    if CanMove(r, m) {
      assert forall t :: t in r.open ==> r.open[t].from != m.from;
    }
  }

  lemma SignInOk(r: Races, m: Move)
    requires RacesOk(r) && m.SignIn?
    ensures RacesOk(Moved(r, m))
  {
    if CanMove(r, m) {
      var r' := Moved(r, m);
      forall id | id in r'.rows ensures r'.chain[id] < |r'.logins| && r'.rows[id].user == r'.logins[r'.chain[id]] {
        assert id == m.id || id in r.rows;
      }
    }
  }

  lemma OtherOk(r: Races, m: Move)
    requires RacesOk(r) && (m.Abort? || m.Begin?)
    ensures RacesOk(Moved(r, m))
  {
  }

  lemma MoveOk(r: Races, m: Move)
    requires RacesOk(r)
    ensures RacesOk(Moved(r, m))
  {
    if m.Commit? {
      CommitOk(r, m);
    } else if m.End? || m.SignOut? {
      EndOk(r, m);
    } else if m.Lock? {
      LockOk(r, m);
    } else if m.SignIn? {
      SignInOk(r, m);
    } else {
      OtherOk(r, m);
    }
  }

  lemma {:induction false} PlayOk(ms: seq<Move>)
    ensures RacesOk(Play(NO_RACES, ms))
  {
    if ms != [] {
      PlayOk(ms[..|ms| - 1]);
      MoveOk(Play(NO_RACES, ms[..|ms| - 1]), ms[|ms| - 1]);
    }
  }

  /** A chain has at most one active session. */
  ghost predicate SingleActive(r: Races) {
    forall a, b ::
      a in r.rows && b in r.rows && a in r.chain && b in r.chain && r.chain[a] == r.chain[b] && a != b
      ==> r.rows[a].revoked || r.rows[b].revoked
  }

  lemma CommitKeepsSingle(r: Races, m: Move)
    requires RacesOk(r) && SingleActive(r) && m.Commit? && CanMove(r, m)
    ensures SingleActive(Moved(r, m))
  {
    var from := r.open[m.t].from;
    assert from in r.rows && !r.rows[from].revoked;
  }

  lemma SignInKeepsSingle(r: Races, m: Move)
    requires RacesOk(r) && SingleActive(r) && m.SignIn? && CanMove(r, m)
    ensures SingleActive(Moved(r, m))
  {
    assert forall id :: id in r.chain ==> r.chain[id] < |r.logins|;
  }

  lemma MoveKeepsSingle(r: Races, m: Move)
    requires RacesOk(r) && SingleActive(r)
    ensures SingleActive(Moved(r, m))
  {
    if CanMove(r, m) && m.SignIn? {
      SignInKeepsSingle(r, m);
    } else if CanMove(r, m) && m.Commit? {
      CommitKeepsSingle(r, m);
    } else {
      var r' := Moved(r, m);
      assert r'.chain == r.chain && r'.rows.Keys == r.rows.Keys;
      assert forall id :: id in r.rows && r.rows[id].revoked ==> r'.rows[id].revoked;
    }
  }

  /** The locks keep chains from forking, whatever interleaves. */
  lemma {:induction false} ActiveStaysSingle(ms: seq<Move>)
    ensures SingleActive(Play(NO_RACES, ms))
  {
    if ms != [] {
      ActiveStaysSingle(ms[..|ms| - 1]);
      PlayOk(ms[..|ms| - 1]);
      MoveKeepsSingle(Play(NO_RACES, ms[..|ms| - 1]), ms[|ms| - 1]);
    }
  }

  // ---- The window of a logout-all ----

  /** Sessions and chains stay, and revocation is permanent. */
  ghost predicate Later(r: Races, r': Races) {
    && (forall id :: id in r.rows ==> id in r'.rows && (r.rows[id].revoked ==> r'.rows[id].revoked))
    && (forall id :: id in r.chain ==> id in r'.chain && r'.chain[id] == r.chain[id])
    && |r.logins| <= |r'.logins| && r'.logins[..|r.logins|] == r.logins
  }

  lemma MoveLater(r: Races, m: Move)
    requires RacesOk(r)
    ensures Later(r, Moved(r, m))
  {
  }

  /** A session no move before had appears by a login, in a new chain, or by a committed
      rotation, in the chain of a session that was active until then. */
  lemma NewSession(r: Races, m: Move, id: Id)
    requires RacesOk(r) && id in Moved(r, m).rows && id !in r.rows
    ensures id in Moved(r, m).chain
    ensures m.Commit? || Moved(r, m).chain[id] == |r.logins|
    ensures m.Commit? ==> exists from :: from in r.rows && !r.rows[from].revoked && from in r.chain
                                         && Moved(r, m).chain[id] == r.chain[from]
  {
    if m.Commit? {
      var from := r.open[m.t].from;
      assert from in r.rows && !r.rows[from].revoked && Moved(r, m).chain[id] == r.chain[from];
    }
  }

  /** No session of chain `n` is active. */
  ghost predicate Over(r: Races, n: nat) {
    n < |r.logins| && forall id :: id in r.rows && id in r.chain && r.chain[id] == n ==> r.rows[id].revoked
  }

  lemma OverStep(r: Races, m: Move, n: nat)
    requires RacesOk(r) && Over(r, n)
    ensures Over(Moved(r, m), n)
  {
    MoveLater(r, m);
    var r' := Moved(r, m);
    forall id | id in r'.rows && id in r'.chain && r'.chain[id] == n ensures r'.rows[id].revoked {
      if id !in r.rows {
        NewSession(r, m, id);
      }
    }
  }

  lemma {:induction false} OverForever(ms: seq<Move>, rest: seq<Move>, n: nat)
    requires Over(Play(NO_RACES, ms), n)
    ensures Over(Play(NO_RACES, ms + rest), n)
    decreases |rest|
  {
    if rest == [] {
      assert ms + rest == ms;
    } else {
      var k := |rest| - 1;
      OverForever(ms, rest[..k], n);
      PlayOk(ms + rest[..k]);
      Unsnoc(ms, rest);
      LastMove(NO_RACES, ms + rest, ms + rest[..k], rest[k]);
      OverStep(Play(NO_RACES, ms + rest[..k]), rest[k], n);
    }
  }

  lemma SignOutStep(r: Races, id: Id)
    requires RacesOk(r) && SingleActive(r) && CanMove(r, SignOut(id)) && !r.rows[id].revoked
    ensures Over(Moved(r, SignOut(id)), r.chain[id])
  {
    assert Moved(r, SignOut(id)).rows == r.rows[id := r.rows[id].(revoked := true)];
  }

  /** A logout whose session is active when it takes effect ends the chain for good: a rotation
      that holds the session's lock makes it wait, any other comes too late. */
  lemma SignOutEnds(ms: seq<Move>, id: Id, rest: seq<Move>)
    requires CanMove(Play(NO_RACES, ms), SignOut(id)) && !Play(NO_RACES, ms).rows[id].revoked
    ensures id in Play(NO_RACES, ms).chain
    ensures Over(Play(NO_RACES, ms + [SignOut(id)] + rest), Play(NO_RACES, ms).chain[id])
  {
    PlayOk(ms);
    ActiveStaysSingle(ms);
    SignOutStep(Play(NO_RACES, ms), id);
    LastMove(NO_RACES, ms + [SignOut(id)], ms, SignOut(id));
    OverForever(ms + [SignOut(id)], rest, Play(NO_RACES, ms).chain[id]);
  }

  /** While the UPDATE waits, its rows stay the ones it has picked. */
  lemma {:induction false} Window(ms: seq<Move>, u: nat, user: Id, mid: seq<Move>)
    requires u !in Play(NO_RACES, ms).sweeps && End(u) !in mid
    ensures var r0, r1 := Play(NO_RACES, ms), Play(NO_RACES, ms + [Begin(u, user)] + mid);
            Later(r0, r1) && u in r1.sweeps && r1.sweeps[u] == Sweep(user, Snapshot(r0.rows, user))
    decreases |mid|
  {
    var begun := ms + [Begin(u, user)];
    if mid == [] {
      assert begun + mid == begun;
      PlayOk(ms);
      LastMove(NO_RACES, begun, ms, Begin(u, user));
      MoveLater(Play(NO_RACES, ms), Begin(u, user));
    } else {
      var k := |mid| - 1;
      assert forall m :: m in mid[..k] ==> m in mid;
      Window(ms, u, user, mid[..k]);
      PlayOk(begun + mid[..k]);
      Unsnoc(begun, mid);
      LastMove(NO_RACES, begun + mid, begun + mid[..k], mid[k]);
      assert mid[k] in mid;
      WindowStep(Play(NO_RACES, ms), Play(NO_RACES, begun + mid[..k]), mid[k], u);
    }
  }

  lemma WindowStep(r0: Races, r: Races, m: Move, u: nat)
    requires RacesOk(r) && Later(r0, r) && u in r.sweeps && m != End(u)
    ensures Later(r0, Moved(r, m)) && u in Moved(r, m).sweeps && Moved(r, m).sweeps[u] == r.sweeps[u]
  {
    MoveLater(r, m);
    var r' := Moved(r, m);
    assert r'.logins[..|r0.logins|] == r'.logins[..|r.logins|][..|r0.logins|];
  }

  /** A session of the chain that was not there when the logout-all took its snapshot and is
      active when it ends. */
  ghost predicate Replaced(r0: Races, r1: Races, n: nat) {
    exists id :: id in r1.rows && id !in r0.rows && id in r1.chain && r1.chain[id] == n && !r1.rows[id].revoked
  }

  lemma SweepEnds(r0: Races, r1: Races, u: nat, user: Id, n: nat)
    requires RacesOk(r0) && RacesOk(r1) && Later(r0, r1) && CanMove(r1, End(u))
    requires r1.sweeps[u] == Sweep(user, Snapshot(r0.rows, user)) && n < |r0.logins| && r0.logins[n] == user
    ensures Over(Moved(r1, End(u)), n) <==> !Replaced(r0, r1, n)
  {
    var r2 := Moved(r1, End(u));
    assert r1.logins[n] == r1.logins[..|r0.logins|][n] == user;
    forall id | id in r0.rows && r1.chain[id] == n && !r1.rows[id].revoked ensures id in Snapshot(r0.rows, user) {
      assert r0.chain[id] == n && r0.rows[id].user == user && !r0.rows[id].revoked;
    }
    assert forall id :: id in r2.rows && !r2.rows[id].revoked ==>
           id in r1.rows && !r1.rows[id].revoked && id !in Snapshot(r0.rows, user);
    if Replaced(r0, r1, n) {
      var id :| id in r1.rows && id !in r0.rows && id in r1.chain && r1.chain[id] == n && !r1.rows[id].revoked;
      assert id !in Snapshot(r0.rows, user) && !r2.rows[id].revoked;
    }
  }

  /** Which chains a logout-all ends: a chain of the user that exists when it takes its snapshot
      is over for good if and only if no session that replaced one of the chain in between is
      still active when the logout-all ends. */
  lemma LogoutAllEndsIff(ms: seq<Move>, u: nat, user: Id, mid: seq<Move>, n: nat)
    requires u !in Play(NO_RACES, ms).sweeps && End(u) !in mid
    requires CanMove(Play(NO_RACES, ms + [Begin(u, user)] + mid), End(u))
    requires n < |Play(NO_RACES, ms).logins| && Play(NO_RACES, ms).logins[n] == user
    ensures var all := ms + [Begin(u, user)] + mid + [End(u)];
            (forall rest :: Over(Play(NO_RACES, all + rest), n))
            <==> !Replaced(Play(NO_RACES, ms), Play(NO_RACES, ms + [Begin(u, user)] + mid), n)
  {
    var window := ms + [Begin(u, user)] + mid;
    var all := window + [End(u)];
    Window(ms, u, user, mid);
    PlayOk(ms);
    PlayOk(window);
    LastMove(NO_RACES, all, window, End(u));
    SweepEnds(Play(NO_RACES, ms), Play(NO_RACES, window), u, user, n);
    if Over(Play(NO_RACES, all), n) {
      forall rest ensures Over(Play(NO_RACES, all + rest), n) {
        OverForever(all, rest, n);
      }
    } else {
      assert all + [] == all;
    }
  }

  /** Every rotation that commits in the course of `mid` is of another chain. */
  ghost predicate CommitsElsewhere(begun: seq<Move>, mid: seq<Move>, n: nat) {
    forall i :: 0 <= i < |mid| && mid[i].Commit? ==>
      var r := Play(NO_RACES, begun + mid[..i]);
      mid[i].t in r.open && r.open[mid[i].t].from in r.chain ==> r.chain[r.open[mid[i].t].from] != n
  }

  lemma ElsewherePrefix(begun: seq<Move>, mid: seq<Move>, n: nat, k: nat)
    requires CommitsElsewhere(begun, mid, n) && k <= |mid|
    ensures CommitsElsewhere(begun, mid[..k], n)
  {
    assert forall i :: 0 <= i < k ==> mid[..k][..i] == mid[..i] && mid[..k][i] == mid[i];
  }

  /** A move other than a commit of the chain puts no session into an existing chain. */
  lemma NoNewSession(r: Races, m: Move, n: nat, id: Id)
    requires RacesOk(r) && n < |r.logins|
    requires m.Commit? && m.t in r.open && r.open[m.t].from in r.chain ==> r.chain[r.open[m.t].from] != n
    requires id in Moved(r, m).rows && id in Moved(r, m).chain && Moved(r, m).chain[id] == n
    ensures id in r.rows && id in r.chain && r.chain[id] == n
  {
    if id !in r.rows {
      NewSession(r, m, id);
    } else {
      MoveLater(r, m);
    }
  }

  /** A chain is replaced only by a rotation of its own that commits while the logout-all is under way. */
  lemma {:induction false} OnlyCommitsReplace(ms: seq<Move>, u: nat, user: Id, mid: seq<Move>, n: nat, id: Id)
    requires u !in Play(NO_RACES, ms).sweeps && End(u) !in mid
    requires CommitsElsewhere(ms + [Begin(u, user)], mid, n) && n < |Play(NO_RACES, ms).logins|
    requires var r := Play(NO_RACES, ms + [Begin(u, user)] + mid); id in r.rows && id in r.chain && r.chain[id] == n
    ensures id in Play(NO_RACES, ms).rows
    decreases |mid|
  {
    var begun := ms + [Begin(u, user)];
    if mid == [] {
      assert begun + mid == begun;
      LastMove(NO_RACES, begun, ms, Begin(u, user));
    } else {
      var k := |mid| - 1;
      assert forall m :: m in mid[..k] ==> m in mid;
      Unsnoc(begun, mid);
      LastMove(NO_RACES, begun + mid, begun + mid[..k], mid[k]);
      PlayOk(begun + mid[..k]);
      Window(ms, u, user, mid[..k]);
      ElsewherePrefix(begun, mid, n, k);
      NoNewSession(Play(NO_RACES, begun + mid[..k]), mid[k], n, id);
      OnlyCommitsReplace(ms, u, user, mid[..k], n, id);
    }
  }

  /** So a logout-all during which no rotation of the chain commits ends it for good, whatever
      other chains and users do. */
  lemma QuietLogoutAllEnds(ms: seq<Move>, u: nat, user: Id, mid: seq<Move>, n: nat, rest: seq<Move>)
    requires u !in Play(NO_RACES, ms).sweeps && End(u) !in mid && CommitsElsewhere(ms + [Begin(u, user)], mid, n)
    requires CanMove(Play(NO_RACES, ms + [Begin(u, user)] + mid), End(u))
    requires n < |Play(NO_RACES, ms).logins| && Play(NO_RACES, ms).logins[n] == user
    ensures Over(Play(NO_RACES, ms + [Begin(u, user)] + mid + [End(u)] + rest), n)
  {
    var r0, r1 := Play(NO_RACES, ms), Play(NO_RACES, ms + [Begin(u, user)] + mid);
    if Replaced(r0, r1, n) {
      var id :| id in r1.rows && id !in r0.rows && id in r1.chain && r1.chain[id] == n && !r1.rows[id].revoked;
      OnlyCommitsReplace(ms, u, user, mid, n, id);
    }
    LogoutAllEndsIff(ms, u, user, mid, n);
  }

  function Original(user: Id, later: Time): Session { Session(user, 10, later, false) }

  function Replacement(user: Id, later: Time): Session { Session(user, 20, later, false) }

  /** One login whose session a rotation has locked. */
  function Held(user: Id, later: Time): Races {
    Races(map[1 := Original(user, later)], map[0 := Rotation(1, 2, Replacement(user, later))], map[],
          map[1 := 0], [user])
  }

  lemma HeldReached(user: Id, later: Time)
    requires later > 0
    ensures var a, b := SignIn(1, Original(user, later)), Lock(0, 1, 10, 0, 2, 20, later);
            Moved(Moved(NO_RACES, a), b) == Held(user, later)
  {
    var r1 := Moved(NO_RACES, SignIn(1, Original(user, later)));
    assert r1 == Races(map[1 := Original(user, later)], map[], map[], map[1 := 0], [user]);
  }

  lemma HeldSwept(user: Id, later: Time)
    ensures Moved(Held(user, later), Begin(0, user)) == Held(user, later).(sweeps := map[0 := Sweep(user, {1})])
  {
    assert Snapshot(Held(user, later).rows, user) == {1};
  }

  lemma HeldCommits(user: Id, later: Time)
    ensures var r := Held(user, later).(sweeps := map[0 := Sweep(user, {1})]);
            Moved(r, Commit(0))
            == Races(map[1 := Original(user, later).(revoked := true), 2 := Replacement(user, later)], map[],
                     r.sweeps, map[1 := 0, 2 := 0], [user])
  {
    var r := Held(user, later).(sweeps := map[0 := Sweep(user, {1})]);
    assert HashFree(r.rows, 20);
    assert r.open - {0} == map[];
  }

  lemma SweepMisses(user: Id, later: Time)
    ensures var r := Races(map[1 := Original(user, later).(revoked := true), 2 := Replacement(user, later)], map[],
                           map[0 := Sweep(user, {1})], map[1 := 0, 2 := 0], [user]);
            Moved(r, End(0)) == r.(sweeps := map[])
  {
    var r := Races(map[1 := Original(user, later).(revoked := true), 2 := Replacement(user, later)], map[],
                   map[0 := Sweep(user, {1})], map[1 := 0, 2 := 0], [user]);
    assert RevokedIn(r.rows, {1}) == r.rows && r.sweeps - {0} == map[];
  }

  /** Five moves are enough for a chain to outlive a logout-all: a rotation locks its session,
      the logout-all takes its snapshot and waits, the rotation commits, the logout-all ends. */
  lemma RotationOutlives(user: Id, later: Time)
    requires later > 0
    ensures var ms := [SignIn(1, Original(user, later)), Lock(0, 1, 10, 0, 2, 20, later),
                       Begin(0, user), Commit(0), End(0)];
            var r := Play(NO_RACES, ms);
            r.sweeps == map[] && r.logins == [user] && 2 in r.rows && r.rows[2] == Replacement(user, later)
            && !Over(r, 0)
  {
    FiveMoves(SignIn(1, Original(user, later)), Lock(0, 1, 10, 0, 2, 20, later), Begin(0, user), Commit(0), End(0));
    HeldReached(user, later);
    HeldSwept(user, later);
    HeldCommits(user, later);
    SweepMisses(user, later);
  }

  lemma FiveMoves(a: Move, b: Move, c: Move, d: Move, e: Move)
    ensures Play(NO_RACES, [a, b, c, d, e]) == Moved(Moved(Moved(Moved(Moved(NO_RACES, a), b), c), d), e)
  {
    LastMove(NO_RACES, [a], [], a);
    LastMove(NO_RACES, [a, b], [a], b);
    LastMove(NO_RACES, [a, b, c], [a, b], c);
    LastMove(NO_RACES, [a, b, c, d], [a, b, c], d);
    LastMove(NO_RACES, [a, b, c, d, e], [a, b, c, d], e);
  }
}
