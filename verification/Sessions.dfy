/** Refresh-session rotation: lookup and rotate as separate repository calls, interleaved with
    logins, logouts and logout-alls; each repository call is atomic. */
module Sessions {
  import opened Domain
  import opened Sequences

  type Hash = nat

  datatype Session = Session(user: Id, hash: Hash, expires: Time, revoked: bool)

  type Rows = map<Id, Session>

  /** The WHERE clause of every lookup by token hash. */
  predicate Usable(rows: Rows, id: Id, hash: Hash, now: Time) {
    id in rows && rows[id].hash == hash && !rows[id].revoked && rows[id].expires > now
  }

  /** The unique index on token_hash. */
  ghost predicate UniqueHashes(rows: Rows) {
    forall a, b :: a in rows && b in rows && rows[a].hash == rows[b].hash ==> a == b
  }

  ghost predicate HashFree(rows: Rows, hash: Hash) {
    forall a :: a in rows ==> rows[a].hash != hash
  }

  function Revoked(rows: Rows, id: Id): Rows
    requires id in rows
  {
    rows[id := rows[id].(revoked := true)]
  }

  function AllRevoked(rows: Rows, user: Id): Rows {
    map id | id in rows :: if rows[id].user == user then rows[id].(revoked := true) else rows[id]
  }

  /** Whether a token is good at `now`, which is all a client can tell. */
  ghost predicate Accepts(rows: Rows, hash: Hash, now: Time) {
    exists id :: Usable(rows, id, hash, now)
  }

  predicate Fits(s: Session, hash: Hash, now: Time) {
    s.hash == hash && !s.revoked && s.expires > now
  }

  // ---- The repository ----

  lemma AddedAccepts(rows: Rows, id: Id, s: Session)
    requires id !in rows
    ensures forall h, t :: Accepts(rows[id := s], h, t) <==> Accepts(rows, h, t) || Fits(s, h, t)
  {
    forall h, t ensures Accepts(rows[id := s], h, t) <==> Accepts(rows, h, t) || Fits(s, h, t) {
      if Accepts(rows, h, t) {
        var x :| Usable(rows, x, h, t);
        assert Usable(rows[id := s], x, h, t);
      }
      if Fits(s, h, t) {
        assert Usable(rows[id := s], id, h, t);
      }
      if Accepts(rows[id := s], h, t) {
        var x :| Usable(rows[id := s], x, h, t);
        assert x == id || Usable(rows, x, h, t);
      }
    }
  }

  /** Revoking a session makes its token good for nothing and touches no other token. */
  lemma RevokedAccepts(rows: Rows, id: Id)
    requires UniqueHashes(rows) && id in rows
    ensures forall h, t :: Accepts(Revoked(rows, id), h, t) <==> Accepts(rows, h, t) && h != rows[id].hash
  {
    var rows' := Revoked(rows, id);
    forall h, t ensures Accepts(rows', h, t) <==> Accepts(rows, h, t) && h != rows[id].hash {
      if Accepts(rows', h, t) {
        var x :| Usable(rows', x, h, t);
        assert x != id && Usable(rows, x, h, t);
      }
      if Accepts(rows, h, t) && h != rows[id].hash {
        var x :| Usable(rows, x, h, t);
        assert Usable(rows', x, h, t);
      }
    }
  }

  class SessionRepository {
    var rows: Rows

    ghost predicate Valid()
      reads this
    {
      UniqueHashes(rows)
    }

    constructor ()
      ensures Valid() && rows == map[]
    {
      rows := map[];
    }

    method Create(id: Id, s: Session) returns (ok: bool)
      requires Valid() && id !in rows
      modifies this
      ensures Valid()
      ensures ok <==> HashFree(old(rows), s.hash)
      ensures rows == if ok then old(rows)[id := s] else old(rows)
      ensures ok ==> forall h, t :: Accepts(rows, h, t) <==> Accepts(old(rows), h, t) || Fits(s, h, t)
    {
      ok := forall a :: a in rows ==> rows[a].hash != s.hash;
      if ok {
        AddedAccepts(rows, id, s);
        rows := rows[id := s];
      }
    }

    method GetByTokenHash(hash: Hash, now: Time) returns (found: Option<Id>)
      requires Valid()
      ensures found.Some? ==> Usable(rows, found.value, hash, now)
      ensures found.None? ==> forall id :: !Usable(rows, id, hash, now)
      ensures found.Some? ==> found.value in rows && rows[found.value].hash == hash
                              && !rows[found.value].revoked && now < rows[found.value].expires
      ensures found.None? ==> forall id :: id in rows ==>
                                rows[id].hash != hash || rows[id].revoked || rows[id].expires <= now
    {
      found := None;
      var left := rows.Keys;
      while left != {}
        invariant left <= rows.Keys && found.None?
        invariant forall id :: id in rows && id !in left ==>
                    rows[id].hash != hash || rows[id].revoked || rows[id].expires <= now
        decreases |left|
      {
        var id :| id in left;
        if rows[id].hash == hash && !rows[id].revoked && now < rows[id].expires {
          return Some(id);
        }
        left := left - {id};
      }
    }

    method Revoke(id: Id) returns (ok: bool)
      requires Valid()
      modifies this
      ensures Valid()
      ensures ok <==> id in old(rows) && !old(rows)[id].revoked
      ensures rows == if ok then old(rows)[id := old(rows)[id].(revoked := true)] else old(rows)
      ensures ok ==> forall h, t :: Accepts(rows, h, t) <==> Accepts(old(rows), h, t) && h != old(rows)[id].hash
    {
      ok := id in rows && !rows[id].revoked;
      if ok {
        RevokedAccepts(rows, id);
        rows := rows[id := rows[id].(revoked := true)];
      }
    }

    method RevokeAllByUser(user: Id)
      requires Valid()
      modifies this
      ensures Valid() && rows == AllRevoked(old(rows), user)
      ensures rows.Keys == old(rows).Keys
      ensures forall id :: id in rows ==>
                rows[id] == if old(rows)[id].user == user then old(rows)[id].(revoked := true) else old(rows)[id]
      ensures forall id, h, t :: Usable(rows, id, h, t) <==> Usable(old(rows), id, h, t) && old(rows)[id].user != user
    {
      rows := map id | id in rows :: if rows[id].user == user then rows[id].(revoked := true) else rows[id];
    }

    /** Revokes the old session and inserts the new one in one transaction: a taken hash rolls
        the revocation back too. */
    method RotateRefresh(hash: Hash, now: Time, id: Id, s: Session) returns (ok: bool)
      requires Valid() && id !in rows
      modifies this
      ensures Valid()
      ensures ok <==> (exists prev :: Usable(old(rows), prev, hash, now))
                      && (forall a :: a in old(rows) ==> old(rows)[a].hash != s.hash)
      ensures ok ==> exists prev :: Usable(old(rows), prev, hash, now)
                                    && rows == old(rows)[prev := old(rows)[prev].(revoked := true)][id := s]
      ensures !ok ==> rows == old(rows)
      ensures ok ==> forall h, t :: Accepts(rows, h, t) <==> (Accepts(old(rows), h, t) && h != hash) || Fits(s, h, t)
    {
      var found := GetByTokenHash(hash, now);
      if found.None? {
        return false;
      }
      var tx := Revoked(rows, found.value);
      if exists a :: a in tx && tx[a].hash == s.hash {
        assert exists a :: a in rows && rows[a].hash == s.hash;
        return false;
      }
      assert forall a :: a in rows ==> tx[a].hash == rows[a].hash;
      RevokedAccepts(rows, found.value);
      AddedAccepts(tx, id, s);
      rows := tx[id := s];
      return true;
    }
  }

  /** `Refresh` and `Logout`, without another call in between. */
  class AuthService {
    const sessions: SessionRepository

    constructor (sessions: SessionRepository)
      ensures this.sessions == sessions
    {
      this.sessions := sessions;
    }

    /** A usable token is replaced by a session of the same user; any other is refused. */
    method Refresh(hash: Hash, now: Time, id: Id, newHash: Hash, expires: Time) returns (ok: bool)
      requires sessions.Valid() && id !in sessions.rows
      modifies sessions
      ensures sessions.Valid()
      ensures ok <==> (exists prev :: prev in old(sessions.rows) && old(sessions.rows)[prev].hash == hash
                                      && !old(sessions.rows)[prev].revoked && now < old(sessions.rows)[prev].expires)
                      && (forall a :: a in old(sessions.rows) ==> old(sessions.rows)[a].hash != newHash)
      ensures ok ==> exists prev ::
        Usable(old(sessions.rows), prev, hash, now)
        && sessions.rows
           == old(sessions.rows)[prev := old(sessions.rows)[prev].(revoked := true)][
                id := Session(old(sessions.rows)[prev].user, newHash, expires, false)]
      ensures !ok ==> sessions.rows == old(sessions.rows)
    {
      var found := sessions.GetByTokenHash(hash, now);
      if found.None? {
        return false;
      }
      ok := sessions.RotateRefresh(hash, now, id, Session(sessions.rows[found.value].user, newHash, expires, false));
    }

    method Logout(hash: Hash, now: Time) returns (ok: bool)
      requires sessions.Valid()
      modifies sessions
      ensures sessions.Valid()
      ensures ok <==> exists id :: id in old(sessions.rows) && old(sessions.rows)[id].hash == hash
                                   && !old(sessions.rows)[id].revoked && now < old(sessions.rows)[id].expires
      ensures ok ==> exists id :: Usable(old(sessions.rows), id, hash, now)
                                  && sessions.rows
                                     == old(sessions.rows)[id := old(sessions.rows)[id].(revoked := true)]
      ensures !ok ==> sessions.rows == old(sessions.rows)
    {
      var found := sessions.GetByTokenHash(hash, now);
      if found.None? {
        return false;
      }
      ok := sessions.Revoke(found.value);
    }
  }

  // ---- Calls in flight ----

  datatype Pending =
    | Refreshing(hash: Hash, user: Id)     // session found; its user goes into the new one
    | LoggingOut(id: Id)

  /** `parent`, `chain` and `logins` are history: the session a session replaced, the number of
      the login its chain began with, and the user of each login. */
  datatype State = State(
    rows: Rows, calls: map<nat, Pending>, parent: map<Id, Id>, chain: map<Id, nat>, logins: seq<Id>)

  const EMPTY := State(map[], map[], map[], map[], [])

  datatype Label =
    | Login(id: Id, s: Session)
    | FindForRefresh(t: nat, id: Id, hash: Hash, now: Time)
    | Rotate(t: nat, from: Id, id: Id, hash: Hash, expires: Time, now: Time)
    | FindForLogout(t: nat, id: Id, hash: Hash, now: Time)
    | Revoke(t: nat)
    | LogoutAll(user: Id)
    | Drop(t: nat)                          // crash, error or "invalid refresh token"

  ghost function Next(st: State, l: Label): State {
    match l
    case Login(id, s) =>
      if id in st.rows || !HashFree(st.rows, s.hash) || s.revoked then st
      else st.(rows := st.rows[id := s], chain := st.chain[id := |st.logins|], logins := st.logins + [s.user])
    case FindForRefresh(t, id, hash, now) =>
      if t in st.calls || !Usable(st.rows, id, hash, now) then st
      else st.(calls := st.calls[t := Refreshing(hash, st.rows[id].user)])
    case Rotate(t, from, id, hash, expires, now) =>
      if t !in st.calls || !st.calls[t].Refreshing? || id in st.rows || !HashFree(st.rows, hash)
         || !Usable(st.rows, from, st.calls[t].hash, now) || from !in st.chain
      then st
      else
        var s := Session(st.calls[t].user, hash, expires, false);
        State(Revoked(st.rows, from)[id := s], st.calls - {t},
              st.parent[id := from], st.chain[id := st.chain[from]], st.logins)
    case FindForLogout(t, id, hash, now) =>
      if t in st.calls || !Usable(st.rows, id, hash, now) then st
      else st.(calls := st.calls[t := LoggingOut(id)])
    case Revoke(t) =>
      if t !in st.calls || !st.calls[t].LoggingOut? || st.calls[t].id !in st.rows then st
      else st.(rows := Revoked(st.rows, st.calls[t].id), calls := st.calls - {t})
    case LogoutAll(user) => st.(rows := AllRevoked(st.rows, user))
    case Drop(t) => st.(calls := st.calls - {t})
  }

  ghost function Run(ls: seq<Label>): State {
    if ls == [] then EMPTY else Next(Run(ls[..|ls| - 1]), ls[|ls| - 1])
  }

  // ---- Invariants of every run ----

  /** A call past its lookup names the user its token belongs to, or a stored session. */
  ghost predicate CallsOk(st: State) {
    && (forall t :: t in st.calls && st.calls[t].Refreshing? ==>
          exists id :: id in st.rows && st.rows[id].hash == st.calls[t].hash && st.rows[id].user == st.calls[t].user)
    && (forall t :: t in st.calls && st.calls[t].LoggingOut? ==> st.calls[t].id in st.rows)
  }

  ghost predicate ChainsOk(st: State) {
    && st.chain.Keys == st.rows.Keys
    && (forall id :: id in st.rows ==> st.chain[id] < |st.logins| && st.rows[id].user == st.logins[st.chain[id]])
    && (forall id :: id in st.parent ==>
          id in st.rows && st.parent[id] in st.rows && st.rows[st.parent[id]].revoked
          && st.chain[id] == st.chain[st.parent[id]])
  }

  ghost predicate OneSuccessor(st: State) {
    forall a, b :: a in st.parent && b in st.parent && st.parent[a] == st.parent[b] ==> a == b
  }

  ghost predicate OneActive(st: State) {
    forall a, b ::
      a in st.rows && b in st.rows && a in st.chain && b in st.chain && st.chain[a] == st.chain[b] && a != b
      ==> st.rows[a].revoked || st.rows[b].revoked
  }

  ghost predicate Inv(st: State) {
    UniqueHashes(st.rows) && CallsOk(st) && ChainsOk(st) && OneSuccessor(st) && OneActive(st)
  }

  lemma KeepCalls(st: State, l: Label)
    requires CallsOk(st)
    ensures CallsOk(Next(st, l))
  {
    var st' := Next(st, l);
    assert forall id :: id in st.rows ==>
             id in st'.rows && st'.rows[id].hash == st.rows[id].hash && st'.rows[id].user == st.rows[id].user;
    forall t | t in st'.calls && st'.calls[t].Refreshing?
      ensures exists id :: id in st'.rows && st'.rows[id].hash == st'.calls[t].hash
                           && st'.rows[id].user == st'.calls[t].user
    {
      if t in st.calls {
        var id :| id in st.rows && st.rows[id].hash == st.calls[t].hash && st.rows[id].user == st.calls[t].user;
        assert id in st'.rows;
      } else {
        assert l.id in st'.rows;
      }
    }
  }

  lemma RotatedUser(st: State, l: Label)
    requires Inv(st) && l.Rotate? && l.t in st.calls && st.calls[l.t].Refreshing?
             && Usable(st.rows, l.from, st.calls[l.t].hash, l.now)
    ensures st.rows[l.from].user == st.calls[l.t].user
  {
    var id :| id in st.rows && st.rows[id].hash == st.calls[l.t].hash && st.rows[id].user == st.calls[l.t].user;
    assert id == l.from;
  }

  ghost predicate ChainInv(st: State) {
    UniqueHashes(st.rows) && ChainsOk(st) && OneSuccessor(st) && OneActive(st)
  }

  lemma LoginKeepsHashes(st: State, l: Label)
    requires UniqueHashes(st.rows) && l.Login?
    ensures UniqueHashes(Next(st, l).rows)
  {
  }

  lemma LoginStartsChain(st: State, l: Label)
    requires ChainsOk(st) && l.Login?
    ensures ChainsOk(Next(st, l))
  {
  }

  lemma LoginKeepsSingle(st: State, l: Label)
    requires ChainsOk(st) && OneSuccessor(st) && OneActive(st) && l.Login?
    ensures OneSuccessor(Next(st, l)) && OneActive(Next(st, l))
  {
  }

  /** Revoking sessions, whichever, keeps the chains. */
  lemma RevokingKeepsChains(st: State, st': State)
    requires ChainInv(st) && st'.rows.Keys == st.rows.Keys
    requires st'.parent == st.parent && st'.chain == st.chain && st'.logins == st.logins
    requires forall id :: id in st.rows ==>
               st'.rows[id].hash == st.rows[id].hash && st'.rows[id].user == st.rows[id].user
               && (st.rows[id].revoked ==> st'.rows[id].revoked)
    ensures ChainInv(st')
  {
  }

  lemma OnlyRevokes(st: State, l: Label)
    requires !l.Rotate? && !l.Login?
    ensures var st' := Next(st, l);
            && st'.rows.Keys == st.rows.Keys
            && st'.parent == st.parent && st'.chain == st.chain && st'.logins == st.logins
            && forall id :: id in st.rows ==>
                 st'.rows[id].hash == st.rows[id].hash && st'.rows[id].user == st.rows[id].user
                 && (st.rows[id].revoked ==> st'.rows[id].revoked)
  {
  }

  lemma RotateKeepsHashes(st: State, l: Label)
    requires UniqueHashes(st.rows) && l.Rotate? && Next(st, l) != st
    ensures UniqueHashes(Next(st, l).rows)
  {
  }

  lemma RotateExtendsChain(st: State, l: Label)
    requires ChainsOk(st) && l.Rotate? && Next(st, l) != st && st.rows[l.from].user == st.calls[l.t].user
    ensures ChainsOk(Next(st, l))
  {
    var st' := Next(st, l);
    assert st'.chain[l.id] == st.chain[l.from];
    forall id | id in st'.rows
      ensures st'.chain[id] < |st'.logins| && st'.rows[id].user == st'.logins[st'.chain[id]]
    {
      assert id == l.id || id in st.rows;
    }
    forall id | id in st'.parent
      ensures id in st'.rows && st'.parent[id] in st'.rows && st'.rows[st'.parent[id]].revoked
              && st'.chain[id] == st'.chain[st'.parent[id]]
    {
      assert id == l.id || id in st.parent;
    }
  }

  lemma RotateKeepsSuccessor(st: State, l: Label)
    requires ChainsOk(st) && OneSuccessor(st) && l.Rotate? && Next(st, l) != st
    ensures OneSuccessor(Next(st, l))
  {
    assert forall a :: a in st.parent ==> st.parent[a] != l.from;
  }

  lemma RotateKeepsSingle(st: State, l: Label)
    requires OneActive(st) && l.Rotate? && Next(st, l) != st
    ensures OneActive(Next(st, l))
  {
  }

  lemma KeepChains(st: State, l: Label)
    requires Inv(st)
    ensures ChainInv(Next(st, l))
  {
    var st' := Next(st, l);
    if l.Rotate? {
      if st' != st {
        RotatedUser(st, l);
        RotateKeepsHashes(st, l);
        RotateExtendsChain(st, l);
        RotateKeepsSuccessor(st, l);
        RotateKeepsSingle(st, l);
      }
    } else if l.Login? {
      LoginKeepsHashes(st, l);
      LoginStartsChain(st, l);
      LoginKeepsSingle(st, l);
    } else {
      OnlyRevokes(st, l);
      RevokingKeepsChains(st, st');
    }
  }

  /** What a step may do: it keeps rows, chains and revocations, and puts a new session in a new
      chain or in the chain of a session that was not revoked. */
  lemma StepShape(st: State, l: Label)
    requires ChainsOk(st)
    ensures |st.logins| <= |Next(st, l).logins|
    ensures forall id :: id in st.rows ==>
            id in Next(st, l).rows && (st.rows[id].revoked ==> Next(st, l).rows[id].revoked)
    ensures forall id :: id in st.chain ==> id in Next(st, l).chain && Next(st, l).chain[id] == st.chain[id]
    ensures forall id :: id in Next(st, l).chain && id !in st.chain ==>
              Next(st, l).chain[id] == |st.logins|
              || exists from :: from in st.rows && !st.rows[from].revoked && Next(st, l).chain[id] == st.chain[from]
  {
    if !l.Rotate? && !l.Login? {
      OnlyRevokes(st, l);
    } else if l.Rotate? && Next(st, l) != st {
      assert !st.rows[l.from].revoked && Next(st, l).chain[l.id] == st.chain[l.from];
    }
  }

  lemma {:induction false} Reachable(ls: seq<Label>)
    ensures Inv(Run(ls))
  {
    if ls != [] {
      Reachable(ls[..|ls| - 1]);
      KeepCalls(Run(ls[..|ls| - 1]), ls[|ls| - 1]);
      KeepChains(Run(ls[..|ls| - 1]), ls[|ls| - 1]);
    }
  }

  /** Every session has at most one successor, which belongs to the same user, and each login
      chain has at most one session that is not revoked. */
  lemma ChainsNeverFork(ls: seq<Label>, a: Id, b: Id)
    requires a in Run(ls).rows && b in Run(ls).rows
    ensures var st := Run(ls);
            && (a in st.parent && b in st.parent && st.parent[a] == st.parent[b] ==> a == b)
            && (a in st.parent ==> st.parent[a] in st.rows && st.rows[a].user == st.rows[st.parent[a]].user)
            && a in st.chain && b in st.chain
            && (st.chain[a] == st.chain[b] && a != b ==> st.rows[a].revoked || st.rows[b].revoked)
  {
    Reachable(ls);
  }

  lemma LastStep(ls: seq<Label>, init: seq<Label>, l: Label)
    requires ls == init + [l]
    ensures Run(ls) == Next(Run(init), l)
  {
    assert ls[..|ls| - 1] == init;
  }

  lemma RunSnoc(ls: seq<Label>, rest: seq<Label>)
    requires rest != []
    ensures Run(ls + rest) == Next(Run(ls + rest[..|rest| - 1]), rest[|rest| - 1])
  {
    Unsnoc(ls, rest);
    LastStep(ls + rest, ls + rest[..|rest| - 1], rest[|rest| - 1]);
  }

  /** Revocation is permanent, whatever runs afterwards. */
  lemma {:induction false} RevokedForever(ls: seq<Label>, rest: seq<Label>, id: Id)
    requires id in Run(ls).rows && Run(ls).rows[id].revoked
    ensures id in Run(ls + rest).rows && Run(ls + rest).rows[id].revoked
    decreases |rest|
  {
    if rest == [] {
      assert ls + rest == ls;
    } else {
      RevokedForever(ls, rest[..|rest| - 1], id);
      RunSnoc(ls, rest);
      Reachable(ls + rest[..|rest| - 1]);
      StepShape(Run(ls + rest[..|rest| - 1]), rest[|rest| - 1]);
    }
  }

  /** Chain `n` has begun and has no session left that is not revoked. */
  ghost predicate Ended(st: State, n: nat) {
    n < |st.logins| && forall id :: id in st.rows && id in st.chain && st.chain[id] == n ==> st.rows[id].revoked
  }

  lemma EndedStep(st: State, l: Label, n: nat)
    requires ChainsOk(st) && Ended(st, n)
    ensures Ended(Next(st, l), n)
  {
    StepShape(st, l);
    var st' := Next(st, l);
    forall id | id in st'.rows && id in st'.chain && st'.chain[id] == n ensures st'.rows[id].revoked {
      assert id in st.chain;
    }
  }

  lemma {:induction false} EndedForever(ls: seq<Label>, rest: seq<Label>, n: nat)
    requires Ended(Run(ls), n)
    ensures Ended(Run(ls + rest), n)
    decreases |rest|
  {
    if rest == [] {
      assert ls + rest == ls;
    } else {
      EndedForever(ls, rest[..|rest| - 1], n);
      RunSnoc(ls, rest);
      Reachable(ls + rest[..|rest| - 1]);
      EndedStep(Run(ls + rest[..|rest| - 1]), rest[|rest| - 1], n);
    }
  }

  lemma LogoutEndsThen(st: State, t: nat)
    requires Inv(st) && t in st.calls && st.calls[t].LoggingOut?
    ensures var id := st.calls[t].id;
            && id in st.chain
            && (Ended(Next(st, Revoke(t)), st.chain[id])
                <==> forall b :: b in st.rows && b in st.chain && st.chain[b] == st.chain[id] && b != id ==>
                       st.rows[b].revoked)
  {
    var id := st.calls[t].id;
    assert Next(st, Revoke(t)).rows == st.rows[id := st.rows[id].(revoked := true)];
  }

  /** A logout ends its login chain for good if and only if no rotation has taken the chain to
      another active session since the logout looked its session up. */
  lemma LogoutEndsIff(ls: seq<Label>, t: nat)
    requires t in Run(ls).calls && Run(ls).calls[t].LoggingOut?
    ensures var st := Run(ls); var id := st.calls[t].id;
            && id in st.chain
            && ((forall rest :: Ended(Run(ls + [Revoke(t)] + rest), st.chain[id]))
                <==> forall b :: b in st.rows && b in st.chain && st.chain[b] == st.chain[id] && b != id ==>
                       st.rows[b].revoked)
  {
    Reachable(ls);
    var st, all := Run(ls), ls + [Revoke(t)];
    LogoutEndsThen(st, t);
    LastStep(all, ls, Revoke(t));
    var n := st.chain[st.calls[t].id];
    if Ended(Run(all), n) {
      forall rest ensures Ended(Run(all + rest), n) {
        EndedForever(all, rest, n);
      }
    } else {
      assert all + [] == all;
    }
  }

  /** A login with a free hash opens a chain of its own. */
  lemma LoginOpensChain(ls: seq<Label>, id: Id, s: Session)
    requires id !in Run(ls).rows && !s.revoked && forall a :: a in Run(ls).rows ==> Run(ls).rows[a].hash != s.hash
    ensures var st, st' := Run(ls), Next(Run(ls), Login(id, s));
            && st'.rows == st.rows[id := s] && st'.calls == st.calls && id in st'.chain
            && (forall b :: b in st'.chain && b != id ==> st'.chain[b] != st'.chain[id])
            && st'.logins == st.logins + [s.user] && !Ended(st', st'.chain[id])
  {
    Reachable(ls);
    var st' := Next(Run(ls), Login(id, s));
    assert id in st'.rows && !st'.rows[id].revoked;
  }

  /** A refresh that is past its lookup goes through exactly when its token is still that of an
      active session: this session is revoked, and a new one of the same user continues its chain. */
  lemma RotateIff(ls: seq<Label>, t: nat, from: Id, id: Id, hash: Hash, expires: Time, now: Time)
    requires t in Run(ls).calls && Run(ls).calls[t].Refreshing?
    requires id !in Run(ls).rows && forall a :: a in Run(ls).rows ==> Run(ls).rows[a].hash != hash
    ensures var st, st' := Run(ls), Next(Run(ls), Rotate(t, from, id, hash, expires, now));
            if from in st.rows && st.rows[from].hash == st.calls[t].hash && !st.rows[from].revoked
               && now < st.rows[from].expires
            then
              && st'.rows == st.rows[from := st.rows[from].(revoked := true)][
                               id := Session(st.rows[from].user, hash, expires, false)]
              && from in st.chain && st'.chain == st.chain[id := st.chain[from]] && st'.parent == st.parent[id := from]
              && st'.calls == st.calls - {t}
            else st' == st
  {
    Reachable(ls);
    var st, l := Run(ls), Rotate(t, from, id, hash, expires, now);
    if Usable(st.rows, from, st.calls[t].hash, now) {
      RotatedUser(st, l);
    }
  }

  lemma LogoutAllEnds(st: State, user: Id, id: Id)
    requires ChainsOk(st) && id in st.rows && st.rows[id].user == user
    ensures Ended(Next(st, LogoutAll(user)), st.chain[id])
  {
  }

  /** No chain that exists at a logout-all of its user is ever active again: not even through a
      refresh that had already looked its session up. */
  lemma LogoutAllEndsChains(ls: seq<Label>, user: Id, rest: seq<Label>, id: Id)
    requires id in Run(ls).rows && Run(ls).rows[id].user == user
    ensures id in Run(ls).chain && Ended(Run(ls + [LogoutAll(user)] + rest), Run(ls).chain[id])
  {
    Reachable(ls);
    RunSnoc(ls, [LogoutAll(user)]);
    assert ls + [LogoutAll(user)][..0] == ls;
    LogoutAllEnds(Run(ls), user, id);
    EndedForever(ls + [LogoutAll(user)], rest, Run(ls).chain[id]);
  }
}
