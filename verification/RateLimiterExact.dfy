/** Exactly which limits make eviction invisible and keep the admission bound, for callers that
    pass their own burst. */
module RateLimiterExact {
  import opened RateLimiter

  const LATER: int := IDLE + 1

  lemma RunSnoc(c: Limits, trace: seq<Request>, r: Request)
    ensures Run(c, trace + [r]).0 == Serve(c, Run(c, trace).0, r.who, r.at).0
    ensures Run(c, trace + [r]).1 == Run(c, trace).1 + [Serve(c, Run(c, trace).0, r.who, r.at).1]
    ensures RunPlain(c, trace + [r]).0 == ServePlain(c, RunPlain(c, trace).0, r.who, r.at).0
    ensures RunPlain(c, trace + [r]).1 == RunPlain(c, trace).1 + [ServePlain(c, RunPlain(c, trace).0, r.who, r.at).1]
  {
    assert (trace + [r])[..|trace|] == trace;
  }

  /** Client 0 sends `n` requests at time 0. */
  function Burst(n: nat): seq<Request> {
    if n == 0 then [] else Burst(n - 1) + [Request(0, 0)]
  }

  /** Then clients 1..n come by once, just over ten minutes later. */
  function Crowd(b: nat, n: nat): seq<Request> {
    if n == 0 then Burst(b) else Crowd(b, n - 1) + [Request(n, LATER)]
  }

  /** Then client 0 sends `n` more. */
  function Return(b: nat, n: nat): seq<Request> {
    if n == 0 then Crowd(b, SWEEP_ABOVE) else Return(b, n - 1) + [Request(0, LATER)]
  }

  function Worth(n: nat): nat { n * 60_000_000_000 }

  lemma WorthFits(c: Limits, n: nat)
    requires n <= c.burst
    ensures Worth(n) <= Cap(c) == Worth(c.burst)
    ensures n < c.burst ==> Worth(n) + UNIT == Worth(n + 1) <= Cap(c)
  {
  }

  /** The bucket after `n` admissions at one instant from full. */
  function After(c: Limits, n: nat, now: int): Bucket
    requires n <= c.burst
  {
    WorthFits(c, n);
    Bucket(Cap(c) - Worth(n), now)
  }

  lemma AllowAgain(c: Limits, n: nat, now: int)
    requires n < c.burst
    ensures Allow(c, After(c, n, now), now) == (After(c, n + 1, now), true)
  {
    WorthFits(c, n);
  }

  /** The two maps after client 0 alone has been admitted `n` times. */
  function Alone(c: Limits, n: nat): Entries
    requires n <= c.burst
  {
    if n == 0 then map[] else map[0 := Entry(After(c, n, 0), 0)]
  }

  function AlonePlain(c: Limits, n: nat): Buckets
    requires n <= c.burst
  {
    if n == 0 then map[] else map[0 := After(c, n, 0)]
  }

  lemma ServeAlone(c: Limits, n: nat)
    requires n < c.burst
    ensures Serve(c, Alone(c, n), 0, 0).0 == Alone(c, n + 1) && Serve(c, Alone(c, n), 0, 0).1
  {
    var m := Alone(c, n);
    SmallKeys(m.Keys);
    assert |m| == |m.Keys|;
    assert Sweep(m, 0) == m && After(c, 0, 0) == Full(c, 0);
    AllowAgain(c, n, 0);
    var t := Touch(c, m, 0, 0);
    assert t == map[0 := Entry(After(c, n, 0), 0)];
  }

  lemma ServePlainAlone(c: Limits, n: nat)
    requires n < c.burst
    ensures ServePlain(c, AlonePlain(c, n), 0, 0).0 == AlonePlain(c, n + 1)
  {
    assert After(c, 0, 0) == Full(c, 0);
    AllowAgain(c, n, 0);
  }

  lemma {:induction false} BurstTimes(n: nat)
    ensures |Burst(n)| == n && forall i :: 0 <= i < n ==> Burst(n)[i].at == 0
  {
    if n > 0 {
      BurstTimes(n - 1);
    }
  }

  ghost predicate Spent(c: Limits, n: nat) {
    && n <= c.burst
    && Run(c, Burst(n)).0 == Alone(c, n)
    && RunPlain(c, Burst(n)).0 == AlonePlain(c, n)
  }

  lemma BurstStart(c: Limits)
    ensures Spent(c, 0)
  {
    assert Burst(0) == [];
  }

  lemma BurstStep(c: Limits, n: nat)
    requires n < c.burst && Spent(c, n)
    ensures Spent(c, n + 1)
  {
    var trace := Burst(n);
    assert Burst(n + 1) == trace + [Request(0, 0)];
    RunSnoc(c, trace, Request(0, 0));
    ServeAlone(c, n);
    ServePlainAlone(c, n);
  }

  lemma {:induction false} BurstEffect(c: Limits, n: nat)
    requires n <= c.burst
    ensures Spent(c, n)
  {
    if n == 0 {
      BurstStart(c);
    } else {
      var k := n - 1;
      BurstEffect(c, k);
      BurstStep(c, k);
    }
  }

  lemma SmallKeys(s: set<Client>)
    requires s <= {0}
    ensures |s| <= 1
  {
    assert s == {} || s == {0};
  }

  lemma OnlyZero(s: set<Client>)
    requires s == {0}
    ensures Upto(s, 0)
  {
    assert |s| == 1;
    assert forall k: Client :: k in s <==> k == 0;
  }

  ghost predicate Upto(s: set<Client>, n: nat) {
    |s| == n + 1 && forall k: Client :: k in s <==> k <= n
  }

  /** Client 0 has nothing left, and clients 1..n have each made an entry. */
  ghost predicate Crowded(c: Limits, n: nat) {
    var m, p := Run(c, Crowd(c.burst, n)).0, RunPlain(c, Crowd(c.burst, n)).0;
    Upto(m.Keys, n) && m[0] == Entry(Bucket(0, 0), 0) && 0 in p && p[0] == Bucket(0, 0)
  }

  lemma CrowdStart(c: Limits)
    requires c.burst >= 1
    ensures Crowded(c, 0)
  {
    BurstEffect(c, c.burst);
    WorthFits(c, c.burst);
    OnlyZero(Run(c, Burst(c.burst)).0.Keys);
  }

  lemma CrowdStep(c: Limits, n: nat)
    requires n < SWEEP_ABOVE && Crowded(c, n)
    ensures Crowded(c, n + 1)
  {
    var trace := Crowd(c.burst, n);
    assert Crowd(c.burst, n + 1) == trace + [Request(n + 1, LATER)];
    RunSnoc(c, trace, Request(n + 1, LATER));
    NewcomerServed(c, Run(c, trace).0, n + 1);
  }

  lemma {:induction false} CrowdEffect(c: Limits, n: nat)
    requires c.burst >= 1 && n <= SWEEP_ABOVE
    ensures Crowded(c, n)
  {
    if n == 0 {
      CrowdStart(c);
    } else {
      var k := n - 1;
      CrowdEffect(c, k);
      CrowdStep(c, k);
    }
  }

  lemma NewcomerServed(c: Limits, m: Entries, n: nat)
    requires 1 <= n <= SWEEP_ABOVE && Upto(m.Keys, n - 1)
    ensures Upto(Serve(c, m, n, LATER).0.Keys, n) && Serve(c, m, n, LATER).0[0] == m[0]
  {
    assert |m| == |m.Keys|;
    assert Sweep(m, LATER) == m;
    assert Serve(c, m, n, LATER).0.Keys == m.Keys + {n};
  }

  lemma {:induction false} CrowdTimes(c: Limits, n: nat)
    ensures |Crowd(c.burst, n)| == c.burst + n
    ensures forall i :: 0 <= i < |Crowd(c.burst, n)| ==> Crowd(c.burst, n)[i].at == if i < c.burst then 0 else LATER
  {
    if n == 0 {
      BurstTimes(c.burst);
    } else {
      CrowdTimes(c, n - 1);
    }
  }

  lemma {:induction false} ReturnTimes(c: Limits, n: nat)
    ensures |Return(c.burst, n)| == c.burst + SWEEP_ABOVE + n
    ensures forall i :: 0 <= i < |Return(c.burst, n)| ==> Return(c.burst, n)[i].at == if i < c.burst then 0 else LATER
  {
    if n == 0 {
      CrowdTimes(c, SWEEP_ABOVE);
    } else {
      ReturnTimes(c, n - 1);
    }
  }

  ghost predicate AllTrue(ds: seq<bool>, from: nat) {
    forall i :: from <= i < |ds| ==> ds[i]
  }

  lemma AllTrueSnoc(ds: seq<bool>, d: bool, from: nat)
    requires from <= |ds|
    ensures AllTrue(ds + [d], from) <==> AllTrue(ds, from) && d
  {
    assert forall i :: 0 <= i < |ds| ==> (ds + [d])[i] == ds[i];
    assert (ds + [d])[|ds|] == d;
  }

  /** Client 0 finds a full bucket less `n` tokens: the entry is there, or has to be made. */
  lemma ReturnServed(c: Limits, m: Entries, n: nat)
    requires n < c.burst
    requires if n == 0 then 0 !in Sweep(m, LATER) else 0 in m && m[0] == Entry(After(c, n, LATER), LATER)
    ensures Serve(c, m, 0, LATER).1
    ensures Serve(c, m, 0, LATER).0[0] == Entry(After(c, n + 1, LATER), LATER)
  {
    assert Touch(c, m, 0, LATER)[0].bucket == After(c, n, LATER);
    AllowAgain(c, n, LATER);
  }

  lemma CrowdEvicts(c: Limits)
    requires c.burst >= 1
    ensures 0 !in Sweep(Run(c, Crowd(c.burst, SWEEP_ABOVE)).0, LATER)
  {
    CrowdEffect(c, SWEEP_ABOVE);
    var m := Run(c, Crowd(c.burst, SWEEP_ABOVE)).0;
    assert |m| == |m.Keys| == SWEEP_ABOVE + 1;
  }

  /** On its return client 0 has been evicted, finds a full bucket and is always admitted. */
  lemma {:induction false} EvictedReturn(c: Limits, n: nat)
    requires c.burst >= 1 && n <= c.burst
    ensures AllTrue(Run(c, Return(c.burst, n)).1, c.burst + SWEEP_ABOVE)
    ensures var m := Run(c, Return(c.burst, n)).0; n > 0 ==> 0 in m && m[0] == Entry(After(c, n, LATER), LATER)
  {
    if n == 0 {
      ReturnTimes(c, 0);
    } else {
      EvictedReturn(c, n - 1);
      CrowdEvicts(c);
      var trace := Return(c.burst, n - 1);
      ReturnTimes(c, n - 1);
      var m := Run(c, trace).0;
      ReturnServed(c, m, n - 1);
      RunSnoc(c, trace, Request(0, LATER));
      AllTrueSnoc(Run(c, trace).1, Serve(c, m, 0, LATER).1, c.burst + SWEEP_ABOVE);
    }
  }

  /** Client 0's bucket holds the idle refill less `n` tokens. */
  ghost predicate Paid(c: Limits, p: Buckets, n: nat) {
    0 in p && Level(c, p[0], LATER) + Worth(n) == Times(c.rpm, LATER)
  }

  lemma IdleRefill(c: Limits, p: Buckets)
    requires !RefillsWhileIdle(c) && 0 in p && p[0] == Bucket(0, 0)
    ensures Paid(c, p, 0)
  {
    assert Times(c.rpm, LATER) < Cap(c);
  }

  lemma PlainPays(c: Limits, p: Buckets, n: nat)
    requires Paid(c, p, n) && ServePlain(c, p, 0, LATER).1
    ensures Paid(c, ServePlain(c, p, 0, LATER).0, n + 1)
  {
  }

  lemma PlainStep(c: Limits, trace: seq<Request>, from: nat, n: nat)
    requires from <= |trace| && (AllTrue(RunPlain(c, trace).1, from) ==> Paid(c, RunPlain(c, trace).0, n))
    ensures var (p, ds) := RunPlain(c, trace + [Request(0, LATER)]); AllTrue(ds, from) ==> Paid(c, p, n + 1)
  {
    RunSnoc(c, trace, Request(0, LATER));
    var (p, ds) := RunPlain(c, trace);
    AllTrueSnoc(ds, ServePlain(c, p, 0, LATER).1, from);
    if AllTrue(ds, from) && ServePlain(c, p, 0, LATER).1 {
      PlainPays(c, p, n);
    }
  }

  /** Without eviction it finds what the idle time has refilled, and pays from that. */
  lemma {:induction false} PlainReturn(c: Limits, n: nat)
    requires c.burst >= 1 && n <= c.burst && !RefillsWhileIdle(c)
    ensures AllTrue(RunPlain(c, Return(c.burst, n)).1, c.burst + SWEEP_ABOVE) ==>
            Paid(c, RunPlain(c, Return(c.burst, n)).0, n)
  {
    if n == 0 {
      CrowdEffect(c, SWEEP_ABOVE);
      IdleRefill(c, RunPlain(c, Crowd(c.burst, SWEEP_ABOVE)).0);
    } else {
      PlainReturn(c, n - 1);
      ReturnTimes(c, n - 1);
      PlainStep(c, Return(c.burst, n - 1), c.burst + SWEEP_ABOVE, n - 1);
    }
  }

  /** Three visits are enough: spend the whole burst, let others fill the map while ten minutes
      pass, come back for a whole burst. */
  lemma EvictionVisible(c: Limits)
    requires c.burst >= 1 && !RefillsWhileIdle(c)
    ensures Ordered(Return(c.burst, c.burst))
    ensures Run(c, Return(c.burst, c.burst)).1 != RunPlain(c, Return(c.burst, c.burst)).1
  {
    ReturnTimes(c, c.burst);
    EvictedReturn(c, c.burst);
    PlainReturn(c, c.burst);
    WorthFits(c, c.burst);
  }

  /** Eviction is invisible on every ordered trace if and only if an empty bucket refills
      within the idle time; up to rounding, if and only if burst <= 10 * rpm. */
  lemma EvictionInvisibleIff(c: Limits)
    requires c.burst >= 1
    ensures (forall trace :: Ordered(trace) ==> Run(c, trace).1 == RunPlain(c, trace).1) <==> RefillsWhileIdle(c)
  {
    if RefillsWhileIdle(c) {
      forall trace | Ordered(trace) ensures Run(c, trace).1 == RunPlain(c, trace).1 {
        RunsAgree(c, trace);
      }
    } else {
      EvictionVisible(c);
    }
  }

  // ---- The window bound, for every limiter ----

  lemma {:induction false} AdmittedPrefix(a: seq<Request>, b: seq<bool>, r: Request, d: bool, who: Client, j: nat)
    requires j <= |a| == |b|
    ensures Admitted(a + [r], b + [d], who, 0, j) == Admitted(a, b, who, 0, j)
  {
    if j > 0 {
      AdmittedPrefix(a, b, r, d, who, j - 1);
    }
  }

  /** How often client 0 is admitted over a whole trace. */
  function Total(c: Limits, trace: seq<Request>): nat {
    Admitted(trace, Run(c, trace).1, 0, 0, |trace|)
  }

  lemma TotalSnoc(c: Limits, trace: seq<Request>, r: Request)
    ensures Total(c, trace + [r])
            == Total(c, trace) + if r.who == 0 && Serve(c, Run(c, trace).0, r.who, r.at).1 then 1 else 0
  {
    RunSnoc(c, trace, r);
    AdmittedPrefix(trace, Run(c, trace).1, r, Serve(c, Run(c, trace).0, r.who, r.at).1, 0, |trace|);
  }

  lemma {:induction false} BurstTotal(c: Limits, n: nat)
    requires n <= c.burst
    ensures Total(c, Burst(n)) == n
  {
    if n > 0 {
      var k := n - 1;
      BurstTotal(c, k);
      BurstEffect(c, k);
      ServeAlone(c, k);
      TotalSnoc(c, Burst(k), Request(0, 0));
    }
  }

  lemma {:induction false} CrowdTotal(c: Limits, n: nat)
    ensures Total(c, Crowd(c.burst, n)) == c.burst
  {
    if n == 0 {
      BurstTotal(c, c.burst);
    } else {
      CrowdTotal(c, n - 1);
      TotalSnoc(c, Crowd(c.burst, n - 1), Request(n, LATER));
    }
  }

  /** Client 0 spends two whole bursts. */
  lemma {:induction false} ReturnTotal(c: Limits, n: nat)
    requires c.burst >= 1 && n <= c.burst
    ensures Total(c, Return(c.burst, n)) == c.burst + n
  {
    if n == 0 {
      CrowdTotal(c, SWEEP_ABOVE);
    } else {
      var trace := Return(c.burst, n - 1);
      ReturnTotal(c, n - 1);
      EvictedReturn(c, n - 1);
      CrowdEvicts(c);
      ReturnServed(c, Run(c, trace).0, n - 1);
      TotalSnoc(c, trace, Request(0, LATER));
    }
  }

  lemma WindowBroken(c: Limits)
    requires c.burst >= 1 && !RefillsWhileIdle(c)
    ensures var trace := Return(c.burst, c.burst);
            Ordered(trace) && 0 < |trace| && !WindowKept(c, trace, 0, 0, |trace|)
  {
    ReturnTimes(c, c.burst);
    ReturnTotal(c, c.burst);
    var trace := Return(c.burst, c.burst);
    assert Admitted(trace, Run(c, trace).1, 0, 0, |trace|) == Total(c, trace) == 2 * c.burst;
    assert trace[|trace| - 1].at - trace[0].at == IDLE + 1;
  }

  /** The admission bound holds in every window of every ordered trace if and only if an empty
      bucket refills within the idle time. */
  lemma WindowBoundIff(c: Limits)
    requires c.burst >= 1
    ensures (forall trace, who, i: nat, j: nat :: Ordered(trace) && i < j <= |trace| ==>
            WindowKept(c, trace, who, i, j))
            <==> RefillsWhileIdle(c)
  {
    if RefillsWhileIdle(c) {
      forall trace, who, i: nat, j: nat | Ordered(trace) && i < j <= |trace| ensures WindowKept(c, trace, who, i, j) {
        WindowBound(c, trace, who, i, j);
      }
    } else {
      WindowBroken(c);
    }
  }

  /** The condition on the constructor's arguments: at any rate below sixty billion a minute,
      burst at most ten times rpm. */
  lemma RefillsIff(rpm: int, burst: int)
    requires 0 < rpm < UNIT && burst > 0
    ensures RefillsWhileIdle(NewLimits(rpm, burst).value) <==> burst <= 10 * rpm
  {
  }
}
