/** The per-client token bucket with idle eviction.

    Time is in nanoseconds. A token is worth UNIT and a bucket refills by `rpm` per
    nanosecond, so that all levels are integers. */
module RateLimiter {
  import opened Domain

  type Client = nat

  const UNIT: nat := 60_000_000_000
  const IDLE: nat := 600_000_000_000
  const SWEEP_ABOVE: nat := 2048

  datatype Limits = Limits(rpm: nat, burst: nat)

  /** No limiter for rpm <= 0; without a burst, a third of rpm clamped to 1..60. */
  function NewLimits(rpm: int, burst: int): (r: Option<Limits>)
    ensures r.Some? <==> rpm > 0
    ensures r.Some? ==> r.value.rpm == rpm && r.value.burst >= 1
    ensures r.Some? && burst > 0 ==> r.value.burst == burst
    ensures r.Some? && burst <= 0 && 3 <= rpm <= 180 ==> 3 * r.value.burst <= rpm < 3 * r.value.burst + 3
    ensures r.Some? && burst <= 0 && rpm < 3 ==> r.value.burst == 1
    ensures r.Some? && burst <= 0 && rpm > 180 ==> r.value.burst == 60
    ensures r.Some? && burst <= 0 ==> r.value.burst <= 10 * rpm
  {
    if rpm <= 0 then None
    else if burst > 0 then Some(Limits(rpm, burst))
    else Some(Limits(rpm, if rpm / 3 < 1 then 1 else if rpm / 3 > 60 then 60 else rpm / 3))
  }

  /** `level` is what the bucket held at time `at`. */
  datatype Bucket = Bucket(level: nat, at: int)

  function Cap(c: Limits): nat { c.burst * UNIT }

  function Refill(c: Limits, from: int, now: int): nat {
    if now <= from then 0 else Times(c.rpm, now - from)
  }

  function Times(a: nat, b: nat): nat { a * b }

  function Level(c: Limits, b: Bucket, now: int): nat {
    if b.level + Refill(c, b.at, now) > Cap(c) then Cap(c) else b.level + Refill(c, b.at, now)
  }

  function Full(c: Limits, now: int): Bucket { Bucket(Cap(c), now) }

  /** `Allow`: a refused request leaves the bucket as it was. */
  function Allow(c: Limits, b: Bucket, now: int): (Bucket, bool) {
    if Level(c, b, now) >= UNIT then (Bucket(Level(c, b, now) - UNIT, now), true) else (b, false)
  }

  /** How one request uses a bucket: it is let through exactly when the level, refilled since the
      bucket was last used and at most the burst, holds a whole token, and then takes that token. */
  predicate Spends(c: Limits, b: Bucket, b': Bucket, ok: bool, now: int) {
    var filled := b.level + if now > b.at then c.rpm * (now - b.at) else 0;
    var level := if filled > c.burst * 60_000_000_000 then c.burst * 60_000_000_000 else filled;
    && (ok <==> level >= 60_000_000_000)
    && b' == if ok then Bucket(level - 60_000_000_000, now) else b
  }

  datatype Entry = Entry(bucket: Bucket, last: int)

  type Entries = map<Client, Entry>

  function Sweep(m: Entries, now: int): Entries {
    if |m| > SWEEP_ABOVE then map k | k in m && m[k].last >= now - IDLE :: m[k] else m
  }

  /** The entry `getLimiter` hands out: swept, created when missing, and stamped. */
  function Touch(c: Limits, m: Entries, who: Client, now: int): Entries {
    var s := Sweep(m, now);
    s[who := Entry(if who in s then s[who].bucket else Full(c, now), now)]
  }

  function Serve(c: Limits, m: Entries, who: Client, now: int): (Entries, bool) {
    var t := Touch(c, m, who, now);
    var (b, ok) := Allow(c, t[who].bucket, now);
    (t[who := Entry(b, now)], ok)
  }

  class IPRateLimiter {
    const limits: Limits
    var byIP: Entries

    constructor (limits: Limits)
      ensures this.limits == limits && byIP == map[]
    {
      this.limits := limits;
      byIP := map[];
    }

    method GetLimiter(who: Client, now: int) returns (b: Bucket)
      modifies this`byIP
      ensures byIP == Touch(limits, old(byIP), who, now)
      ensures forall k :: k in byIP
                          <==> k == who
                               || (k in old(byIP) && (|old(byIP)| <= 2048
                                                      || old(byIP)[k].last >= now - 600_000_000_000))
      ensures forall k :: k in byIP && k != who ==> byIP[k] == old(byIP)[k]
      ensures who in byIP && b == byIP[who].bucket && byIP[who].last == now
      ensures b == if who in old(byIP) && (|old(byIP)| <= 2048 || old(byIP)[who].last >= now - 600_000_000_000)
                   then old(byIP)[who].bucket else Bucket(limits.burst * 60_000_000_000, now)
    {
      if |byIP| > SWEEP_ABOVE {
        var cutoff := now - IDLE;
        var left := byIP.Keys;
        while left != {}
          invariant left <= old(byIP).Keys
          invariant byIP == map k | k in old(byIP) && (k in left || old(byIP)[k].last >= cutoff) :: old(byIP)[k]
          decreases |left|
        {
          var k :| k in left;
          if byIP[k].last < cutoff {
            byIP := byIP - {k};
          }
          left := left - {k};
        }
      }
      if who !in byIP {
        byIP := byIP[who := Entry(Full(limits, now), now)];
      }
      byIP := byIP[who := byIP[who].(last := now)];
      b := byIP[who].bucket;
    }

    /** The decision of the middleware, with the bucket asked at the instant it was looked up. */
    method Admit(who: Client, now: int) returns (ok: bool)
      modifies this`byIP
      ensures (byIP, ok) == Serve(limits, old(byIP), who, now)
      ensures who in old(byIP) && (|old(byIP)| <= 2048 || old(byIP)[who].last >= now - 600_000_000_000)
              ==> who in byIP && Spends(limits, old(byIP)[who].bucket, byIP[who].bucket, ok, now)
      ensures !(who in old(byIP) && (|old(byIP)| <= 2048 || old(byIP)[who].last >= now - 600_000_000_000))
              ==> who in byIP
                  && Spends(limits, Bucket(limits.burst * 60_000_000_000, now), byIP[who].bucket, ok, now)
    {
      var b := GetLimiter(who, now);
      var (b', allowed) := Allow(limits, b, now);
      byIP := byIP[who := byIP[who].(bucket := b')];
      ok := allowed;
    }
  }

  // ---- The limiter that never evicts ----

  type Buckets = map<Client, Bucket>

  function Current(c: Limits, p: Buckets, who: Client, now: int): Bucket {
    if who in p then p[who] else Full(c, now)
  }

  function ServePlain(c: Limits, p: Buckets, who: Client, now: int): (Buckets, bool) {
    var (b, ok) := Allow(c, Current(c, p, who, now), now);
    (p[who := b], ok)
  }

  datatype Request = Request(who: Client, at: int)

  function Run(c: Limits, trace: seq<Request>): (r: (Entries, seq<bool>))
    ensures |r.1| == |trace|
  {
    if trace == [] then (map[], [])
    else
      var (m, ds) := Run(c, trace[..|trace| - 1]);
      var r := trace[|trace| - 1];
      var (m', d) := Serve(c, m, r.who, r.at);
      (m', ds + [d])
  }

  function RunPlain(c: Limits, trace: seq<Request>): (r: (Buckets, seq<bool>))
    ensures |r.1| == |trace|
  {
    if trace == [] then (map[], [])
    else
      var (p, ds) := RunPlain(c, trace[..|trace| - 1]);
      var r := trace[|trace| - 1];
      var (p', d) := ServePlain(c, p, r.who, r.at);
      (p', ds + [d])
  }

  ghost predicate Ordered(trace: seq<Request>) {
    forall i, j :: 0 <= i < j < |trace| ==> trace[i].at <= trace[j].at
  }

  /** An empty bucket is full again once its entry may be evicted. */
  predicate RefillsWhileIdle(c: Limits) {
    c.burst * UNIT <= c.rpm * (IDLE + 1)
  }

  lemma TimesMonotone(a: nat, b: nat, d: nat)
    requires b <= d
    ensures Times(a, b) <= Times(a, d)
  {
  }

  /** Present entries hold the plain bucket; missing ones stand for a full bucket. */
  ghost predicate Agree(c: Limits, m: Entries, p: Buckets, now: int) {
    && (forall k :: k in m ==> k in p && p[k] == m[k].bucket && m[k].bucket.at <= m[k].last <= now)
    && (forall k :: k in p && k !in m ==> Level(c, p[k], now) == Cap(c))
  }

  lemma AgreeLater(c: Limits, m: Entries, p: Buckets, now: int, later: int)
    requires Agree(c, m, p, now) && now <= later
    ensures Agree(c, m, p, later)
  {
    forall k | k in p && k !in m ensures Level(c, p[k], later) == Cap(c) {
      if p[k].at < now {
        TimesMonotone(c.rpm, now - p[k].at, later - p[k].at);
      }
    }
  }

  lemma SweepAgrees(c: Limits, m: Entries, p: Buckets, now: int)
    requires RefillsWhileIdle(c) && Agree(c, m, p, now)
    ensures Agree(c, Sweep(m, now), p, now)
  {
    forall k | k in p && k !in Sweep(m, now) ensures Level(c, p[k], now) == Cap(c) {
      if k in m {
        assert p[k].at < now - IDLE;
        TimesMonotone(c.rpm, IDLE + 1, now - p[k].at);
      }
    }
  }

  lemma ServeAgrees(c: Limits, m: Entries, p: Buckets, who: Client, now: int)
    requires RefillsWhileIdle(c) && c.burst >= 1 && Agree(c, m, p, now)
    ensures Serve(c, m, who, now).1 == ServePlain(c, p, who, now).1
    ensures Agree(c, Serve(c, m, who, now).0, ServePlain(c, p, who, now).0, now)
  {
    SweepAgrees(c, m, p, now);
  }

  lemma {:induction false} RunsAgree(c: Limits, trace: seq<Request>)
    requires RefillsWhileIdle(c) && c.burst >= 1 && Ordered(trace)
    ensures Run(c, trace).1 == RunPlain(c, trace).1
    ensures trace != [] ==> Agree(c, Run(c, trace).0, RunPlain(c, trace).0, trace[|trace| - 1].at)
  {
    if trace != [] {
      var prefix, now := trace[..|trace| - 1], trace[|trace| - 1].at;
      RunsAgree(c, prefix);
      var m, p := Run(c, prefix).0, RunPlain(c, prefix).0;
      if prefix == [] {
        assert Agree(c, m, p, now);
      } else {
        AgreeLater(c, m, p, prefix[|prefix| - 1].at, now);
      }
      ServeAgrees(c, m, p, trace[|trace| - 1].who, now);
    }
  }

  /** Every limiter the application builds (burst left to the default) decides every request
      exactly as one that never evicts. */
  lemma DefaultEvictionInvisible(rpm: int, trace: seq<Request>)
    requires rpm > 0 && Ordered(trace)
    ensures Run(NewLimits(rpm, 0).value, trace).1 == RunPlain(NewLimits(rpm, 0).value, trace).1
  {
    RunsAgree(NewLimits(rpm, 0).value, trace);
  }

  // ---- The window bound ----

  function Admitted(trace: seq<Request>, ds: seq<bool>, who: Client, i: nat, j: nat): nat
    requires i <= j <= |trace| == |ds|
    decreases j
  {
    if i == j then 0
    else Admitted(trace, ds, who, i, j - 1) + if trace[j - 1].who == who && ds[j - 1] then 1 else 0
  }

  lemma RunPlainPrefix(c: Limits, trace: seq<Request>, j: nat)
    requires j < |trace|
    ensures RunPlain(c, trace[..j + 1]).0 == ServePlain(c, RunPlain(c, trace[..j]).0, trace[j].who, trace[j].at).0
    ensures RunPlain(c, trace).1[j] == ServePlain(c, RunPlain(c, trace[..j]).0, trace[j].who, trace[j].at).1
    decreases |trace|
  {
    assert trace[..j + 1][..j] == trace[..j];
    if j + 1 < |trace| {
      var shorter := trace[..|trace| - 1];
      assert shorter[..j] == trace[..j] && shorter[..j + 1] == trace[..j + 1];
      RunPlainPrefix(c, shorter, j);
    } else {
      assert trace[..j + 1] == trace;
    }
  }

  /** What the client's bucket holds at `now`; a client without a bucket has a full one. */
  function Holds(c: Limits, p: Buckets, who: Client, now: int): nat {
    Level(c, Current(c, p, who, now), now)
  }

  lemma TimesDistributes(a: nat, b: nat, d: nat)
    ensures Times(a, b) + Times(a, d) == Times(a, b + d)
  {
  }

  lemma HoldsGrows(c: Limits, p: Buckets, who: Client, now: int, later: int)
    requires now <= later
    ensures Holds(c, p, who, later) <= Holds(c, p, who, now) + Times(c.rpm, later - now)
  {
    if who in p {
      if p[who].at <= now {
        TimesDistributes(c.rpm, now - p[who].at, later - now);
      } else if p[who].at < later {
        TimesMonotone(c.rpm, later - p[who].at, later - now);
      }
    }
  }

  lemma ServeHolds(c: Limits, p: Buckets, who: Client, r: Request)
    ensures var (p', ok) := ServePlain(c, p, r.who, r.at);
            Holds(c, p', who, r.at) + (if ok && r.who == who then UNIT else 0) == Holds(c, p, who, r.at)
  {
  }

  /** One more request of a window: the bucket refills, then pays for the request if it is admitted. */
  lemma BudgetStep(c: Limits, p: Buckets, who: Client, r: Request, admitted: nat, from: int, last: int)
    requires from <= last <= r.at
    requires admitted * UNIT + Holds(c, p, who, last) <= Cap(c) + Times(c.rpm, last - from)
    ensures var (p', ok) := ServePlain(c, p, r.who, r.at);
            (admitted + if r.who == who && ok then 1 else 0) * UNIT + Holds(c, p', who, r.at)
            <= Cap(c) + Times(c.rpm, r.at - from)
  {
    HoldsGrows(c, p, who, last, r.at);
    TimesDistributes(c.rpm, last - from, r.at - last);
    ServeHolds(c, p, who, r);
  }

  /** Tokens spent in a window come out of one full bucket plus the refill of the window. */
  lemma {:induction false} WindowBudget(c: Limits, trace: seq<Request>, who: Client, i: nat, j: nat)
    requires i < j <= |trace| && Ordered(trace)
    ensures Admitted(trace, RunPlain(c, trace).1, who, i, j) * UNIT
            + Holds(c, RunPlain(c, trace[..j]).0, who, trace[j - 1].at)
            <= Cap(c) + Times(c.rpm, trace[j - 1].at - trace[i].at)
    decreases j
  {
    var r := trace[j - 1];
    var p := RunPlain(c, trace[..j - 1]).0;
    RunPlainPrefix(c, trace, j - 1);
    if i < j - 1 {
      WindowBudget(c, trace, who, i, j - 1);
      BudgetStep(c, p, who, r, Admitted(trace, RunPlain(c, trace).1, who, i, j - 1), trace[i].at, trace[j - 2].at);
    } else {
      BudgetStep(c, p, who, r, 0, r.at, r.at);
    }
  }

  /** The client is admitted at most burst + rpm * t / 60 times by the requests i..j-1, t being
      the seconds from the first to the last of them. */
  ghost predicate WindowKept(c: Limits, trace: seq<Request>, who: Client, i: nat, j: nat)
    requires i < j <= |trace|
  {
    Admitted(trace, Run(c, trace).1, who, i, j) * UNIT <= c.burst * UNIT + c.rpm * (trace[j - 1].at - trace[i].at)
  }

  /** The bound in any window of an ordered trace, evictions included, for limits whose bucket
      refills within the idle time. */
  lemma WindowBound(c: Limits, trace: seq<Request>, who: Client, i: nat, j: nat)
    requires RefillsWhileIdle(c) && c.burst >= 1 && Ordered(trace) && i < j <= |trace|
    ensures WindowKept(c, trace, who, i, j)
  {
    RunsAgree(c, trace);
    WindowBudget(c, trace, who, i, j);
  }

  /** The bound for every limiter the application builds. */
  lemma DefaultWindowBound(rpm: int, trace: seq<Request>, who: Client, i: nat, j: nat)
    requires rpm > 0 && Ordered(trace) && i < j <= |trace|
    ensures WindowKept(NewLimits(rpm, 0).value, trace, who, i, j)
  {
    WindowBound(NewLimits(rpm, 0).value, trace, who, i, j);
  }
}
