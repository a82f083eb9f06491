/** The exact rule behind the decisions of the limiter: a request is let through if and only if
    every window that ends with it has room for one more. */
module RateLimiterTight {
  import opened RateLimiter
  import opened RateLimiterExact

  /** The window from request `i` to request `k` has room for one more admission of `who`: with it,
      the admissions are worth no more than one burst and the refill of the window. */
  ghost predicate Room(c: Limits, trace: seq<Request>, ds: seq<bool>, who: Client, i: nat, k: nat)
    requires i <= k < |trace| == |ds|
  {
    (Admitted(trace, ds, who, i, k) + 1) * 60_000_000_000
    <= c.burst * 60_000_000_000 + c.rpm * (trace[k].at - trace[i].at)
  }

  /** Request `k` is let through exactly when there is room for it in every window that ends with it. */
  ghost predicate Decided(c: Limits, trace: seq<Request>, ds: seq<bool>, k: nat)
    requires k < |trace| == |ds|
  {
    ds[k] <==> forall i :: 0 <= i <= k ==> Room(c, trace, ds, trace[k].who, i, k)
  }

  ghost predicate Past(p: Buckets, now: int) {
    forall k :: k in p ==> p[k].at <= now
  }

  lemma {:induction false} BucketsPast(c: Limits, trace: seq<Request>, j: nat)
    requires j < |trace| && Ordered(trace)
    ensures Past(RunPlain(c, trace[..j + 1]).0, trace[j].at)
  {
    RunPlainPrefix(c, trace, j);
    if j > 0 {
      BucketsPast(c, trace, j - 1);
      assert trace[..j - 1 + 1] == trace[..j];
    }
  }

  /** Between two uses a bucket gains exactly its refill, up to the burst. */
  lemma HoldsExactly(c: Limits, p: Buckets, who: Client, now: int, later: int)
    requires now <= later && Past(p, now)
    ensures var grown := Holds(c, p, who, now) + Times(c.rpm, later - now);
            Holds(c, p, who, later) == if grown > Cap(c) then Cap(c) else grown
  {
    if who in p {
      TimesDistributes(c.rpm, now - p[who].at, later - now);
    }
  }

  /** What the bucket holds before request `k`, seen from the window that starts at request `i`. */
  ghost predicate Within(c: Limits, trace: seq<Request>, who: Client, i: nat, k: nat)
    requires i <= k < |trace| && Ordered(trace)
  {
    Admitted(trace, RunPlain(c, trace).1, who, i, k) * UNIT + Holds(c, RunPlain(c, trace[..k]).0, who, trace[k].at)
    <= Cap(c) + Times(c.rpm, trace[k].at - trace[i].at)
  }

  ghost predicate Tight(c: Limits, trace: seq<Request>, who: Client, i: nat, k: nat)
    requires i <= k < |trace| && Ordered(trace)
  {
    Admitted(trace, RunPlain(c, trace).1, who, i, k) * UNIT + Holds(c, RunPlain(c, trace[..k]).0, who, trace[k].at)
    == Cap(c) + Times(c.rpm, trace[k].at - trace[i].at)
  }

  lemma AllWithin(c: Limits, trace: seq<Request>, who: Client, i: nat, k: nat)
    requires i <= k < |trace| && Ordered(trace)
    ensures Within(c, trace, who, i, k)
  {
    if i < k {
      WindowBudget(c, trace, who, i, k);
      HoldsGrows(c, RunPlain(c, trace[..k]).0, who, trace[k - 1].at, trace[k].at);
      TimesDistributes(c.rpm, trace[k - 1].at - trace[i].at, trace[k].at - trace[k - 1].at);
    }
  }

  /** Some window is used up to what the bucket still holds. */
  lemma {:induction false} SomeTight(c: Limits, trace: seq<Request>, who: Client, k: nat) returns (i: nat)
    requires k < |trace| && Ordered(trace)
    ensures i <= k && Tight(c, trace, who, i, k)
  {
    i := k;
    if k == 0 {
      assert trace[..0] == [];
    } else if Holds(c, RunPlain(c, trace[..k]).0, who, trace[k].at) != Cap(c) {
      i := SomeTight(c, trace, who, k - 1);
      TightStep(c, trace, who, i, k);
    }
  }

  /** A bucket that is not full again has used up its window to the last unit. */
  lemma TightUse(c: Limits, p: Buckets, who: Client, r: Request, admitted: nat, from: int, later: int)
    requires from <= r.at <= later && Past(ServePlain(c, p, r.who, r.at).0, r.at)
    requires admitted * UNIT + Holds(c, p, who, r.at) == Cap(c) + Times(c.rpm, r.at - from)
    requires Holds(c, ServePlain(c, p, r.who, r.at).0, who, later) != Cap(c)
    ensures var (p', ok) := ServePlain(c, p, r.who, r.at);
            (admitted + if r.who == who && ok then 1 else 0) * UNIT + Holds(c, p', who, later)
            == Cap(c) + Times(c.rpm, later - from)
  {
    HoldsExactly(c, ServePlain(c, p, r.who, r.at).0, who, r.at, later);
    ServeHolds(c, p, who, r);
    TimesDistributes(c.rpm, r.at - from, later - r.at);
  }

  /** One more request of a window of the limiter that never evicts. */
  lemma UseFacts(c: Limits, trace: seq<Request>, who: Client, i: nat, k: nat)
    requires i <= k && k + 1 < |trace| && Ordered(trace)
    ensures var (p', ok) := ServePlain(c, RunPlain(c, trace[..k]).0, trace[k].who, trace[k].at);
            && RunPlain(c, trace[..k + 1]).0 == p' && Past(p', trace[k].at)
            && Admitted(trace, RunPlain(c, trace).1, who, i, k + 1)
               == Admitted(trace, RunPlain(c, trace).1, who, i, k) + if trace[k].who == who && ok then 1 else 0
  {
    RunPlainPrefix(c, trace, k);
    BucketsPast(c, trace, k);
  }

  lemma TightStep(c: Limits, trace: seq<Request>, who: Client, i: nat, k: nat)
    requires i < k < |trace| && Ordered(trace) && Tight(c, trace, who, i, k - 1)
    requires Holds(c, RunPlain(c, trace[..k]).0, who, trace[k].at) != Cap(c)
    ensures Tight(c, trace, who, i, k)
  {
    var r, p := trace[k - 1], RunPlain(c, trace[..k - 1]).0;
    UseFacts(c, trace, who, i, k - 1);
    TightUse(c, p, who, r, Admitted(trace, RunPlain(c, trace).1, who, i, k - 1), trace[i].at, trace[k].at);
  }

  /** The limiter that never evicts decides every request by the rule. */
  lemma PlainDecided(c: Limits, trace: seq<Request>, k: nat)
    requires Ordered(trace) && k < |trace|
    ensures Decided(c, trace, RunPlain(c, trace).1, k)
  {
    var who, ds := trace[k].who, RunPlain(c, trace).1;
    var level := Holds(c, RunPlain(c, trace[..k]).0, who, trace[k].at);
    RunPlainPrefix(c, trace, k);
    assert ds[k] <==> level >= UNIT;
    if ds[k] {
      forall i | 0 <= i <= k ensures Room(c, trace, ds, who, i, k) {
        AllWithin(c, trace, who, i, k);
      }
    } else {
      var i := SomeTight(c, trace, who, k);
      assert !Room(c, trace, ds, who, i, k);
    }
  }

  /** Every request of every ordered trace is decided by the rule. */
  ghost predicate AlwaysDecided(c: Limits) {
    forall trace, k :: Ordered(trace) && 0 <= k < |trace| ==> Decided(c, trace, Run(c, trace).1, k)
  }

  lemma KeptByRoom(c: Limits, trace: seq<Request>, who: Client, i: nat, k: nat)
    requires i <= k < |trace| && trace[k].who == who && Room(c, trace, Run(c, trace).1, who, i, k)
    ensures WindowKept(c, trace, who, i, k + 1)
  {
  }

  lemma LongerRefill(c: Limits, from: int, last: int, now: int)
    requires from <= last <= now
    ensures c.rpm * (last - from) <= c.rpm * (now - from)
  {
    TimesMonotone(c.rpm, last - from, now - from);
  }

  lemma KeptByRefusal(c: Limits, trace: seq<Request>, who: Client, i: nat, k: nat)
    requires i <= k < |trace| && Ordered(trace) && !(trace[k].who == who && Run(c, trace).1[k])
    requires i < k ==> WindowKept(c, trace, who, i, k)
    ensures WindowKept(c, trace, who, i, k + 1)
  {
    var ds := Run(c, trace).1;
    assert Admitted(trace, ds, who, i, k + 1) == Admitted(trace, ds, who, i, k);
    if i < k {
      LongerRefill(c, trace[i].at, trace[k - 1].at, trace[k].at);
    }
  }

  /** Decisions by the rule keep the bound in every window. */
  lemma {:induction false} DecidedKeeps(c: Limits, trace: seq<Request>, who: Client, i: nat, j: nat)
    requires i < j <= |trace| && Ordered(trace)
    requires forall k :: 0 <= k < |trace| ==> Decided(c, trace, Run(c, trace).1, k)
    ensures WindowKept(c, trace, who, i, j)
    decreases j
  {
    var k, ds := j - 1, Run(c, trace).1;
    if trace[k].who == who && ds[k] {
      assert Decided(c, trace, ds, k);
      KeptByRoom(c, trace, who, i, k);
    } else {
      if i < k {
        DecidedKeeps(c, trace, who, i, k);
      }
      KeptByRefusal(c, trace, who, i, k);
    }
  }

  /** The limiter decides by the rule, whatever the order of clients and whenever it evicts, if and
      only if an empty bucket refills within the idle time. */
  lemma DecidedIff(c: Limits)
    requires c.burst >= 1
    ensures AlwaysDecided(c) <==> RefillsWhileIdle(c)
  {
    if RefillsWhileIdle(c) {
      forall trace, k | Ordered(trace) && 0 <= k < |trace| ensures Decided(c, trace, Run(c, trace).1, k) {
        RunsAgree(c, trace);
        PlainDecided(c, trace, k);
      }
    }
    if AlwaysDecided(c) {
      WindowBoundIff(c);
      forall trace, who, i, j | Ordered(trace) && 0 <= i < j <= |trace| ensures WindowKept(c, trace, who, i, j) {
        DecidedKeeps(c, trace, who, i, j);
      }
    }
  }
}
