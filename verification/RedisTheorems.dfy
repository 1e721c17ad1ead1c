/** What is promised of the Redis limiter: that its script is the same bucket as the in-memory one
    even though the server forgets idle keys, and the window bound of the shared bucket. */
module RedisTheorems {
  import opened TokenBucket
  import opened TokenBucketProofs
  import opened TokenBucketTheorems

  // ---------------------------------------------------------------- the Redis script

  lemma CeilAbove(x: real)
    ensures x <= Ceil(x) as real < x + 1.0
  {
  }

  /** A key that lives for ttl milliseconds can only expire once its bucket is full. */
  predicate Outlasts(cfg: Config, ttl: int) {
    cfg.burst <= Earned(cfg, ttl as real / 1000.0)
  }

  /** The time to live the limiter computes is long enough, for every rate and every burst of at
      least one request. */
  lemma TtlOutlasts(cfg: Config)
    requires Sound(cfg)
    ensures Outlasts(cfg, Ttl(cfg))
  {
    var q := cfg.burst / cfg.rate;
    assert q * cfg.rate == cfg.burst;
    CeilAbove(q * 2.0 * 1000.0);
    assert 0.0 <= q;
    EarnedMonotone(cfg, q, Ttl(cfg) as real / 1000.0);
  }

  predicate SameBucket(ttl: int, h: Hash, v: Visitor) {
    h.tokens == v.tokens && v.lastSeen == h.ts as real / 1000.0 && h.expireAt == h.ts + ttl
  }

  /** The store and the visitors hold the same buckets. */
  ghost predicate SameBuckets(ttl: int, store: Store, visitors: Visitors) {
    && store.Keys == visitors.Keys
    && forall k :: k in store ==> SameBucket(ttl, store[k], visitors[k])
  }

  lemma SameRefill(cfg: Config, ttl: int, h: Hash, v: Visitor, now: nat)
    requires SameBucket(ttl, h, v) && h.ts <= now
    ensures Refilled(cfg, h, now) == Refill(cfg, v, now as real / 1000.0)
  {
    var idle := MillisBetween(h.ts, now) as real / 1000.0;
    assert now as real / 1000.0 - v.lastSeen == idle;
    var p := Earned(cfg, idle);
    assert Refill(cfg, v, now as real / 1000.0) == Min(cfg.burst, v.tokens + p);
    assert Refilled(cfg, h, now) == Min(cfg.burst, h.tokens + p);
  }

  lemma ExpiredIsFull(cfg: Config, ttl: int, h: Hash, now: nat)
    requires Sound(cfg) && Outlasts(cfg, ttl) && 0.0 <= h.tokens
    requires h.ts <= now && h.expireAt == h.ts + ttl && h.expireAt <= now
    ensures Refilled(cfg, h, now) == cfg.burst
  {
    EarnedMonotone(cfg, ttl as real / 1000.0, (now - h.ts) as real / 1000.0);
    var p := Earned(cfg, (now - h.ts) as real / 1000.0);
    assert Refilled(cfg, h, now) == Min(cfg.burst, h.tokens + p);
  }

  /** The same call on the in-memory limiter. */
  function Admitted(cfg: Config, visitors: Visitors, e: Eval): (Visitors, bool) {
    Admit(cfg, visitors, e.key, e.now as real / 1000.0)
  }

  lemma ScriptIsAdmit(cfg: Config, ttl: int, store: Store, visitors: Visitors, e: Eval)
    requires Sound(cfg) && Outlasts(cfg, ttl) && SameBuckets(ttl, store, visitors)
    requires BucketsOk(cfg, visitors, e.now as real / 1000.0)
    ensures RunScript(cfg, ttl, store, e).1 == Admitted(cfg, visitors, e).1
    ensures SameBuckets(ttl, RunScript(cfg, ttl, store, e).0, Admitted(cfg, visitors, e).0)
  {
    if e.key in store {
      var h, v := store[e.key], visitors[e.key];
      assert SameBucket(ttl, h, v);
      assert h.ts <= e.now;
      SameRefill(cfg, ttl, h, v, e.now);
      if !Live(store, e) {
        ExpiredIsFull(cfg, ttl, h, e.now);
      }
    }
  }

  lemma {:induction false} InMemoryTimed(evals: seq<Eval>)
    requires Monotone(evals)
    ensures Timed(InMemory(evals))
  {
  }

  lemma ClockOk(cfg: Config, evals: seq<Eval>)
    requires Sound(cfg) && Monotone(evals) && evals != []
    requires Timed(InMemory(evals[..|evals| - 1]))
    ensures var n := |evals| - 1;
            BucketsOk(cfg, After(cfg, InMemory(evals[..n])), evals[n].now as real / 1000.0)
  {
    var ops := InMemory(evals[..|evals| - 1]);
    AfterOk(cfg, ops);
    assert Clock(ops) <= evals[|evals| - 1].now as real / 1000.0;
  }

  lemma InMemorySnoc(evals: seq<Eval>)
    requires evals != []
    ensures InMemory(evals)[..|evals| - 1] == InMemory(evals[..|evals| - 1])
  {
  }

  /** The last call of a trace finds the same bucket on either side. */
  lemma LastCall(cfg: Config, ttl: int, evals: seq<Eval>, store: Store, visitors: Visitors)
    requires Sound(cfg) && Outlasts(cfg, ttl) && Monotone(evals) && evals != []
    requires store == StoreAfter(cfg, ttl, evals[..|evals| - 1])
    requires visitors == After(cfg, InMemory(evals[..|evals| - 1]))
    requires Timed(InMemory(evals[..|evals| - 1])) && SameBuckets(ttl, store, visitors)
    ensures RunScript(cfg, ttl, store, evals[|evals| - 1]).1 == Admitted(cfg, visitors, evals[|evals| - 1]).1
    ensures SameBuckets(ttl, RunScript(cfg, ttl, store, evals[|evals| - 1]).0,
                        Admitted(cfg, visitors, evals[|evals| - 1]).0)
  {
    ClockOk(cfg, evals);
    ScriptIsAdmit(cfg, ttl, store, visitors, evals[|evals| - 1]);
  }

  lemma OneMoreStep(cfg: Config, visitors: Visitors, e: Eval)
    ensures Step(cfg, visitors, Request(e.key, e.now as real / 1000.0)) == Admitted(cfg, visitors, e)
  {
  }

  lemma OneMoreCall(cfg: Config, evals: seq<Eval>)
    requires evals != []
    ensures After(cfg, InMemory(evals)) ==
            Admitted(cfg, After(cfg, InMemory(evals[..|evals| - 1])), evals[|evals| - 1]).0
  {
    var n := |evals| - 1;
    InMemorySnoc(evals);
    OneMoreStep(cfg, After(cfg, InMemory(evals[..n])), evals[n]);
  }

  lemma SameBucketsStep(cfg: Config, ttl: int, evals: seq<Eval>, store: Store, visitors: Visitors)
    requires Sound(cfg) && Outlasts(cfg, ttl) && Monotone(evals) && evals != []
    requires store == StoreAfter(cfg, ttl, evals[..|evals| - 1])
    requires visitors == After(cfg, InMemory(evals[..|evals| - 1]))
    requires SameBuckets(ttl, store, visitors)
    ensures SameBuckets(ttl, StoreAfter(cfg, ttl, evals), After(cfg, InMemory(evals)))
  {
    InMemoryTimed(evals[..|evals| - 1]);
    LastCall(cfg, ttl, evals, store, visitors);
    OneMoreCall(cfg, evals);
  }

  lemma {:induction false} SameBucketsKept(cfg: Config, ttl: int, evals: seq<Eval>)
    requires Sound(cfg) && Outlasts(cfg, ttl) && Monotone(evals)
    ensures SameBuckets(ttl, StoreAfter(cfg, ttl, evals), After(cfg, InMemory(evals)))
  {
    if evals != [] {
      var n := |evals| - 1;
      SameBucketsKept(cfg, ttl, evals[..n]);
      SameBucketsStep(cfg, ttl, evals, StoreAfter(cfg, ttl, evals[..n]), After(cfg, InMemory(evals[..n])));
    }
  }

  lemma LastAdmitted(cfg: Config, evals: seq<Eval>)
    requires evals != []
    ensures LastDecision(cfg, InMemory(evals))
            == Admitted(cfg, After(cfg, InMemory(evals[..|evals| - 1])), evals[|evals| - 1]).1
  {
    InMemorySnoc(evals);
  }

  lemma LastVerdict(cfg: Config, ttl: int, evals: seq<Eval>)
    requires Sound(cfg) && Outlasts(cfg, ttl) && Monotone(evals) && evals != []
    ensures RunScript(cfg, ttl, StoreAfter(cfg, ttl, evals[..|evals| - 1]), evals[|evals| - 1]).1
            == LastDecision(cfg, InMemory(evals))
  {
    var n := |evals| - 1;
    InMemoryTimed(evals[..n]);
    SameBucketsKept(cfg, ttl, evals[..n]);
    LastCall(cfg, ttl, evals, StoreAfter(cfg, ttl, evals[..n]), After(cfg, InMemory(evals[..n])));
    LastAdmitted(cfg, evals);
  }

  /** The Redis script refines the in-memory limiter: the same decisions for every sequence of
      calls on the same clock, whichever idle keys the server drops and however late. The calls may
      come from any number of replicas: they share the store. */
  lemma {:induction false} RedisRefinesInMemory(cfg: Config, ttl: int, evals: seq<Eval>)
    requires Sound(cfg) && Outlasts(cfg, ttl) && Monotone(evals)
    ensures Timed(InMemory(evals))
    ensures Verdicts(cfg, ttl, evals) == Decisions(cfg, InMemory(evals))
  {
    InMemoryTimed(evals);
    if evals != [] {
      RedisRefinesInMemory(cfg, ttl, evals[..|evals| - 1]);
      LastVerdict(cfg, ttl, evals);
      DecisionsStep(cfg, InMemory(evals));
      InMemorySnoc(evals);
    }
  }

  /** The window bound of the shared bucket, for every key and whatever expires. */
  lemma RedisWindowBound(cfg: Config, evals: seq<Eval>, key: string, from: real, to: real)
    requires Sound(cfg) && Monotone(evals) && from <= to
    ensures Verdicts(cfg, Ttl(cfg), evals) == Decisions(cfg, InMemory(evals))
    ensures Count(InMemory(evals), Verdicts(cfg, Ttl(cfg), evals), key, from, to) as real
            <= cfg.burst + (to - from) * cfg.rate
  {
    TtlOutlasts(cfg);
    RedisRefinesInMemory(cfg, Ttl(cfg), evals);
    WindowBound(cfg, InMemory(evals), key, from, to);
  }

  ghost predicate RedisBounded(cfg: Config, evals: seq<Eval>, key: string, from: real, to: real)
    requires cfg.rate != 0.0
  {
    Monotone(evals) && from <= to ==>
      Count(InMemory(evals), Verdicts(cfg, Ttl(cfg), evals), key, from, to) as real
      <= cfg.burst + (to - from) * cfg.rate
  }

  lemma OneEval(cfg: Config, ttl: int)
    ensures var evals := [Eval(KEY, 0, false)];
            && Verdicts(cfg, ttl, evals) == [true]
            && Count(InMemory(evals), [true], KEY, 0.0, 0.0) == 1
  {
    var evals := [Eval(KEY, 0, false)];
    assert evals[..0] == [];
    assert InMemory(evals) == [Request(KEY, 0.0)];
  }

  /** It holds of every run if and only if the burst is at least one request. */
  lemma RedisWindowBoundExactly(cfg: Config)
    requires 0.0 < cfg.rate
    ensures (forall evals, key, from, to :: RedisBounded(cfg, evals, key, from, to)) <==> 1.0 <= cfg.burst
  {
    if 1.0 <= cfg.burst {
      forall evals, key, from, to
        ensures RedisBounded(cfg, evals, key, from, to)
      {
        if Monotone(evals) && from <= to {
          RedisWindowBound(cfg, evals, key, from, to);
        }
      }
    } else {
      OneEval(cfg, Ttl(cfg));
      assert !RedisBounded(cfg, [Eval(KEY, 0, false)], KEY, 0.0, 0.0);
    }
  }

  /** The decisions of both limiters are the same. */
  ghost predicate Agrees(cfg: Config, evals: seq<Eval>)
    requires cfg.rate != 0.0
  {
    Monotone(evals) ==> Verdicts(cfg, Ttl(cfg), evals) == Decisions(cfg, InMemory(evals))
  }

  lemma TwoEvals(cfg: Config, ttl: int, now: nat)
    requires cfg.burst < 1.0 && ttl <= now
    ensures Verdicts(cfg, ttl, [Eval(KEY, 0, false), Eval(KEY, now, true)]) == [true, true]
  {
    var two := [Eval(KEY, 0, false), Eval(KEY, now, true)];
    var one := [Eval(KEY, 0, false)];
    assert two[..1] == one && one[..0] == [];
    OneEval(cfg, ttl);
    assert StoreAfter(cfg, ttl, one) == map[KEY := Hash(cfg.burst - 1.0, 0, ttl)];
    assert !Live(StoreAfter(cfg, ttl, one), two[1]);
  }

  lemma InMemoryOfTwo(now: nat)
    ensures InMemory([Eval(KEY, 0, false), Eval(KEY, now, true)])
            == [Request(KEY, 0.0), Request(KEY, now as real / 1000.0)]
  {
    var ops := InMemory([Eval(KEY, 0, false), Eval(KEY, now, true)]);
    assert |ops| == 2 && ops[0] == Request(KEY, 0.0) && ops[1] == Request(KEY, now as real / 1000.0);
  }

  /** In memory the second of these calls is denied. */
  lemma TwoEvalsDiffer(cfg: Config, ttl: int, now: nat)
    requires cfg.burst < 1.0 && ttl <= now
    ensures var two := [Eval(KEY, 0, false), Eval(KEY, now, true)];
            Monotone(two) && Verdicts(cfg, ttl, two) != Decisions(cfg, InMemory(two))
  {
    TwoEvals(cfg, ttl, now);
    InMemoryOfTwo(now);
    SecondIsDenied(cfg, now as real / 1000.0);
    assert [true, true][1] != [true, false][1];
  }

  /** They are for every sequence of calls, under the time to live the limiter computes, if and only
      if the burst is at least one request; below that an expired key is let through again. */
  lemma RedisRefinesExactly(cfg: Config)
    requires 0.0 < cfg.rate
    ensures (forall evals :: Agrees(cfg, evals)) <==> 1.0 <= cfg.burst
  {
    if 1.0 <= cfg.burst {
      TtlOutlasts(cfg);
      forall evals
        ensures Agrees(cfg, evals)
      {
        if Monotone(evals) {
          RedisRefinesInMemory(cfg, Ttl(cfg), evals);
        }
      }
    } else {
      var now := if Ttl(cfg) < 0 then 0 else Ttl(cfg);
      TwoEvalsDiffer(cfg, Ttl(cfg), now);
      assert !Agrees(cfg, [Eval(KEY, 0, false), Eval(KEY, now, true)]);
    }
  }

  // ---------------------------------------------------------------- what the limits are

  /** The time to live is twice the time an empty bucket takes to fill, rounded up to a millisecond,
      and a second. */
  lemma TtlExactly(cfg: Config)
    requires cfg.rate != 0.0
    ensures var fill := cfg.burst / cfg.rate * 1000.0;
            2.0 * fill + 1000.0 <= Ttl(cfg) as real < 2.0 * fill + 1001.0
  {
    CeilAbove(cfg.burst / cfg.rate * 2.0 * 1000.0);
  }

  /** If Redis's clock goes back, a bucket earns nothing and loses nothing. */
  lemma ClockGoesBack(cfg: Config, ttl: int, store: Store, e: Eval)
    requires e.key in store && e.now <= store[e.key].ts && e.now < store[e.key].expireAt
    requires store[e.key].tokens <= cfg.burst
    ensures var h := store[e.key];
            var (after, ok) := RunScript(cfg, ttl, store, e);
            && (ok <==> 1.0 <= h.tokens)
            && after == store[e.key := Hash(if ok then h.tokens - 1.0 else h.tokens, e.now, e.now + ttl)]
  {
    var h := store[e.key];
    assert MillisBetween(h.ts, e.now) as real / 1000.0 * cfg.rate == 0.0;
    assert Refilled(cfg, h, e.now) == h.tokens;
  }
}
