/** The token bucket seen as a level that refills with time. Everything else (window bound, greedy
    optimality, invisible denials, the Redis script) is proved on levels. */
module TokenBucketProofs {
  import opened TokenBucket

  /** What the client may count on: a bucket that starts full and holds at least one request. */
  predicate Sound(cfg: Config) {
    0.0 < cfg.rate && 1.0 <= cfg.burst
  }

  /** A visitor idle for the whole eviction delay is full again. */
  predicate ForgetsOnlyFull(cfg: Config) {
    cfg.burst <= EVICT_AFTER * cfg.rate
  }

  /** Traces on which cleanup passes, if any, forget only full buckets. */
  predicate Harmless(cfg: Config, ops: seq<Op>) {
    ForgetsOnlyFull(cfg) || forall i :: 0 <= i < |ops| ==> ops[i].Request?
  }

  function Bit(b: bool): real {
    if b then 1.0 else 0.0
  }

  /** Tokens `key` would find at `now`. */
  function Level(cfg: Config, visitors: Visitors, key: string, now: real): real {
    if key in visitors then Refill(cfg, visitors[key], now) else cfg.burst
  }

  predicate BucketsOk(cfg: Config, visitors: Visitors, clock: real) {
    forall k :: k in visitors ==>
      0.0 <= visitors[k].tokens <= cfg.burst && visitors[k].lastSeen <= clock
  }

  function Clock(ops: seq<Op>): real {
    if ops == [] then 0.0 else ops[|ops| - 1].at
  }

  // ---------------------------------------------------------------- levels

  /** Tokens a bucket earns in `dt`, before the cap. Proofs name each amount they use, so that what
      is left of them is linear. */
  function Earned(cfg: Config, dt: real): real {
    dt * cfg.rate
  }

  lemma EarnedMonotone(cfg: Config, a: real, b: real)
    requires a <= b && 0.0 < cfg.rate
    ensures Earned(cfg, a) <= Earned(cfg, b)
  {
    assert 0.0 <= (b - a) * cfg.rate;
  }

  lemma EarnedNonNegative(cfg: Config, a: real)
    requires 0.0 <= a && 0.0 < cfg.rate
    ensures 0.0 <= Earned(cfg, a)
  {
  }

  lemma EarnedAdds(cfg: Config, a: real, b: real)
    ensures Earned(cfg, a + b) == Earned(cfg, a) + Earned(cfg, b)
  {
  }

  /** Refill, with what was earned named. */
  lemma RefillEarns(cfg: Config, v: Visitor, now: real, e: real)
    requires e == Earned(cfg, now - v.lastSeen)
    ensures Refill(cfg, v, now) == Min(cfg.burst, v.tokens + e)
  {
  }

  /** Saturating refill composes over time. */
  lemma LevelComposes(cfg: Config, visitors: Visitors, key: string, a: real, x: real, e: real)
    requires 0.0 < cfg.rate && a <= x
    requires e == Earned(cfg, x - a)
    ensures 0.0 <= e
    ensures Level(cfg, visitors, key, x) == Min(cfg.burst, Level(cfg, visitors, key, a) + e)
  {
    EarnedNonNegative(cfg, x - a);
    if key in visitors {
      var l := visitors[key].lastSeen;
      var p, q := Earned(cfg, a - l), Earned(cfg, x - l);
      EarnedAdds(cfg, a - l, x - a);
      assert (a - l) + (x - a) == x - l;
      assert q == p + e;
      RefillEarns(cfg, visitors[key], a, p);
      RefillEarns(cfg, visitors[key], x, q);
    }
  }

  lemma LevelBounds(cfg: Config, visitors: Visitors, key: string, a: real)
    requires Sound(cfg) && BucketsOk(cfg, visitors, a)
    ensures 0.0 <= Level(cfg, visitors, key, a) <= cfg.burst
  {
    if key in visitors {
      var p := Earned(cfg, a - visitors[key].lastSeen);
      EarnedNonNegative(cfg, a - visitors[key].lastSeen);
      RefillEarns(cfg, visitors[key], a, p);
    }
  }

  /** A request is allowed exactly when the level is at least one, and takes one token if so. */
  lemma RequestLevel(cfg: Config, visitors: Visitors, key: string, a: real, k: string, x: real, e: real)
    requires Sound(cfg) && BucketsOk(cfg, visitors, a) && a <= x
    requires e == Earned(cfg, x - a)
    ensures var (after, ok) := Admit(cfg, visitors, key, a);
            var level := Level(cfg, visitors, key, a);
            && (ok <==> 1.0 <= level)
            && BucketsOk(cfg, after, a)
            && Level(cfg, after, k, x) ==
                 if k == key then Min(cfg.burst, level - Bit(ok) + e)
                 else Level(cfg, visitors, k, x)
  {
    LevelBounds(cfg, visitors, key, a);
    var level := Level(cfg, visitors, key, a);
    var (after, ok) := Admit(cfg, visitors, key, a);
    assert after[key] == Visitor(level - Bit(ok), a);
    RefillEarns(cfg, after[key], x, e);
  }

  /** Forgetting a visitor that was idle long enough changes no level. */
  lemma CleanupLevel(cfg: Config, visitors: Visitors, cutoff: real, a: real, k: string, x: real)
    requires Sound(cfg) && ForgetsOnlyFull(cfg) && BucketsOk(cfg, visitors, a)
    requires cutoff <= a - EVICT_AFTER && a <= x
    ensures BucketsOk(cfg, Evicted(visitors, cutoff), a)
    ensures Level(cfg, Evicted(visitors, cutoff), k, x) == Level(cfg, visitors, k, x)
  {
    if k in visitors && visitors[k].lastSeen < cutoff {
      var v := visitors[k];
      var p, q := Earned(cfg, EVICT_AFTER), Earned(cfg, x - v.lastSeen);
      EarnedMonotone(cfg, EVICT_AFTER, x - v.lastSeen);
      assert cfg.burst <= p;
      RefillEarns(cfg, v, x, q);
    }
  }

  // ---------------------------------------------------------------- traces

  lemma {:induction false} AfterOk(cfg: Config, ops: seq<Op>)
    requires Sound(cfg) && Timed(ops)
    ensures BucketsOk(cfg, After(cfg, ops), Clock(ops))
  {
    if ops != [] {
      var n := |ops| - 1;
      AfterOk(cfg, ops[..n]);
      var visitors := After(cfg, ops[..n]);
      assert Clock(ops[..n]) <= ops[n].at;
      assert BucketsOk(cfg, visitors, ops[n].at);
      match ops[n]
      case Request(key, at) => RequestLevel(cfg, visitors, key, at, key, at, Earned(cfg, 0.0));
      case Cleanup(cutoff, at) =>
    }
  }

  predicate Hits(op: Op, key: string) {
    op.Request? && op.key == key
  }

  /** How one operation, at time a, moves the level of `key` at any later time x. */
  lemma OpLevel(cfg: Config, before: Visitors, op: Op, key: string, x: real, e: real)
    requires Sound(cfg) && BucketsOk(cfg, before, op.at) && op.at <= x
    requires op.Cleanup? ==> ForgetsOnlyFull(cfg) && op.cutoff <= op.at - EVICT_AFTER
    requires e == Earned(cfg, x - op.at)
    ensures var (after, ok) := Step(cfg, before, op);
            var level := Level(cfg, before, key, op.at);
            && BucketsOk(cfg, after, op.at)
            && 0.0 <= e && 0.0 <= level <= cfg.burst
            && (Hits(op, key) ==> (ok <==> 1.0 <= level))
            && Level(cfg, after, key, x) == Min(cfg.burst, level - Bit(Hits(op, key) && ok) + e)
  {
    LevelBounds(cfg, before, key, op.at);
    LevelComposes(cfg, before, key, op.at, x, e);
    match op
    case Request(k, a) => RequestLevel(cfg, before, k, a, key, x, e);
    case Cleanup(cutoff, a) => CleanupLevel(cfg, before, cutoff, a, key, x);
  }

  /** Whatever the burst and the cleanup passes, no level ends lower than its bucket accounts for:
      forgetting only ever raises one. */
  lemma OpLevelAtLeast(cfg: Config, before: Visitors, op: Op, key: string, x: real, e: real)
    requires 0.0 < cfg.rate && op.at <= x && e == Earned(cfg, x - op.at)
    ensures var (after, ok) := Step(cfg, before, op);
            var level := Level(cfg, before, key, op.at);
            && 0.0 <= e && level <= cfg.burst
            && (Hits(op, key) && 1.0 <= level ==> ok)
            && Min(cfg.burst, level - Bit(Hits(op, key) && ok) + e) <= Level(cfg, after, key, x)
  {
    LevelComposes(cfg, before, key, op.at, x, e);
    if Hits(op, key) {
      var level := Level(cfg, before, key, op.at);
      var (after, ok) := Admit(cfg, before, key, op.at);
      assert after[key] == Visitor(level - Bit(ok), op.at);
      RefillEarns(cfg, after[key], x, e);
    }
  }

  /** The level `key` had when the last operation of a trace came. */
  function LastLevel(cfg: Config, ops: seq<Op>, key: string): real
    requires ops != []
  {
    Level(cfg, After(cfg, ops[..|ops| - 1]), key, Clock(ops))
  }

  function LastDecision(cfg: Config, ops: seq<Op>): bool
    requires ops != []
  {
    Step(cfg, After(cfg, ops[..|ops| - 1]), ops[|ops| - 1]).1
  }

  lemma DecisionsStep(cfg: Config, ops: seq<Op>)
    requires ops != []
    ensures Decisions(cfg, ops) == Decisions(cfg, ops[..|ops| - 1]) + [LastDecision(cfg, ops)]
  {
  }

  /** The last operation of a trace, seen on levels. */
  lemma StepLevel(cfg: Config, ops: seq<Op>, key: string, x: real, e: real)
    requires Sound(cfg) && Harmless(cfg, ops) && Timed(ops) && ops != []
    requires Clock(ops) <= x && e == Earned(cfg, x - Clock(ops))
    ensures var n := |ops| - 1;
            var level := LastLevel(cfg, ops, key);
            && Timed(ops[..n]) && Harmless(cfg, ops[..n]) && Clock(ops[..n]) <= Clock(ops)
            && BucketsOk(cfg, After(cfg, ops[..n]), Clock(ops))
            && 0.0 <= e && 0.0 <= level <= cfg.burst
            && (Hits(ops[n], key) ==> (LastDecision(cfg, ops) <==> 1.0 <= level))
            && Level(cfg, After(cfg, ops), key, x) ==
                 Min(cfg.burst, level - Bit(Hits(ops[n], key) && LastDecision(cfg, ops)) + e)
  {
    var n := |ops| - 1;
    AfterOk(cfg, ops[..n]);
    OpLevel(cfg, After(cfg, ops[..n]), ops[n], key, x, e);
  }

  /** The last operation of a trace, for any burst and any cleanup passes. */
  lemma StepLevelAtLeast(cfg: Config, ops: seq<Op>, key: string, x: real, e: real)
    requires 0.0 < cfg.rate && Timed(ops) && ops != []
    requires Clock(ops) <= x && e == Earned(cfg, x - Clock(ops))
    ensures var n := |ops| - 1;
            var level := LastLevel(cfg, ops, key);
            && Timed(ops[..n]) && Clock(ops[..n]) <= Clock(ops)
            && 0.0 <= e && level <= cfg.burst
            && (Hits(ops[n], key) && 1.0 <= level ==> LastDecision(cfg, ops))
            && Min(cfg.burst, level - Bit(Hits(ops[n], key) && LastDecision(cfg, ops)) + e)
               <= Level(cfg, After(cfg, ops), key, x)
  {
    var n := |ops| - 1;
    OpLevelAtLeast(cfg, After(cfg, ops[..n]), ops[n], key, x, e);
  }

  // ---------------------------------------------------------------- the window bound

  function Allowed(cfg: Config, ops: seq<Op>, key: string, from: real, to: real): nat {
    Count(ops, Decisions(cfg, ops), key, from, to)
  }

  lemma AllowedStep(cfg: Config, ops: seq<Op>, key: string, from: real, to: real)
    requires ops != []
    ensures var n := |ops| - 1;
            Allowed(cfg, ops, key, from, to) == Allowed(cfg, ops[..n], key, from, to) +
              if Hits(ops[n], key) && from <= ops[n].at <= to && LastDecision(cfg, ops) then 1 else 0
  {
    DecisionsStep(cfg, ops);
    assert Decisions(cfg, ops)[..|ops| - 1] == Decisions(cfg, ops[..|ops| - 1]);
  }

  /** What was allowed since `from`, plus what is still in the bucket, was paid for. */
  lemma {:induction false} Budget(cfg: Config, ops: seq<Op>, key: string, from: real, to: real, x: real, paid: real)
    requires Sound(cfg) && Harmless(cfg, ops) && Timed(ops)
    requires from <= x <= to && Clock(ops) <= x && paid == Earned(cfg, x - from)
    ensures Allowed(cfg, ops, key, from, to) as real + Level(cfg, After(cfg, ops), key, x) <= cfg.burst + paid
  {
    EarnedNonNegative(cfg, x - from);
    if ops != [] {
      var n := |ops| - 1;
      var a := ops[n].at;
      var e := Earned(cfg, x - a);
      StepLevel(cfg, ops, key, x, e);
      AllowedStep(cfg, ops, key, from, to);
      if from <= a {
        var p := Earned(cfg, a - from);
        EarnedAdds(cfg, a - from, x - a);
        assert (a - from) + (x - a) == x - from;
        Budget(cfg, ops[..n], key, from, to, a, p);
      } else {
        Budget(cfg, ops[..n], key, from, to, x, paid);
        LevelComposes(cfg, After(cfg, ops[..n]), key, a, x, e);
      }
    }
  }

  lemma {:induction false} WindowBoundKept(cfg: Config, ops: seq<Op>, key: string, from: real, to: real, paid: real)
    requires Sound(cfg) && Harmless(cfg, ops) && Timed(ops) && from <= to && paid == Earned(cfg, to - from)
    ensures Allowed(cfg, ops, key, from, to) as real <= cfg.burst + paid
  {
    if Clock(ops) <= to {
      Budget(cfg, ops, key, from, to, to, paid);
      AfterOk(cfg, ops);
      assert BucketsOk(cfg, After(cfg, ops), to);
      LevelBounds(cfg, After(cfg, ops), key, to);
    } else if ops == [] {
      EarnedNonNegative(cfg, to - from);
    } else {
      AllowedStep(cfg, ops, key, from, to);
      assert Harmless(cfg, ops[..|ops| - 1]);
      WindowBoundKept(cfg, ops[..|ops| - 1], key, from, to, paid);
    }
  }
}
