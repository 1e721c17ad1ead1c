/** The two token buckets of the gateway: the in-process `RateLimiter` of middleware.go and the
    Redis script of redis_limiter.go. Times of the first are seconds, of the second milliseconds. */
module TokenBucket {
  import opened Options

  datatype Config = Config(rate: real, burst: real)

  function Min(a: real, b: real): real {
    if a <= b then a else b
  }

  // ---------------------------------------------------------------- in memory

  datatype Visitor = Visitor(tokens: real, lastSeen: real)

  type Visitors = map<string, Visitor>

  const EVICT_AFTER: real := 180.0

  /** A bucket that was seen before: refill, cap, then take a token if there is one. */
  function Refill(cfg: Config, v: Visitor, now: real): real {
    Min(cfg.burst, v.tokens + (now - v.lastSeen) * cfg.rate)
  }

  function Admit(cfg: Config, visitors: Visitors, key: string, now: real): (Visitors, bool) {
    if key !in visitors then (visitors[key := Visitor(cfg.burst - 1.0, now)], true)
    else
      var tokens := Refill(cfg, visitors[key], now);
      if tokens < 1.0 then (visitors[key := Visitor(tokens, now)], false)
      else (visitors[key := Visitor(tokens - 1.0, now)], true)
  }

  function Evicted(visitors: Visitors, cutoff: real): Visitors {
    map k | k in visitors && cutoff <= visitors[k].lastSeen :: visitors[k]
  }

  class RateLimiter {
    var visitors: Visitors
    const cfg: Config

    constructor (rps: real, burst: real)
      ensures visitors == map[] && cfg == Config(rps, burst)
    {
      visitors := map[];
      cfg := Config(rps, burst);
    }

    method Allow(key: string, now: real) returns (ok: bool)
      modifies this
      ensures (visitors, ok) == Admit(cfg, old(visitors), key, now)
    {
      if key !in visitors {
        visitors := visitors[key := Visitor(cfg.burst - 1.0, now)];
        return true;
      }
      var v := visitors[key];
      var elapsed := now - v.lastSeen;
      v := v.(tokens := v.tokens + elapsed * cfg.rate);
      if v.tokens > cfg.burst {
        v := v.(tokens := cfg.burst);
      }
      v := v.(lastSeen := now);
      assert v == Visitor(Refill(cfg, visitors[key], now), now);
      if v.tokens < 1.0 {
        visitors := visitors[key := v];
        return false;
      }
      visitors := visitors[key := v.(tokens := v.tokens - 1.0)];
      return true;
    }

    /** Deletes the stale visitors one by one; the others keep their buckets. */
    method Evict(cutoff: real)
      modifies this
      ensures visitors == Evicted(old(visitors), cutoff)
    {
      ghost var before := visitors;
      var todo := visitors.Keys;
      while todo != {}
        invariant todo <= before.Keys
        invariant forall k :: k in visitors <==> k in before && (k in todo || cutoff <= before[k].lastSeen)
        invariant forall k :: k in visitors ==> visitors[k] == before[k]
        decreases todo
      {
        var k :| k in todo;
        todo := todo - {k};
        if visitors[k].lastSeen < cutoff {
          visitors := visitors - {k};
        }
      }
    }
  }

  /** What happens to one limiter: requests, and passes of the cleanup loop. `cutoff` was computed
      from a clock reading taken before the pass got the lock. */
  datatype Op = Request(key: string, at: real) | Cleanup(cutoff: real, at: real)

  predicate Timed(ops: seq<Op>) {
    && (forall i :: 0 <= i < |ops| ==> 0.0 <= ops[i].at)
    && (forall i, j :: 0 <= i < j < |ops| ==> ops[i].at <= ops[j].at)
    && (forall i :: 0 <= i < |ops| && ops[i].Cleanup? ==> ops[i].cutoff <= ops[i].at - EVICT_AFTER)
  }

  function Step(cfg: Config, visitors: Visitors, op: Op): (Visitors, bool) {
    match op
    case Request(key, at) => Admit(cfg, visitors, key, at)
    case Cleanup(cutoff, _) => (Evicted(visitors, cutoff), false)
  }

  /** The buckets after a trace, starting with none. */
  function After(cfg: Config, ops: seq<Op>): Visitors {
    if ops == [] then map[]
    else Step(cfg, After(cfg, ops[..|ops| - 1]), ops[|ops| - 1]).0
  }

  /** What each operation of a trace was answered; a cleanup counts as not allowed. */
  function Decisions(cfg: Config, ops: seq<Op>): (ds: seq<bool>)
    ensures |ds| == |ops|
  {
    if ops == [] then []
    else
      var n := |ops| - 1;
      Decisions(cfg, ops[..n]) + [Step(cfg, After(cfg, ops[..n]), ops[n]).1]
  }

  /** Requests of `key` in the window [from, to] that `chosen` lets through. */
  function Count(ops: seq<Op>, chosen: seq<bool>, key: string, from: real, to: real): nat
    requires |chosen| == |ops|
  {
    if ops == [] then 0
    else
      var n := |ops| - 1;
      Count(ops[..n], chosen[..n], key, from, to) +
      (if ops[n].Request? && ops[n].key == key && from <= ops[n].at <= to && chosen[n] then 1 else 0)
  }

  // ---------------------------------------------------------------- in Redis

  /** The hash stored under one key, with the moment PEXPIRE lets it go. */
  datatype Hash = Hash(tokens: real, ts: nat, expireAt: int)

  type Store = map<string, Hash>

  function Ceil(x: real): int {
    -((-x).Floor)
  }

  /** The time to live newRedisLimiter computes, in milliseconds. */
  function Ttl(cfg: Config): int
    requires cfg.rate != 0.0
  {
    Ceil(cfg.burst / cfg.rate * 2.0 * 1000.0) + 1000
  }

  /** One request as Redis sees it: the clock at the script, and whether the server has dropped
      the key, which it may do only once the expiry has come. */
  datatype Eval = Eval(key: string, now: nat, dropped: bool)

  /** Redis TIME, in seconds and microseconds, as the script reads it. */
  function Millis(seconds: nat, micros: nat): nat {
    seconds * 1000 + micros / 1000
  }

  predicate Live(store: Store, e: Eval) {
    e.key in store && !(e.dropped && store[e.key].expireAt <= e.now)
  }

  function MillisBetween(ts: nat, now: nat): nat {
    if ts <= now then now - ts else 0
  }

  function Refilled(cfg: Config, h: Hash, now: nat): real {
    Min(cfg.burst, h.tokens + MillisBetween(h.ts, now) as real / 1000.0 * cfg.rate)
  }

  /** The script: tokens left and the verdict. */
  function Script(cfg: Config, bucket: Option<Hash>, now: nat): (real, bool) {
    match bucket
    case None => (cfg.burst - 1.0, true)
    case Some(h) =>
      var tokens := Refilled(cfg, h, now);
      if tokens >= 1.0 then (tokens - 1.0, true) else (tokens, false)
  }

  function RunScript(cfg: Config, ttl: int, store: Store, e: Eval): (Store, bool) {
    var (tokens, allowed) := Script(cfg, if Live(store, e) then Some(store[e.key]) else None, e.now);
    (store[e.key := Hash(tokens, e.now, e.now + ttl)], allowed)
  }

  /** What comes of calling the script: its verdict, or an error or a timeout, after which it may
      have run all the same. */
  datatype Reply = Answered | Failed(ran: bool)

  const REDIS_ERR_LOG_INTERVAL := 10_000_000_000  // nanoseconds

  class RedisLimiter {
    var store: Store
    var lastErrLog: int
    const cfg: Config
    const prefix: string
    const ttlMs: int

    constructor (prefix: string, rps: real, burst: real)
      requires rps != 0.0
      ensures store == map[] && cfg == Config(rps, burst) && this.prefix == prefix && ttlMs == Ttl(cfg)
      ensures lastErrLog == 0
    {
      store, lastErrLog := map[], 0;
      cfg := Config(rps, burst);
      this.prefix := prefix;
      ttlMs := Ttl(Config(rps, burst));
    }

    /** tokenBucketScript, at the server. */
    method RunAt(k: string, seconds: nat, micros: nat, dropped: bool) returns (allowed: nat)
      modifies this`store
      ensures allowed <= 1
      ensures (store, allowed == 1) ==
              RunScript(cfg, ttlMs, old(store), Eval(k, (seconds * 1_000_000 + micros) / 1000, dropped))
    {
      var now := seconds * 1000 + micros / 1000;
      var tokens: real;
      allowed := 0;
      if k !in store || (dropped && store[k].expireAt <= now) {
        tokens := cfg.burst - 1.0;
        allowed := 1;
        assert (tokens, true) == Script(cfg, None, now);
      } else {
        var h := store[k];
        var idle := if now > h.ts then now - h.ts else 0;
        tokens := Min(cfg.burst, h.tokens + idle as real / 1000.0 * cfg.rate);
        assert tokens == Refilled(cfg, h, now);
        if tokens >= 1.0 {
          tokens := tokens - 1.0;
          allowed := 1;
        }
        assert (tokens, allowed == 1) == Script(cfg, Some(h), now);
      }
      store := store[k := Hash(tokens, now, now + ttlMs)];
    }

    /** Fails open: without an answer the request is let through and the error logged, not more
        often than the interval allows. */
    method Allow(key: string, seconds: nat, micros: nat, dropped: bool, reply: Reply, now: int)
      returns (ok: bool, logged: bool)
      modifies this
      ensures var (after, verdict) :=
                RunScript(cfg, ttlMs, old(store), Eval(prefix + key, (seconds * 1_000_000 + micros) / 1000, dropped));
              && store == (if reply == Failed(false) then old(store) else after)
              && ok == (reply.Failed? || verdict)
      ensures logged <==> reply.Failed? && 10_000_000_000 <= now - old(lastErrLog)
      ensures lastErrLog == if logged then now else old(lastErrLog)
    {
      logged := false;
      if reply == Failed(false) {
        logged := LogErr(now);
        return true, logged;
      }
      var res := RunAt(prefix + key, seconds, micros, dropped);
      if reply.Failed? {
        logged := LogErr(now);
        return true, logged;
      }
      ok := res == 1;
    }

    /** `now` in nanoseconds. */
    method LogErr(now: int) returns (logged: bool)
      modifies this`lastErrLog
      ensures logged <==> 10_000_000_000 <= now - old(lastErrLog)
      ensures lastErrLog == if logged then now else old(lastErrLog)
    {
      if now - lastErrLog < REDIS_ERR_LOG_INTERVAL {
        return false;
      }
      lastErrLog := now;
      return true;
    }
  }

  function StoreAfter(cfg: Config, ttl: int, evals: seq<Eval>): Store {
    if evals == [] then map[]
    else RunScript(cfg, ttl, StoreAfter(cfg, ttl, evals[..|evals| - 1]), evals[|evals| - 1]).0
  }

  function Verdicts(cfg: Config, ttl: int, evals: seq<Eval>): (ds: seq<bool>)
    ensures |ds| == |evals|
  {
    if evals == [] then []
    else
      var n := |evals| - 1;
      Verdicts(cfg, ttl, evals[..n]) + [RunScript(cfg, ttl, StoreAfter(cfg, ttl, evals[..n]), evals[n]).1]
  }

  predicate Monotone(evals: seq<Eval>) {
    forall i, j :: 0 <= i < j < |evals| ==> evals[i].now <= evals[j].now
  }

  /** The same requests, made to an in-memory limiter on the same clock. */
  function InMemory(evals: seq<Eval>): (ops: seq<Op>)
    ensures |ops| == |evals|
    ensures forall i :: 0 <= i < |evals| ==> ops[i] == Request(evals[i].key, evals[i].now as real / 1000.0)
  {
    if evals == [] then []
    else
      var n := |evals| - 1;
      InMemory(evals[..n]) + [Request(evals[n].key, evals[n].now as real / 1000.0)]
  }
}
