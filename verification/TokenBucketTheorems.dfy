/** What is promised of the in-memory limiter: the window bound and exactly when it holds, that no
    other policy on the same bucket admits more, and that a well-behaved client is never denied. */
module TokenBucketTheorems {
  import opened TokenBucket
  import opened TokenBucketProofs

  // ---------------------------------------------------------------- the window bound, exactly

  ghost predicate Bounded(cfg: Config, ops: seq<Op>, key: string, from: real, to: real) {
    Timed(ops) && from <= to ==> Allowed(cfg, ops, key, from, to) as real <= cfg.burst + (to - from) * cfg.rate
  }

  /** Whatever the calls and cleanup passes, the requests of one key allowed between two instants
      stay within the burst plus what the rate pays for. */
  ghost predicate BoundHolds(cfg: Config) {
    forall ops, key, from, to :: Bounded(cfg, ops, key, from, to)
  }

  lemma WindowBound(cfg: Config, ops: seq<Op>, key: string, from: real, to: real)
    requires Sound(cfg) && Harmless(cfg, ops)
    ensures Bounded(cfg, ops, key, from, to)
  {
    if Timed(ops) && from <= to {
      WindowBoundKept(cfg, ops, key, from, to, Earned(cfg, to - from));
    }
  }

  const KEY := "k"

  function Requests(m: nat, t: real): (ops: seq<Op>)
    ensures |ops| == m
  {
    if m == 0 then [] else Requests(m - 1, t) + [Request(KEY, t)]
  }

  lemma TimedSnoc(ops: seq<Op>, op: Op)
    requires Timed(ops) && Clock(ops) <= op.at && 0.0 <= op.at
    requires op.Cleanup? ==> op.cutoff <= op.at - EVICT_AFTER
    ensures Timed(ops + [op]) && Clock(ops + [op]) == op.at
  {
    forall i | 0 <= i < |ops|
      ensures ops[i].at <= op.at
    {
      assert ops[i].at <= ops[|ops| - 1].at;
    }
  }

  lemma Extend(cfg: Config, ops: seq<Op>, op: Op, to: real)
    requires 0.0 <= op.at <= to
    ensures var (after, ok) := Step(cfg, After(cfg, ops), op);
            && After(cfg, ops + [op]) == after
            && Allowed(cfg, ops + [op], KEY, 0.0, to) ==
                 Allowed(cfg, ops, KEY, 0.0, to) + if Hits(op, KEY) && ok then 1 else 0
  {
    assert (ops + [op])[..|ops|] == ops;
    AllowedStep(cfg, ops + [op], KEY, 0.0, to);
  }

  /** A trace that has let `count` requests through and left the bucket at v. */
  predicate Reaches(cfg: Config, ops: seq<Op>, v: Visitor, count: nat, to: real) {
    && Timed(ops) && Clock(ops) == v.lastSeen
    && KEY in After(cfg, ops) && After(cfg, ops)[KEY] == v
    && Allowed(cfg, ops, KEY, 0.0, to) == count
  }

  lemma FirstRequest(cfg: Config, ops: seq<Op>, t: real, to: real)
    requires Timed(ops) && Clock(ops) <= t && 0.0 <= t <= to
    requires KEY !in After(cfg, ops)
    ensures Reaches(cfg, ops + [Request(KEY, t)], Visitor(cfg.burst - 1.0, t),
                    Allowed(cfg, ops, KEY, 0.0, to) + 1, to)
  {
    TimedSnoc(ops, Request(KEY, t));
    Extend(cfg, ops, Request(KEY, t), to);
  }

  lemma NextRequest(cfg: Config, ops: seq<Op>, v: Visitor, count: nat, to: real, t: real, e: real)
    requires Reaches(cfg, ops, v, count, to) && v.lastSeen <= t && 0.0 <= t <= to
    requires e == Earned(cfg, t - v.lastSeen) && 1.0 <= v.tokens + e <= cfg.burst
    ensures Reaches(cfg, ops + [Request(KEY, t)], Visitor(v.tokens + e - 1.0, t), count + 1, to)
  {
    TimedSnoc(ops, Request(KEY, t));
    Extend(cfg, ops, Request(KEY, t), to);
    RefillEarns(cfg, v, t, e);
  }

  /** A fresh bucket lets floor(burst) simultaneous requests through. */
  lemma {:induction false} Spend(cfg: Config, ops: seq<Op>, m: nat, t: real, to: real)
    requires Timed(ops) && Clock(ops) <= t && 0.0 <= t <= to
    requires KEY !in After(cfg, ops) && 0 < m && m as real <= cfg.burst
    ensures Reaches(cfg, ops + Requests(m, t), Visitor(cfg.burst - m as real, t),
                    Allowed(cfg, ops, KEY, 0.0, to) + m, to)
  {
    if m == 1 {
      assert Requests(1, t) == [Request(KEY, t)];
      FirstRequest(cfg, ops, t, to);
    } else {
      Spend(cfg, ops, m - 1, t, to);
      var most := ops + Requests(m - 1, t);
      assert ops + Requests(m, t) == most + [Request(KEY, t)];
      assert Earned(cfg, t - t) == 0.0;
      NextRequest(cfg, most, Visitor(cfg.burst - (m - 1) as real, t),
                  Allowed(cfg, ops, KEY, 0.0, to) + m - 1, to, t, 0.0);
    }
  }

  function Round(n: nat, t: real, end: real): seq<Op> {
    Requests(n, t) + [Request(KEY, end)]
  }

  /** From a fresh bucket, a round of requests ends with an empty one: n at once, and one more when
      the fraction they left has become a whole token. */
  lemma Drain(cfg: Config, ops: seq<Op>, n: nat, t: real, end: real, to: real, left: real)
    requires 1 <= n && n as real <= cfg.burst && 0.0 <= t <= end <= to
    requires left == cfg.burst - n as real && Earned(cfg, end - t) == 1.0 - left
    requires Timed(ops) && Clock(ops) <= t && KEY !in After(cfg, ops)
    ensures Reaches(cfg, ops + Round(n, t, end), Visitor(0.0, end), Allowed(cfg, ops, KEY, 0.0, to) + n + 1, to)
  {
    Spend(cfg, ops, n, t, to);
    assert ops + Round(n, t, end) == ops + Requests(n, t) + [Request(KEY, end)];
    NextRequest(cfg, ops + Requests(n, t), Visitor(left, t), Allowed(cfg, ops, KEY, 0.0, to) + n, to, end, 1.0 - left);
  }

  /** A cleanup pass that makes the limiter forget the bucket a round has emptied. */
  lemma Forget(cfg: Config, ops: seq<Op>, cutoff: real, t: real, to: real)
    requires Timed(ops) && 0.0 <= t <= to && Clock(ops) < cutoff <= t - EVICT_AFTER
    requires KEY in After(cfg, ops) && After(cfg, ops)[KEY].lastSeen == Clock(ops)
    ensures var all := ops + [Cleanup(cutoff, t)];
            && Timed(all) && Clock(all) == t && KEY !in After(cfg, all)
            && Allowed(cfg, all, KEY, 0.0, to) == Allowed(cfg, ops, KEY, 0.0, to)
  {
    TimedSnoc(ops, Cleanup(cutoff, t));
    Extend(cfg, ops, Cleanup(cutoff, t), to);
  }

  /** Two rounds, a little more than the eviction delay apart, with a cleanup pass in between. */
  function TwoRounds(n: nat, w: real, cutoff: real, t: real): seq<Op> {
    Round(n, 0.0, w) + [Cleanup(cutoff, t)] + Round(n, t, t + w)
  }

  /** The length of a round: what n requests at once leave of a full bucket becomes a token. */
  predicate RoundFits(cfg: Config, n: nat, w: real) {
    1 <= n && n as real <= cfg.burst && 0.0 <= w && Earned(cfg, w) == 1.0 - (cfg.burst - n as real)
  }

  /** A trace with nothing in it has let nothing through. */
  lemma NothingYet(cfg: Config, ops: seq<Op>, to: real)
    requires ops == []
    ensures Timed(ops) && Clock(ops) == 0.0 && KEY !in After(cfg, ops) && Allowed(cfg, ops, KEY, 0.0, to) == 0
  {
  }

  lemma RoundAfterNothing(cfg: Config, ops: seq<Op>, n: nat, w: real, to: real)
    requires ops == [] && RoundFits(cfg, n, w) && w <= to
    ensures Reaches(cfg, ops + Round(n, 0.0, w), Visitor(0.0, w), n + 1, to)
  {
    NothingYet(cfg, ops, to);
    assert w - 0.0 == w;
    Drain(cfg, ops, n, 0.0, w, to, cfg.burst - n as real);
  }

  lemma ReachesToo(cfg: Config, ops: seq<Op>, same: seq<Op>, v: Visitor, count: nat, to: real)
    requires Reaches(cfg, ops, v, count, to) && ops == same
    ensures Reaches(cfg, same, v, count, to)
  {
  }

  lemma FirstRound(cfg: Config, n: nat, w: real, to: real)
    requires RoundFits(cfg, n, w) && w <= to
    ensures Reaches(cfg, Round(n, 0.0, w), Visitor(0.0, w), n + 1, to)
  {
    var none: seq<Op>, round := [], Round(n, 0.0, w);
    RoundAfterNothing(cfg, none, n, w, to);
    ReachesToo(cfg, none + round, round, Visitor(0.0, w), n + 1, to);
  }

  /** A round from the start, and the cleanup pass that forgets it. */
  lemma RoundForgotten(cfg: Config, n: nat, w: real, cutoff: real, t: real)
    requires RoundFits(cfg, n, w) && w < cutoff <= t - EVICT_AFTER
    ensures var ops := Round(n, 0.0, w) + [Cleanup(cutoff, t)];
            && Timed(ops) && Clock(ops) == t && KEY !in After(cfg, ops)
            && Allowed(cfg, ops, KEY, 0.0, t + w) == n + 1
  {
    FirstRound(cfg, n, w, t + w);
    Forget(cfg, Round(n, 0.0, w), cutoff, t, t + w);
  }

  lemma TwoRoundsAllow(cfg: Config, n: nat, w: real, cutoff: real, t: real)
    requires RoundFits(cfg, n, w) && w < cutoff <= t - EVICT_AFTER
    ensures var ops := TwoRounds(n, w, cutoff, t);
            Timed(ops) && Allowed(cfg, ops, KEY, 0.0, t + w) == 2 * n + 2
  {
    RoundForgotten(cfg, n, w, cutoff, t);
    assert t + w - t == w;
    Drain(cfg, Round(n, 0.0, w) + [Cleanup(cutoff, t)], n, t, t + w, t + w, cfg.burst - n as real);
  }

  lemma RoundOf(cfg: Config) returns (n: nat, w: real)
    requires Sound(cfg)
    ensures RoundFits(cfg, n, w)
  {
    n := cfg.burst.Floor;
    w := (1.0 - (cfg.burst - n as real)) / cfg.rate;
  }

  /** A gap longer than the eviction delay in which an empty bucket does not fill up. */
  predicate GapFits(cfg: Config, gap: real) {
    EVICT_AFTER < gap && Earned(cfg, gap) < cfg.burst
  }

  lemma GapOf(cfg: Config) returns (gap: real)
    requires Sound(cfg) && !ForgetsOnlyFull(cfg)
    ensures GapFits(cfg, gap) && Earned(cfg, gap - EVICT_AFTER) < 1.0
  {
    var full := cfg.burst / cfg.rate - EVICT_AFTER;
    var token := 1.0 / cfg.rate;
    var more := Min(full, token) / 2.0;
    gap := EVICT_AFTER + more;
    assert cfg.burst / cfg.rate * cfg.rate == cfg.burst && token * cfg.rate == 1.0;
    if full <= 0.0 {
      EarnedMonotone(cfg, cfg.burst / cfg.rate, EVICT_AFTER);
    }
    EarnedBelow(cfg, more, token);
    EarnedBelow(cfg, gap, cfg.burst / cfg.rate);
  }

  lemma EarnedBelow(cfg: Config, a: real, b: real)
    requires a < b && 0.0 < cfg.rate
    ensures Earned(cfg, a) < Earned(cfg, b)
  {
    assert 0.0 < (b - a) * cfg.rate;
  }

  /** Two rounds that far apart are more than the bound. */
  lemma TwoRoundsOverrun(cfg: Config, n: nat, w: real, gap: real) returns (paid: real)
    requires RoundFits(cfg, n, w) && GapFits(cfg, gap)
    ensures paid == Earned(cfg, w + gap + w) && cfg.burst + paid < (2 * n + 2) as real
  {
    paid := Earned(cfg, w + gap + w);
    EarnedAdds(cfg, w, gap);
    EarnedAdds(cfg, w + gap, w);
  }

  lemma MoreIsUnbounded(cfg: Config, ops: seq<Op>, to: real, paid: real)
    requires 0.0 <= to && Timed(ops) && paid == Earned(cfg, to)
    requires cfg.burst + paid < Allowed(cfg, ops, KEY, 0.0, to) as real
    ensures !Bounded(cfg, ops, KEY, 0.0, to)
  {
    assert (to - 0.0) * cfg.rate == paid;
  }

  lemma EvictionOverruns(cfg: Config) returns (ops: seq<Op>, to: real)
    requires Sound(cfg) && !ForgetsOnlyFull(cfg)
    ensures !Bounded(cfg, ops, KEY, 0.0, to)
  {
    var n, w := RoundOf(cfg);
    var gap := GapOf(cfg);
    ops, to := TwoRounds(n, w, w + gap - EVICT_AFTER, w + gap), w + gap + w;
    TwoRoundsAllow(cfg, n, w, w + gap - EVICT_AFTER, w + gap);
    var paid := TwoRoundsOverrun(cfg, n, w, gap);
    MoreIsUnbounded(cfg, ops, to, paid);
  }

  /** The window bound is exact: it holds of every trace if and only if the burst is at least one
      request and no more than what the rate pays for in the eviction delay. */
  lemma WindowBoundExactly(cfg: Config)
    requires 0.0 < cfg.rate
    ensures BoundHolds(cfg) <==> 1.0 <= cfg.burst <= 180.0 * cfg.rate
  {
    if 1.0 <= cfg.burst && ForgetsOnlyFull(cfg) {
      forall ops, key, from, to
        ensures Bounded(cfg, ops, key, from, to)
      {
        WindowBound(cfg, ops, key, from, to);
      }
    } else if cfg.burst < 1.0 {
      var ops := [] + [Request(KEY, 0.0)];
      FirstRequest(cfg, [], 0.0, 0.0);
      assert Allowed(cfg, ops, KEY, 0.0, 0.0) == 1;
      assert !Bounded(cfg, ops, KEY, 0.0, 0.0);
    } else {
      var ops, to := EvictionOverruns(cfg);
    }
  }

  // ---------------------------------------------------------------- greedy is optimal

  /** Tokens a bucket would hold at x if `chosen`, not the limiter, had decided. */
  function Saved(cfg: Config, ops: seq<Op>, chosen: seq<bool>, key: string, x: real): real
    requires |chosen| == |ops|
  {
    if ops == [] then cfg.burst
    else
      var n := |ops| - 1;
      Min(cfg.burst,
          Saved(cfg, ops[..n], chosen[..n], key, ops[n].at)
          - Bit(Hits(ops[n], key) && chosen[n]) + Earned(cfg, x - ops[n].at))
  }

  /** The policy never takes a token that is not there. */
  predicate NeverOverdraws(cfg: Config, ops: seq<Op>, chosen: seq<bool>, key: string)
    requires |chosen| == |ops|
  {
    ops != [] ==>
      var n := |ops| - 1;
      && NeverOverdraws(cfg, ops[..n], chosen[..n], key)
      && (Hits(ops[n], key) && chosen[n] ==> 1.0 <= Saved(cfg, ops[..n], chosen[..n], key, ops[n].at))
  }

  /** Requests of `key` that `chosen` lets through, in the whole trace. */
  function Total(ops: seq<Op>, chosen: seq<bool>, key: string): nat
    requires |chosen| == |ops|
  {
    if ops == [] then 0
    else
      var n := |ops| - 1;
      Total(ops[..n], chosen[..n], key) + if Hits(ops[n], key) && chosen[n] then 1 else 0
  }

  /** The limiter is ahead of the other policy by at least the tokens it has less. */
  lemma {:induction false} Ahead(cfg: Config, ops: seq<Op>, chosen: seq<bool>, key: string, x: real)
    requires 0.0 < cfg.rate && Timed(ops) && Clock(ops) <= x
    requires |chosen| == |ops| && NeverOverdraws(cfg, ops, chosen, key)
    ensures Total(ops, chosen, key) <= Total(ops, Decisions(cfg, ops), key)
    ensures Saved(cfg, ops, chosen, key, x) - Level(cfg, After(cfg, ops), key, x)
            <= (Total(ops, Decisions(cfg, ops), key) - Total(ops, chosen, key)) as real
  {
    if ops != [] {
      var n := |ops| - 1;
      var e := Earned(cfg, x - ops[n].at);
      StepLevelAtLeast(cfg, ops, key, x, e);
      DecisionsStep(cfg, ops);
      assert Decisions(cfg, ops)[..n] == Decisions(cfg, ops[..n]);
      Ahead(cfg, ops[..n], chosen[..n], key, ops[n].at);
    }
  }

  /** On every trace, hence on every prefix of one, the limiter admits at least as many requests
      of a key as any policy that never overdraws a bucket of the same rate and burst. */
  lemma GreedyIsOptimal(cfg: Config, ops: seq<Op>, chosen: seq<bool>, key: string)
    requires 0.0 < cfg.rate && Timed(ops)
    requires |chosen| == |ops| && NeverOverdraws(cfg, ops, chosen, key)
    ensures Total(ops, chosen, key) <= Total(ops, Decisions(cfg, ops), key)
  {
    Ahead(cfg, ops, chosen, key, Clock(ops));
  }

  /** The limiter itself is such a policy. */
  lemma {:induction false} LimiterNeverOverdraws(cfg: Config, ops: seq<Op>, key: string, x: real)
    requires Sound(cfg) && Harmless(cfg, ops) && Timed(ops) && Clock(ops) <= x
    ensures NeverOverdraws(cfg, ops, Decisions(cfg, ops), key)
    ensures Saved(cfg, ops, Decisions(cfg, ops), key, x) == Level(cfg, After(cfg, ops), key, x)
  {
    if ops != [] {
      var n := |ops| - 1;
      StepLevel(cfg, ops, key, x, Earned(cfg, x - ops[n].at));
      DecisionsStep(cfg, ops);
      assert Decisions(cfg, ops)[..n] == Decisions(cfg, ops[..n]);
      LimiterNeverOverdraws(cfg, ops[..n], key, ops[n].at);
    }
  }

  lemma OneMore(cfg: Config, ops: seq<Op>, op: Op)
    ensures After(cfg, ops + [op]) == Step(cfg, After(cfg, ops), op).0
    ensures Decisions(cfg, ops + [op]) == Decisions(cfg, ops) + [Step(cfg, After(cfg, ops), op).1]
  {
    assert (ops + [op])[..|ops|] == ops;
  }

  /** Below one request a bucket never refills to a token. */
  lemma SecondIsDenied(cfg: Config, t: real)
    requires cfg.burst < 1.0
    ensures Decisions(cfg, [Request(KEY, 0.0), Request(KEY, t)]) == [true, false]
  {
    var one := [Request(KEY, 0.0)];
    OneMore(cfg, [], one[0]);
    assert [] + one == one;
    OneMore(cfg, one, Request(KEY, t));
    assert one + [Request(KEY, t)] == [Request(KEY, 0.0), Request(KEY, t)];
  }

  // ---------------------------------------------------------------- a well-behaved client

  predicate SpacedOut(cfg: Config, ops: seq<Op>, key: string)
    requires cfg.rate != 0.0
  {
    forall i, j :: 0 <= i < j < |ops| && Hits(ops[i], key) && Hits(ops[j], key) ==>
      1.0 / cfg.rate <= ops[j].at - ops[i].at
  }

  lemma OneTokenEarned(cfg: Config, dt: real)
    requires 0.0 < cfg.rate && 1.0 / cfg.rate <= dt
    ensures 1.0 <= Earned(cfg, dt)
  {
    EarnedMonotone(cfg, 1.0 / cfg.rate, dt);
    assert 1.0 / cfg.rate * cfg.rate == 1.0;
  }

  /** 1/rate after the last request of a spaced-out client its bucket holds a token again. */
  lemma {:induction false} SpacedLevel(cfg: Config, ops: seq<Op>, key: string, x: real)
    requires Sound(cfg) && Timed(ops) && SpacedOut(cfg, ops, key) && Clock(ops) <= x
    requires forall i :: 0 <= i < |ops| && Hits(ops[i], key) ==> 1.0 / cfg.rate <= x - ops[i].at
    ensures 1.0 <= Level(cfg, After(cfg, ops), key, x)
  {
    if ops != [] {
      var n := |ops| - 1;
      var a := ops[n].at;
      var e := Earned(cfg, x - a);
      StepLevelAtLeast(cfg, ops, key, x, e);
      if Hits(ops[n], key) {
        SpacedLevel(cfg, ops[..n], key, a);
        OneTokenEarned(cfg, x - a);
      } else {
        SpacedLevel(cfg, ops[..n], key, x);
        LevelComposes(cfg, After(cfg, ops[..n]), key, a, x, e);
      }
    }
  }

  /** A client that spaces its requests at least 1/rate apart is never denied, even across cleanup
      passes. */
  lemma {:induction false} SpacedNeverDenied(cfg: Config, ops: seq<Op>, key: string, i: nat)
    requires Sound(cfg) && Timed(ops) && SpacedOut(cfg, ops, key)
    requires i < |ops| && Hits(ops[i], key)
    ensures Decisions(cfg, ops)[i]
  {
    var n := |ops| - 1;
    DecisionsStep(cfg, ops);
    StepLevelAtLeast(cfg, ops, key, Clock(ops), Earned(cfg, 0.0));
    if i == n {
      SpacedLevel(cfg, ops[..n], key, ops[n].at);
    } else {
      SpacedNeverDenied(cfg, ops[..n], key, i);
    }
  }

  ghost predicate NeverDenies(cfg: Config, ops: seq<Op>, key: string)
    requires cfg.rate != 0.0
  {
    Timed(ops) && SpacedOut(cfg, ops, key) ==>
      forall i :: 0 <= i < |ops| && Hits(ops[i], key) ==> Decisions(cfg, ops)[i]
  }

  /** That holds of every trace if and only if the burst is at least one request: below that a
      bucket lets its first request through and no other. */
  lemma SpacedExactly(cfg: Config)
    requires 0.0 < cfg.rate
    ensures (forall ops, key :: NeverDenies(cfg, ops, key)) <==> 1.0 <= cfg.burst
  {
    if 1.0 <= cfg.burst {
      forall ops, key
        ensures NeverDenies(cfg, ops, key)
      {
        if Timed(ops) && SpacedOut(cfg, ops, key) {
          forall i | 0 <= i < |ops| && Hits(ops[i], key)
            ensures Decisions(cfg, ops)[i]
          {
            SpacedNeverDenied(cfg, ops, key, i);
          }
        }
      }
    } else {
      var two := [Request(KEY, 0.0), Request(KEY, 1.0 / cfg.rate)];
      SecondIsDenied(cfg, 1.0 / cfg.rate);
      assert Timed(two) && SpacedOut(cfg, two, KEY);
      assert Hits(two[1], KEY) && !Decisions(cfg, two)[1];
      assert !NeverDenies(cfg, two, KEY);
    }
  }
}
