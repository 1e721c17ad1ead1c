/** What a trace of the in-memory limiter does not show: denied requests, and forgotten buckets.
    Leaving out every denied request never changes another decision; leaving out only some of them,
    or the cleanup passes, changes none exactly when forgetting is harmless. */
module TokenBucketInvisible {
  import opened TokenBucket
  import opened TokenBucketProofs
  import opened TokenBucketTheorems

  // ---------------------------------------------------------------- traces with operations left out

  function Keep<T>(s: seq<T>, keep: seq<bool>): (r: seq<T>)
    requires |keep| == |s|
    ensures |r| <= |s|
  {
    if s == [] then []
    else
      var n := |s| - 1;
      Keep(s[..n], keep[..n]) + if keep[n] then [s[n]] else []
  }

  lemma {:induction false} KeepTimed(ops: seq<Op>, keep: seq<bool>)
    requires |keep| == |ops| && Timed(ops)
    ensures Timed(Keep(ops, keep)) && Clock(Keep(ops, keep)) <= Clock(ops)
  {
    if ops != [] {
      var n := |ops| - 1;
      assert Clock(ops[..n]) <= ops[n].at;
      KeepTimed(ops[..n], keep[..n]);
      if keep[n] {
        TimedSnoc(Keep(ops[..n], keep[..n]), ops[n]);
      } else {
        assert Keep(ops, keep) == Keep(ops[..n], keep[..n]);
      }
    }
  }

  lemma {:induction false} KeepHarmless(cfg: Config, ops: seq<Op>, keep: seq<bool>)
    requires |keep| == |ops| && Harmless(cfg, ops)
    ensures Harmless(cfg, Keep(ops, keep))
  {
    if ops != [] {
      var n := |ops| - 1;
      KeepHarmless(cfg, ops[..n], keep[..n]);
    }
  }

  /** Nothing that let a request through is dropped: only denied requests and cleanup passes. */
  predicate DropsOnlyDenied(cfg: Config, ops: seq<Op>, keep: seq<bool>)
    requires |keep| == |ops|
  {
    forall i :: 0 <= i < |ops| && !keep[i] ==> !Decisions(cfg, ops)[i]
  }

  lemma DropsPrefix(cfg: Config, ops: seq<Op>, keep: seq<bool>)
    requires |keep| == |ops| && ops != [] && DropsOnlyDenied(cfg, ops, keep)
    ensures DropsOnlyDenied(cfg, ops[..|ops| - 1], keep[..|ops| - 1])
  {
    var n := |ops| - 1;
    DecisionsStep(cfg, ops);
    forall i | 0 <= i < n && !keep[..n][i]
      ensures !Decisions(cfg, ops[..n])[i]
    {
      assert !keep[i] && Decisions(cfg, ops)[i] == Decisions(cfg, ops[..n])[i];
    }
  }

  /** Dropping denied requests and cleanup passes leaves every level, at every later time, where it was. */
  lemma {:induction false} SameLevels(cfg: Config, ops: seq<Op>, keep: seq<bool>, key: string, x: real)
    requires Sound(cfg) && Harmless(cfg, ops) && Timed(ops) && Clock(ops) <= x
    requires |keep| == |ops| && DropsOnlyDenied(cfg, ops, keep)
    ensures Level(cfg, After(cfg, Keep(ops, keep)), key, x) == Level(cfg, After(cfg, ops), key, x)
  {
    if ops != [] {
      var n := |ops| - 1;
      var a := ops[n].at;
      var e := Earned(cfg, x - a);
      var most := Keep(ops[..n], keep[..n]);
      StepLevel(cfg, ops, key, x, e);
      DropsPrefix(cfg, ops, keep);
      KeepTimed(ops, keep);
      KeepHarmless(cfg, ops, keep);
      if keep[n] {
        var kept := Keep(ops, keep);
        assert kept[..|kept| - 1] == most;
        StepLevel(cfg, kept, key, x, e);
        SameLevels(cfg, ops[..n], keep[..n], key, a);
      } else {
        assert Keep(ops, keep) == most;
        DecisionsStep(cfg, ops);
        SameLevels(cfg, ops[..n], keep[..n], key, x);
        LevelComposes(cfg, After(cfg, ops[..n]), key, a, x, e);
      }
    }
  }

  lemma SameDecision(cfg: Config, ops: seq<Op>, keep: seq<bool>)
    requires Sound(cfg) && Harmless(cfg, ops) && Timed(ops) && ops != []
    requires |keep| == |ops| && DropsOnlyDenied(cfg, ops, keep) && keep[|ops| - 1]
    ensures var n := |ops| - 1;
            Keep(ops, keep) == Keep(ops[..n], keep[..n]) + [ops[n]]
    ensures LastDecision(cfg, Keep(ops, keep)) == LastDecision(cfg, ops)
  {
    var n := |ops| - 1;
    var kept := Keep(ops, keep);
    assert kept[..|kept| - 1] == Keep(ops[..n], keep[..n]);
    if ops[n].Request? {
      var a, key := ops[n].at, ops[n].key;
      StepLevel(cfg, ops, key, a, Earned(cfg, 0.0));
      KeepTimed(ops, keep);
      KeepHarmless(cfg, ops, keep);
      StepLevel(cfg, kept, key, a, Earned(cfg, 0.0));
      DropsPrefix(cfg, ops, keep);
      SameLevels(cfg, ops[..n], keep[..n], key, a);
    }
  }

  /** Deleting any of the denied requests, and any of the cleanup passes, from a trace changes no
      other decision: denials leave no trace and forgetting cannot be observed. */
  lemma {:induction false} DeniedAndForgottenInvisible(cfg: Config, ops: seq<Op>, keep: seq<bool>)
    requires Sound(cfg) && Harmless(cfg, ops) && Timed(ops)
    requires |keep| == |ops| && DropsOnlyDenied(cfg, ops, keep)
    ensures Decisions(cfg, Keep(ops, keep)) == Keep(Decisions(cfg, ops), keep)
  {
    if ops != [] {
      var n := |ops| - 1;
      DropsPrefix(cfg, ops, keep);
      DecisionsStep(cfg, ops);
      assert Decisions(cfg, ops)[..n] == Decisions(cfg, ops[..n]);
      assert Harmless(cfg, ops[..n]) && Timed(ops[..n]);
      DeniedAndForgottenInvisible(cfg, ops[..n], keep[..n]);
      if keep[n] {
        var kept := Keep(ops, keep);
        SameDecision(cfg, ops, keep);
        assert kept[..|kept| - 1] == Keep(ops[..n], keep[..n]);
        DecisionsStep(cfg, kept);
      } else {
        assert Keep(ops, keep) == Keep(ops[..n], keep[..n]);
      }
    }
  }

  ghost predicate Invisible(cfg: Config, ops: seq<Op>, keep: seq<bool>) {
    |keep| == |ops| && Timed(ops) && DropsOnlyDenied(cfg, ops, keep) ==>
      Decisions(cfg, Keep(ops, keep)) == Keep(Decisions(cfg, ops), keep)
  }

  function RequestsOnly(ops: seq<Op>): seq<bool> {
    seq(|ops|, i requires 0 <= i < |ops| => ops[i].Request?)
  }

  lemma {:induction false} KeptAreRequests(ops: seq<Op>)
    ensures forall i :: 0 <= i < |Keep(ops, RequestsOnly(ops))| ==> Keep(ops, RequestsOnly(ops))[i].Request?
  {
    if ops != [] {
      var n := |ops| - 1;
      KeptAreRequests(ops[..n]);
      assert RequestsOnly(ops)[..n] == RequestsOnly(ops[..n]);
    }
  }

  lemma CountSnoc(ops: seq<Op>, chosen: seq<bool>, op: Op, c: bool, key: string, from: real, to: real)
    requires |chosen| == |ops|
    ensures Count(ops + [op], chosen + [c], key, from, to) ==
            Count(ops, chosen, key, from, to) + if Hits(op, key) && from <= op.at <= to && c then 1 else 0
  {
    assert (ops + [op])[..|ops|] == ops && (chosen + [c])[..|chosen|] == chosen;
  }

  lemma KeepLast<T>(s: seq<T>, keep: seq<bool>)
    requires |keep| == |s| && s != []
    ensures var n := |s| - 1;
            Keep(s, keep) == if keep[n] then Keep(s[..n], keep[..n]) + [s[n]] else Keep(s[..n], keep[..n])
  {
  }

  lemma {:induction false} KeepLengths<S, T>(s: seq<S>, t: seq<T>, keep: seq<bool>)
    requires |s| == |t| == |keep|
    ensures |Keep(s, keep)| == |Keep(t, keep)|
  {
    if s != [] {
      var n := |s| - 1;
      KeepLast(s, keep);
      KeepLast(t, keep);
      KeepLengths(s[..n], t[..n], keep[..n]);
    }
  }

  lemma CountLast(ops: seq<Op>, chosen: seq<bool>, key: string, from: real, to: real)
    requires |chosen| == |ops| && ops != []
    ensures var n := |ops| - 1;
            Count(ops, chosen, key, from, to) ==
            Count(ops[..n], chosen[..n], key, from, to) +
            if Hits(ops[n], key) && from <= ops[n].at <= to && chosen[n] then 1 else 0
  {
  }

  predicate KeepsChosen(chosen: seq<bool>, keep: seq<bool>)
    requires |chosen| == |keep|
  {
    forall i :: 0 <= i < |chosen| && chosen[i] ==> keep[i]
  }

  /** Dropping what is not chosen changes no count of what is. */
  lemma {:induction false} KeepCount(
    ops: seq<Op>, chosen: seq<bool>, keep: seq<bool>, key: string, from: real, to: real)
    requires |chosen| == |ops| == |keep| && KeepsChosen(chosen, keep)
    ensures |Keep(chosen, keep)| == |Keep(ops, keep)|
    ensures Count(Keep(ops, keep), Keep(chosen, keep), key, from, to) == Count(ops, chosen, key, from, to)
  {
    KeepLengths(ops, chosen, keep);
    if ops != [] {
      var n := |ops| - 1;
      var most, picked := Keep(ops[..n], keep[..n]), Keep(chosen[..n], keep[..n]);
      KeepCount(ops[..n], chosen[..n], keep[..n], key, from, to);
      CountLast(ops, chosen, key, from, to);
      KeepLast(ops, keep);
      KeepLast(chosen, keep);
      if keep[n] {
        CountSnoc(most, picked, ops[n], chosen[n], key, from, to);
      }
    }
  }

  lemma {:induction false} CleanupsAllowNothing(cfg: Config, ops: seq<Op>)
    ensures DropsOnlyDenied(cfg, ops, RequestsOnly(ops))
  {
    if ops != [] {
      var n := |ops| - 1;
      CleanupsAllowNothing(cfg, ops[..n]);
      DecisionsStep(cfg, ops);
      forall i | 0 <= i < |ops| && !ops[i].Request?
        ensures !Decisions(cfg, ops)[i]
      {
        assert i < n ==> !RequestsOnly(ops[..n])[i];
      }
    }
  }

  /** Where leaving some operations out changes nothing, it changes no count. */
  lemma InvisibleCount(cfg: Config, ops: seq<Op>, keep: seq<bool>, key: string, from: real, to: real)
    requires |keep| == |ops| && Timed(ops) && DropsOnlyDenied(cfg, ops, keep) && Invisible(cfg, ops, keep)
    ensures Allowed(cfg, Keep(ops, keep), key, from, to) == Allowed(cfg, ops, key, from, to)
  {
    KeepCount(ops, Decisions(cfg, ops), keep, key, from, to);
  }

  /** Where forgetting is invisible, a trace allows no more than it does without its cleanups. */
  lemma InvisibleIsBounded(cfg: Config, ops: seq<Op>, key: string, from: real, to: real)
    requires Sound(cfg) && Invisible(cfg, ops, RequestsOnly(ops))
    ensures Bounded(cfg, ops, key, from, to)
  {
    if Timed(ops) && from <= to {
      var keep := RequestsOnly(ops);
      CleanupsAllowNothing(cfg, ops);
      InvisibleCount(cfg, ops, keep, key, from, to);
      KeptAreRequests(ops);
      KeepTimed(ops, keep);
      WindowBound(cfg, Keep(ops, keep), key, from, to);
    }
  }

  lemma KeptIsOne(t: real)
    ensures var two := [Request(KEY, 0.0), Cleanup(t - EVICT_AFTER, t)];
            Keep(two, RequestsOnly(two)) == [Request(KEY, 0.0)]
  {
    var two := [Request(KEY, 0.0), Cleanup(t - EVICT_AFTER, t)];
    assert two[..1] == [Request(KEY, 0.0)] && RequestsOnly(two)[..1] == [true];
    assert Keep(two[..1], RequestsOnly(two)[..1]) == [Request(KEY, 0.0)];
  }

  /** Unless it is forgotten in between. */
  lemma ForgottenIsAdmitted(cfg: Config, t: real)
    requires 0.0 < t - EVICT_AFTER
    ensures Decisions(cfg, [Request(KEY, 0.0), Cleanup(t - EVICT_AFTER, t), Request(KEY, t)]) == [true, false, true]
  {
    var one := [Request(KEY, 0.0)];
    OneMore(cfg, [], one[0]);
    assert [] + one == one;
    var two := [Request(KEY, 0.0), Cleanup(t - EVICT_AFTER, t)];
    OneMore(cfg, one, two[1]);
    assert one + [two[1]] == two;
    OneMore(cfg, two, Request(KEY, t));
    assert two + [Request(KEY, t)] == [Request(KEY, 0.0), Cleanup(t - EVICT_AFTER, t), Request(KEY, t)];
  }

  lemma SmallBurstForgets(cfg: Config) returns (ops: seq<Op>)
    requires 0.0 < cfg.rate && cfg.burst < 1.0
    ensures !Invisible(cfg, ops, RequestsOnly(ops))
  {
    var t := EVICT_AFTER + 1.0;
    var two := [Request(KEY, 0.0), Cleanup(t - EVICT_AFTER, t)];
    ops := [Request(KEY, 0.0), Cleanup(t - EVICT_AFTER, t), Request(KEY, t)];
    var keep := RequestsOnly(ops);
    CleanupsAllowNothing(cfg, ops);
    ForgottenIsAdmitted(cfg, t);
    SecondIsDenied(cfg, t);
    assert ops[..2] == two && keep[..2] == RequestsOnly(two);
    KeptIsOne(t);
    assert Keep(ops, keep) == [Request(KEY, 0.0), Request(KEY, t)];
    var answers := Keep(Decisions(cfg, ops), keep);
    assert answers[|answers| - 1];
    assert !Invisible(cfg, ops, keep);
  }

  /** Forgetting is invisible, in every trace, if and only if the burst is at least one request and
      a visitor is full again when it is forgotten. */
  lemma ForgettingExactly(cfg: Config)
    requires 0.0 < cfg.rate
    ensures (forall ops :: Invisible(cfg, ops, RequestsOnly(ops))) <==> 1.0 <= cfg.burst <= 180.0 * cfg.rate
  {
    if cfg.burst < 1.0 {
      var ops := SmallBurstForgets(cfg);
    } else if ForgetsOnlyFull(cfg) {
      forall ops
        ensures Invisible(cfg, ops, RequestsOnly(ops))
      {
        LeftOutInvisible(cfg, ops, RequestsOnly(ops));
      }
    } else {
      var ops, to := EvictionOverruns(cfg);
      if Invisible(cfg, ops, RequestsOnly(ops)) {
        InvisibleIsBounded(cfg, ops, KEY, 0.0, to);
      }
    }
  }

  /** So is leaving out any denied requests and cleanup passes. */
  lemma InvisibleExactly(cfg: Config)
    requires 0.0 < cfg.rate
    ensures (forall ops, keep :: Invisible(cfg, ops, keep)) <==> 1.0 <= cfg.burst <= 180.0 * cfg.rate
  {
    ForgettingExactly(cfg);
    if 1.0 <= cfg.burst && ForgetsOnlyFull(cfg) {
      forall ops, keep
        ensures Invisible(cfg, ops, keep)
      {
        LeftOutInvisible(cfg, ops, keep);
      }
    } else {
      var ops :| !Invisible(cfg, ops, RequestsOnly(ops));
    }
  }

  lemma LeftOutInvisible(cfg: Config, ops: seq<Op>, keep: seq<bool>)
    requires Sound(cfg) && ForgetsOnlyFull(cfg)
    ensures Invisible(cfg, ops, keep)
  {
    if |keep| == |ops| && Timed(ops) && DropsOnlyDenied(cfg, ops, keep) {
      DeniedAndForgottenInvisible(cfg, ops, keep);
    }
  }

  // ---------------------------------------------------------------- leaving out every denied request

  /** A bucket t that was used no later than f, and would have held at least as much by then. */
  predicate Fuller(cfg: Config, t: Visitor, f: Visitor) {
    t.lastSeen <= f.lastSeen && f.tokens <= Refill(cfg, t, f.lastSeen)
  }

  /** The buckets of a trace without its denied requests, beside those of the whole trace. */
  ghost predicate Ahead(cfg: Config, thin: Visitors, full: Visitors, clock: real) {
    && (forall k :: k in full ==> full[k].tokens <= cfg.burst && full[k].lastSeen <= clock)
    && (forall k :: k in thin ==> k in full && Fuller(cfg, thin[k], full[k]))
  }

  lemma FullerStays(cfg: Config, t: Visitor, f: Visitor, x: real)
    requires 0.0 < cfg.rate && Fuller(cfg, t, f) && f.lastSeen <= x
    ensures Refill(cfg, f, x) <= Refill(cfg, t, x)
  {
    var p, q, r := Earned(cfg, f.lastSeen - t.lastSeen), Earned(cfg, x - f.lastSeen), Earned(cfg, x - t.lastSeen);
    EarnedNonNegative(cfg, x - f.lastSeen);
    EarnedAdds(cfg, f.lastSeen - t.lastSeen, x - f.lastSeen);
    assert (f.lastSeen - t.lastSeen) + (x - f.lastSeen) == x - t.lastSeen;
    RefillEarns(cfg, t, f.lastSeen, p);
    RefillEarns(cfg, f, x, q);
    RefillEarns(cfg, t, x, r);
  }

  lemma JustSeen(cfg: Config, tokens: real, now: real)
    ensures Refill(cfg, Visitor(tokens, now), now) == Min(cfg.burst, tokens)
  {
    assert Earned(cfg, now - now) == 0.0;
  }

  /** A request the whole trace lets through, the thinned one lets through too. */
  lemma AllowedKeepsAhead(cfg: Config, thin: Visitors, full: Visitors, key: string, at: real)
    requires 0.0 < cfg.rate && Ahead(cfg, thin, full, at) && Admit(cfg, full, key, at).1
    ensures Admit(cfg, thin, key, at).1
    ensures Ahead(cfg, Admit(cfg, thin, key, at).0, Admit(cfg, full, key, at).0, at)
  {
    if key in thin {
      FullerStays(cfg, thin[key], full[key], at);
    }
    JustSeen(cfg, Admit(cfg, thin, key, at).0[key].tokens, at);
  }

  lemma DeniedKeepsAhead(cfg: Config, thin: Visitors, full: Visitors, key: string, at: real)
    requires 0.0 < cfg.rate && Ahead(cfg, thin, full, at) && !Admit(cfg, full, key, at).1
    ensures Ahead(cfg, thin, Admit(cfg, full, key, at).0, at)
  {
    if key in thin {
      FullerStays(cfg, thin[key], full[key], at);
    }
  }

  /** What the whole trace has forgotten, the thinned one has forgotten too. */
  lemma CleanupKeepsAhead(cfg: Config, thin: Visitors, full: Visitors, cutoff: real, at: real)
    requires Ahead(cfg, thin, full, at)
    ensures Ahead(cfg, Evicted(thin, cutoff), Evicted(full, cutoff), at)
  {
  }

  function AllDenied(cfg: Config, ops: seq<Op>): seq<bool> {
    seq(|ops|, i requires 0 <= i < |ops| => ops[i].Cleanup? || Decisions(cfg, ops)[i])
  }

  lemma AllDeniedStep(cfg: Config, ops: seq<Op>)
    requires ops != []
    ensures var n := |ops| - 1;
            && AllDenied(cfg, ops)[..n] == AllDenied(cfg, ops[..n])
            && (AllDenied(cfg, ops)[n] <==> ops[n].Cleanup? || LastDecision(cfg, ops))
  {
    DecisionsStep(cfg, ops);
  }

  /** One more operation of the whole trace, kept or left out of the thinned one. */
  lemma AheadStep(cfg: Config, thin: seq<Op>, ops: seq<Op>, op: Op)
    requires 0.0 < cfg.rate && Ahead(cfg, After(cfg, thin), After(cfg, ops), op.at)
    ensures var (after, ok) := Step(cfg, After(cfg, ops), op);
            if op.Cleanup? || ok then
              && Step(cfg, After(cfg, thin), op).1 == ok
              && Ahead(cfg, After(cfg, thin + [op]), after, op.at)
            else Ahead(cfg, After(cfg, thin), after, op.at)
  {
    OneMore(cfg, thin, op);
    match op
    case Request(key, at) =>
      if Admit(cfg, After(cfg, ops), key, at).1 {
        AllowedKeepsAhead(cfg, After(cfg, thin), After(cfg, ops), key, at);
      } else {
        DeniedKeepsAhead(cfg, After(cfg, thin), After(cfg, ops), key, at);
      }
    case Cleanup(cutoff, at) => CleanupKeepsAhead(cfg, After(cfg, thin), After(cfg, ops), cutoff, at);
  }

  lemma AheadLater(cfg: Config, thin: Visitors, full: Visitors, a: real, b: real)
    requires Ahead(cfg, thin, full, a) && a <= b
    ensures Ahead(cfg, thin, full, b)
  {
  }

  /** Deleting every denied request from a trace changes no other decision: for every burst, and
      whatever the cleanup passes forget. */
  lemma {:induction false} AllDeniedInvisible(cfg: Config, ops: seq<Op>)
    requires 0.0 < cfg.rate && Timed(ops)
    ensures var keep := AllDenied(cfg, ops);
            && Decisions(cfg, Keep(ops, keep)) == Keep(Decisions(cfg, ops), keep)
            && Ahead(cfg, After(cfg, Keep(ops, keep)), After(cfg, ops), Clock(ops))
  {
    if ops != [] {
      var n := |ops| - 1;
      var keep := AllDenied(cfg, ops);
      AllDeniedStep(cfg, ops);
      DecisionsStep(cfg, ops);
      AllDeniedInvisible(cfg, ops[..n]);
      var thin := Keep(ops[..n], keep[..n]);
      AheadLater(cfg, After(cfg, thin), After(cfg, ops[..n]), Clock(ops[..n]), ops[n].at);
      AheadStep(cfg, thin, ops[..n], ops[n]);
      OneMore(cfg, thin, ops[n]);
      KeepLast(ops, keep);
      KeepLast(Decisions(cfg, ops), keep);
      assert Decisions(cfg, ops)[..n] == Decisions(cfg, ops[..n]);
    }
  }

  // ---------------------------------------------------------------- leaving out some denied requests

  /** Only denied requests are left out, and not necessarily all of them. */
  predicate KeepsCleanups(ops: seq<Op>, keep: seq<bool>)
    requires |keep| == |ops|
  {
    forall i :: 0 <= i < |ops| && ops[i].Cleanup? ==> keep[i]
  }

  function ButOne(n: nat, j: nat): seq<bool> {
    seq(n, i => i != j)
  }

  lemma {:induction false} KeepAll<T>(s: seq<T>, j: nat)
    requires |s| <= j
    ensures Keep(s, ButOne(|s|, j)) == s
  {
    if s != [] {
      var n := |s| - 1;
      assert ButOne(|s|, j)[..n] == ButOne(n, j);
      KeepAll(s[..n], j);
    }
  }

  lemma {:induction false} KeepButOne<T>(a: seq<T>, x: T, b: seq<T>)
    ensures Keep(a + [x] + b, ButOne(|a| + 1 + |b|, |a|)) == a + b
  {
    var s, keep := a + [x] + b, ButOne(|a| + 1 + |b|, |a|);
    var n := |s| - 1;
    assert keep[..n] == ButOne(n, |a|);
    KeepLast(s, keep);
    if b == [] {
      assert s[..n] == a;
      KeepAll(a, |a|);
    } else {
      var m := |b| - 1;
      assert s[..n] == a + [x] + b[..m];
      KeepButOne(a, x, b[..m]);
      assert a + b == a + b[..m] + [b[m]];
    }
  }

  lemma {:induction false} DecisionsPrefix(cfg: Config, a: seq<Op>, b: seq<Op>)
    ensures Decisions(cfg, a + b)[..|a|] == Decisions(cfg, a)
  {
    if b == [] {
      assert a + b == a;
    } else {
      var m := |b| - 1;
      assert (a + b)[..|a + b| - 1] == a + b[..m];
      DecisionsPrefix(cfg, a, b[..m]);
      DecisionsStep(cfg, a + b);
    }
  }

  /** Two traces that leave the same buckets allow the same of what follows. */
  lemma {:induction false} SameSuffix(
    cfg: Config, a: seq<Op>, b: seq<Op>, more: seq<Op>, key: string, from: real, to: real)
    requires After(cfg, a) == After(cfg, b)
    ensures After(cfg, a + more) == After(cfg, b + more)
    ensures Allowed(cfg, a + more, key, from, to) - Allowed(cfg, a, key, from, to)
            == Allowed(cfg, b + more, key, from, to) - Allowed(cfg, b, key, from, to)
  {
    if more == [] {
      assert a + more == a && b + more == b;
    } else {
      var m := |more| - 1;
      assert (a + more)[..|a + more| - 1] == a + more[..m] && (b + more)[..|b + more| - 1] == b + more[..m];
      SameSuffix(cfg, a, b, more[..m], key, from, to);
      AllowedStep(cfg, a + more, key, from, to);
      AllowedStep(cfg, b + more, key, from, to);
    }
  }

  predicate OnlyKey(ops: seq<Op>) {
    forall i :: 0 <= i < |ops| ==> Hits(ops[i], KEY)
  }

  lemma {:induction false} OnlyKeyIsSeen(cfg: Config, ops: seq<Op>)
    requires OnlyKey(ops)
    ensures After(cfg, ops).Keys <= {KEY}
  {
    if ops != [] {
      OnlyKeyIsSeen(cfg, ops[..|ops| - 1]);
    }
  }

  lemma {:induction false} RequestsFollow(ops: seq<Op>, m: nat, t: real)
    requires Timed(ops) && Clock(ops) <= t && 0.0 <= t
    ensures Timed(ops + Requests(m, t)) && Clock(ops + Requests(m, t)) <= t
    ensures OnlyKey(Requests(m, t))
  {
    if m == 0 {
      assert ops + Requests(m, t) == ops;
    } else {
      RequestsFollow(ops, m - 1, t);
      assert ops + Requests(m, t) == ops + Requests(m - 1, t) + [Request(KEY, t)];
      TimedSnoc(ops + Requests(m - 1, t), Request(KEY, t));
    }
  }

  lemma RoundFollows(ops: seq<Op>, n: nat, t: real, end: real)
    requires Timed(ops) && Clock(ops) <= t && 0.0 <= t <= end
    ensures Timed(ops + Round(n, t, end)) && OnlyKey(Round(n, t, end))
  {
    RequestsFollow(ops, n, t);
    assert ops + Round(n, t, end) == ops + Requests(n, t) + [Request(KEY, end)];
    TimedSnoc(ops + Requests(n, t), Request(KEY, end));
  }

  /** A round, and a request denied before a token has come back. */
  function DeniedRound(n: nat, w: real, cutoff: real): seq<Op> {
    Round(n, 0.0, w) + [Request(KEY, cutoff)]
  }

  lemma EmptyIsDenied(cfg: Config, visitors: Visitors, w: real, at: real)
    requires 0.0 < cfg.rate && KEY in visitors && visitors[KEY] == Visitor(0.0, w)
    requires w < at && Earned(cfg, at - w) < 1.0
    ensures var (after, ok) := Admit(cfg, visitors, KEY, at); !ok && KEY in after && after[KEY].lastSeen == at
    ensures Admit(cfg, visitors, KEY, at).0.Keys == visitors.Keys
  {
    var e := Earned(cfg, at - w);
    RefillEarns(cfg, Visitor(0.0, w), at, e);
  }

  lemma DeniedRoundEnds(cfg: Config, n: nat, w: real, cutoff: real)
    requires RoundFits(cfg, n, w) && 0.0 < cfg.rate && w < cutoff && Earned(cfg, cutoff - w) < 1.0
    ensures var ops := DeniedRound(n, w, cutoff);
            && Timed(ops) && Clock(ops) == cutoff && OnlyKey(ops) && !LastDecision(cfg, ops)
            && KEY in After(cfg, ops) && After(cfg, ops)[KEY].lastSeen == cutoff
  {
    var first := Round(n, 0.0, w);
    RoundFollows([], n, 0.0, w);
    FirstRound(cfg, n, w, w);
    EmptyIsDenied(cfg, After(cfg, first), w, cutoff);
    assert DeniedRound(n, w, cutoff)[..|first|] == first;
    TimedSnoc(first, Request(KEY, cutoff));
  }

  /** It keeps the bucket from a cleanup pass with that cutoff. */
  lemma DeniedRoundStays(cfg: Config, n: nat, w: real, cutoff: real, t: real)
    requires RoundFits(cfg, n, w) && 0.0 < cfg.rate && w < cutoff <= t - EVICT_AFTER && Earned(cfg, cutoff - w) < 1.0
    ensures var ops := DeniedRound(n, w, cutoff); After(cfg, ops + [Cleanup(cutoff, t)]) == After(cfg, ops)
  {
    var ops := DeniedRound(n, w, cutoff);
    DeniedRoundEnds(cfg, n, w, cutoff);
    OnlyKeyIsSeen(cfg, ops);
    OneMore(cfg, ops, Cleanup(cutoff, t));
  }

  /** With the denied request the second round is on the same bucket, and stays within the bound;
      without it, it is on a new one. */
  lemma DeniedHolds(cfg: Config, n: nat, w: real, cutoff: real, t: real, end: real, paid: real)
    requires Sound(cfg) && RoundFits(cfg, n, w) && w < cutoff <= t - EVICT_AFTER && Earned(cfg, cutoff - w) < 1.0
    requires t <= end && paid == Earned(cfg, end)
    ensures var ops := DeniedRound(n, w, cutoff) + [Cleanup(cutoff, t)] + Round(n, t, end);
            && Timed(ops)
            && Allowed(cfg, ops, KEY, 0.0, end) as real <= cfg.burst + paid
  {
    var ops := DeniedRound(n, w, cutoff);
    DeniedRoundEnds(cfg, n, w, cutoff);
    DeniedRoundStays(cfg, n, w, cutoff, t);
    TimedSnoc(ops, Cleanup(cutoff, t));
    RoundFollows(ops + [Cleanup(cutoff, t)], n, t, end);
    RoundFollows(ops, n, t, end);
    assert (ops + [Cleanup(cutoff, t)])[..|ops|] == ops;
    AllowedStep(cfg, ops + [Cleanup(cutoff, t)], KEY, 0.0, end);
    SameSuffix(cfg, ops + [Cleanup(cutoff, t)], ops, Round(n, t, end), KEY, 0.0, end);
    assert end - 0.0 == end;
    WindowBoundKept(cfg, ops + Round(n, t, end), KEY, 0.0, end, paid);
  }

  lemma OneIsDropped(cfg: Config, first: seq<Op>, denied: Op, rest: seq<Op>)
    requires denied.Request? && !LastDecision(cfg, first + [denied])
    ensures var ops, keep := first + [denied] + rest, ButOne(|first| + 1 + |rest|, |first|);
            && |keep| == |ops| && KeepsCleanups(ops, keep) && DropsOnlyDenied(cfg, ops, keep)
            && Keep(ops, keep) == first + rest
  {
    DecisionsPrefix(cfg, first + [denied], rest);
    DecisionsStep(cfg, first + [denied]);
    KeepButOne(first, denied, rest);
    assert Decisions(cfg, first + [denied] + rest)[|first|] == Decisions(cfg, first + [denied])[|first|];
  }

  /** Leaving the denied request out of such a trace lets more requests through. */
  lemma DenialShows(cfg: Config, n: nat, w: real, cutoff: real, t: real, end: real, paid: real)
    returns (ops: seq<Op>, keep: seq<bool>)
    requires Sound(cfg) && RoundFits(cfg, n, w) && w < cutoff <= t - EVICT_AFTER && Earned(cfg, cutoff - w) < 1.0
    requires end == t + w && paid == Earned(cfg, end) && cfg.burst + paid < (2 * n + 2) as real
    ensures |keep| == |ops| && KeepsCleanups(ops, keep) && !Invisible(cfg, ops, keep)
  {
    var first, denied, rest := Round(n, 0.0, w), Request(KEY, cutoff), [Cleanup(cutoff, t)] + Round(n, t, end);
    DeniedRoundEnds(cfg, n, w, cutoff);
    OneIsDropped(cfg, first, denied, rest);
    ops, keep := first + [denied] + rest, ButOne(|first| + 1 + |rest|, |first|);
    assert ops == DeniedRound(n, w, cutoff) + [Cleanup(cutoff, t)] + Round(n, t, end);
    assert first + rest == TwoRounds(n, w, cutoff, t);
    DeniedHolds(cfg, n, w, cutoff, t, end, paid);
    TwoRoundsAllow(cfg, n, w, cutoff, t);
    MoreShows(cfg, ops, keep, end);
  }

  lemma LateDenialShows(cfg: Config) returns (ops: seq<Op>, keep: seq<bool>)
    requires Sound(cfg) && !ForgetsOnlyFull(cfg)
    ensures |keep| == |ops| && KeepsCleanups(ops, keep) && !Invisible(cfg, ops, keep)
  {
    var n, w := RoundOf(cfg);
    var gap := GapOf(cfg);
    var paid := TwoRoundsOverrun(cfg, n, w, gap);
    assert w + gap - EVICT_AFTER - w == gap - EVICT_AFTER;
    ops, keep := DenialShows(cfg, n, w, w + gap - EVICT_AFTER, w + gap, w + gap + w, paid);
  }

  lemma MoreShows(cfg: Config, ops: seq<Op>, keep: seq<bool>, to: real)
    requires |keep| == |ops| && Timed(ops) && DropsOnlyDenied(cfg, ops, keep)
    requires Allowed(cfg, ops, KEY, 0.0, to) < Allowed(cfg, Keep(ops, keep), KEY, 0.0, to)
    ensures !Invisible(cfg, ops, keep)
  {
    if Invisible(cfg, ops, keep) {
      InvisibleCount(cfg, ops, keep, KEY, 0.0, to);
    }
  }

  lemma SmallBurstShows(cfg: Config) returns (ops: seq<Op>, keep: seq<bool>)
    requires 0.0 < cfg.rate && cfg.burst < 1.0
    ensures |keep| == |ops| && KeepsCleanups(ops, keep) && !Invisible(cfg, ops, keep)
  {
    var t := EVICT_AFTER + 1.0;
    var first, denied := [Request(KEY, 0.0)], Request(KEY, t - EVICT_AFTER);
    var rest := [Cleanup(t - EVICT_AFTER, t), Request(KEY, t)];
    SecondIsDenied(cfg, t - EVICT_AFTER);
    assert first + [denied] == [Request(KEY, 0.0), Request(KEY, t - EVICT_AFTER)];
    DecisionsStep(cfg, first + [denied]);
    OneIsDropped(cfg, first, denied, rest);
    ops, keep := first + [denied] + rest, ButOne(4, 1);
    ForgottenIsAdmitted(cfg, t);
    assert first + rest == [Request(KEY, 0.0), Cleanup(t - EVICT_AFTER, t), Request(KEY, t)];
    StaysDenied(cfg, t);
    assert ops == [Request(KEY, 0.0), denied, rest[0], rest[1]];
    var answers := Keep(Decisions(cfg, ops), keep);
    assert !answers[|answers| - 1];
    assert Timed(ops);
    assert !Invisible(cfg, ops, keep);
  }

  /** A denied request in time for the cleanup pass keeps the bucket, and the key denied. */
  lemma StaysDenied(cfg: Config, t: real)
    requires cfg.burst < 1.0
    ensures var cutoff := t - EVICT_AFTER;
            Decisions(cfg, [Request(KEY, 0.0), Request(KEY, cutoff), Cleanup(cutoff, t), Request(KEY, t)])
            == [true, false, false, false]
  {
    var two := [Request(KEY, 0.0), Request(KEY, t - EVICT_AFTER)];
    var three := [Request(KEY, 0.0), Request(KEY, t - EVICT_AFTER), Cleanup(t - EVICT_AFTER, t)];
    SecondIsDenied(cfg, t - EVICT_AFTER);
    assert two[..1] == [two[0]];
    OneMore(cfg, [two[0]], two[1]);
    assert [two[0]] + [two[1]] == two;
    OneMore(cfg, two, three[2]);
    assert two + [three[2]] == three;
    OneMore(cfg, three, Request(KEY, t));
    assert three + [Request(KEY, t)]
        == [Request(KEY, 0.0), Request(KEY, t - EVICT_AFTER), Cleanup(t - EVICT_AFTER, t), Request(KEY, t)];
  }

  /** Deleting some of the denied requests, with every cleanup pass kept, is invisible in every trace
      under the same condition as forgetting: a denied request that stays may be what keeps a bucket
      from being forgotten before it is full. */
  lemma SomeDeniedExactly(cfg: Config)
    requires 0.0 < cfg.rate
    ensures (forall ops, keep :: |keep| == |ops| && KeepsCleanups(ops, keep) ==> Invisible(cfg, ops, keep))
            <==> 1.0 <= cfg.burst <= 180.0 * cfg.rate
  {
    if cfg.burst < 1.0 {
      var ops, keep := SmallBurstShows(cfg);
    } else if ForgetsOnlyFull(cfg) {
      forall ops, keep | |keep| == |ops| && KeepsCleanups(ops, keep)
        ensures Invisible(cfg, ops, keep)
      {
        LeftOutInvisible(cfg, ops, keep);
      }
    } else {
      var ops, keep := LateDenialShows(cfg);
    }
  }
}
