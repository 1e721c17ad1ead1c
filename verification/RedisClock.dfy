/** The Redis limiter by Redis's own clock: TIME, in seconds and microseconds. */
module RedisClock {
  import opened TokenBucket
  import opened TokenBucketProofs
  import opened TokenBucketTheorems
  import opened RedisTheorems

  /** The clock of the script is TIME in whole milliseconds. */
  lemma MillisExactly(seconds: nat, micros: nat, n: nat)
    ensures n == Millis(seconds, micros) <==> n * 1000 <= seconds * 1_000_000 + micros < (n + 1) * 1000
    ensures Millis(seconds, micros) == (seconds * 1_000_000 + micros) / 1000
  {
  }

  /** One call, with TIME as the server had it. */
  datatype Call = Call(key: string, seconds: nat, micros: nat, dropped: bool)

  /** In microseconds. */
  function Instant(c: Call): nat {
    c.seconds * 1_000_000 + c.micros
  }

  /** In seconds, cut to milliseconds. */
  function Cut(instant: nat): real {
    (instant / 1000) as real / 1000.0
  }

  predicate InOrder(calls: seq<Call>) {
    forall i, j :: 0 <= i < j < |calls| ==> Instant(calls[i]) <= Instant(calls[j])
  }

  function AtServer(c: Call): Eval {
    Eval(c.key, Millis(c.seconds, c.micros), c.dropped)
  }

  function Evals(calls: seq<Call>): (evals: seq<Eval>)
    ensures |evals| == |calls|
    ensures forall i :: 0 <= i < |calls| ==> evals[i] == AtServer(calls[i])
  {
    seq(|calls|, i requires 0 <= i < |calls| => AtServer(calls[i]))
  }

  /** What the script answers them. */
  function Answers(cfg: Config, calls: seq<Call>): (ds: seq<bool>)
    requires cfg.rate != 0.0
    ensures |ds| == |calls|
  {
    Verdicts(cfg, Ttl(cfg), Evals(calls))
  }

  /** The same call made to an in-memory limiter whose clock is the instant cut to milliseconds. */
  function InProcess(c: Call): Op {
    Request(c.key, Cut(Instant(c)))
  }

  function OnMillis(calls: seq<Call>): (ops: seq<Op>)
    ensures |ops| == |calls|
    ensures forall i :: 0 <= i < |calls| ==> ops[i] == InProcess(calls[i])
  {
    seq(|calls|, i requires 0 <= i < |calls| => InProcess(calls[i]))
  }

  lemma DivOrder(a: nat, b: nat)
    requires a <= b
    ensures a / 1000 <= b / 1000 && Cut(a) <= Cut(b)
  {
  }

  lemma ReadingIsCut(c: Call)
    ensures AtServer(c).now == Instant(c) / 1000
    ensures Request(AtServer(c).key, AtServer(c).now as real / 1000.0) == InProcess(c)
  {
    MillisExactly(c.seconds, c.micros, 0);
  }

  lemma EvalsMonotone(calls: seq<Call>)
    requires InOrder(calls)
    ensures Monotone(Evals(calls))
  {
    forall i, j | 0 <= i < j < |calls|
      ensures Evals(calls)[i].now <= Evals(calls)[j].now
    {
      ReadingIsCut(calls[i]);
      ReadingIsCut(calls[j]);
      DivOrder(Instant(calls[i]), Instant(calls[j]));
    }
  }

  lemma SameRequests(calls: seq<Call>)
    ensures InMemory(Evals(calls)) == OnMillis(calls)
  {
    forall i | 0 <= i < |calls|
      ensures InMemory(Evals(calls))[i] == OnMillis(calls)[i]
    {
      ReadingIsCut(calls[i]);
    }
  }

  /** The refinement by Redis's own clock: the answers are those of an in-memory limiter on the
      instants cut to milliseconds. */
  lemma AnswersExactly(cfg: Config, calls: seq<Call>)
    requires Sound(cfg) && InOrder(calls)
    ensures Timed(OnMillis(calls))
    ensures Answers(cfg, calls) == Decisions(cfg, OnMillis(calls))
  {
    EvalsMonotone(calls);
    SameRequests(calls);
    TtlOutlasts(cfg);
    RedisRefinesInMemory(cfg, Ttl(cfg), Evals(calls));
  }

  /** Calls of `key` with an instant in [from, to], in microseconds, that `chosen` lets through. */
  function CountCalls(calls: seq<Call>, chosen: seq<bool>, key: string, from: nat, to: nat): nat
    requires |chosen| == |calls|
  {
    if calls == [] then 0
    else
      var n := |calls| - 1;
      CountCalls(calls[..n], chosen[..n], key, from, to) +
      if calls[n].key == key && from <= Instant(calls[n]) <= to && chosen[n] then 1 else 0
  }

  /** In whole milliseconds they are in the window from `first` to `last`. */
  lemma {:induction false} CountOnMillis(
    calls: seq<Call>, ops: seq<Op>, chosen: seq<bool>, key: string, from: nat, to: nat)
    requires ops == OnMillis(calls) && |chosen| == |calls|
    ensures CountCalls(calls, chosen, key, from, to) <= Count(ops, chosen, key, Cut(from), Cut(to))
  {
    if calls != [] {
      var n := |calls| - 1;
      assert ops[..n] == OnMillis(calls[..n]);
      CountOnMillis(calls[..n], ops[..n], chosen[..n], key, from, to);
      if from <= Instant(calls[n]) <= to {
        DivOrder(from, Instant(calls[n]));
        DivOrder(Instant(calls[n]), to);
      }
    }
  }

  lemma MillisBound(cfg: Config, calls: seq<Call>, key: string, from: nat, to: nat, paid: real)
    requires Sound(cfg) && InOrder(calls) && from <= to && paid == Earned(cfg, Cut(to) - Cut(from))
    ensures CountCalls(calls, Answers(cfg, calls), key, from, to) as real <= cfg.burst + paid
  {
    AnswersExactly(cfg, calls);
    CountOnMillis(calls, OnMillis(calls), Answers(cfg, calls), key, from, to);
    DivOrder(from, to);
    WindowBoundKept(cfg, OnMillis(calls), key, Cut(from), Cut(to), paid);
  }

  lemma CutLength(from: nat, to: nat)
    requires from <= to
    ensures Cut(to) - Cut(from) <= (to - from) as real / 1_000_000.0 + 0.001
  {
    var a, b := from / 1000, to / 1000;
    assert from <= a * 1000 + 999 && b * 1000 <= to;
    assert b * 1000 - a * 1000 <= to - from + 999;
    assert (b * 1000 - a * 1000) as real == b as real * 1000.0 - a as real * 1000.0;
  }

  lemma EarnedInWindow(cfg: Config, a: real, b: real, paid: real)
    requires 0.0 < cfg.rate && a <= b && paid == Earned(cfg, b)
    ensures Earned(cfg, a) <= paid
  {
    EarnedMonotone(cfg, a, b);
  }

  /** The window bound by Redis's own clock: cutting it to milliseconds costs at most one of them. */
  lemma RedisTimeBound(cfg: Config, calls: seq<Call>, key: string, from: nat, to: nat, window: real)
    requires Sound(cfg) && InOrder(calls) && from <= to
    requires window == (to - from) as real / 1_000_000.0 + 0.001
    ensures CountCalls(calls, Answers(cfg, calls), key, from, to) as real <= cfg.burst + window * cfg.rate
  {
    var least := Cut(to) - Cut(from);
    var paid := window * cfg.rate;
    CutLength(from, to);
    EarnedInWindow(cfg, least, window, paid);
    var e := Earned(cfg, least);
    MillisBound(cfg, calls, key, from, to, e);
  }
}
