/** What is promised of the publisher, for every run: no session is leaked or closed twice, one
    dial at a time, each generation replaced once, a message handed off at most once and retried
    only on a newer session, a broker that is down dialed no faster than the cooldown, and every
    Publish call able to finish. */
module PublisherTheorems {
  import opened Options
  import opened Publisher
  import opened PublisherProofs

  // ---------------------------------------------------------------- no session is leaked

  /** How many places account for session x: being current, each close() so far, and each call
      that is about to install or to close it. */
  ghost function Places(st: System, x: Session): nat {
    (if st.sh.cur == Some(x) then 1 else 0) + st.closed[x] + |set c | c in st.procs && Held(st, c, x)|
  }

  lemma OneHolder(holders: set<CallId>, c: CallId)
    requires c in holders && forall d :: d in holders ==> d == c
    ensures |holders| == 1
  {
    assert holders == {c};
  }

  /** Conservation of sessions: every session ever dialed is accounted for exactly once, and
      nothing else is. */
  lemma NoLeak(startup: bool, events: seq<Event>, x: Session)
    ensures var st := Run(startup, events); Places(st, x) == if x < st.dialed then 1 else 0
  {
    RunInv(startup, events);
    var st := Run(startup, events);
    var holders := set c | c in st.procs && Held(st, c, x);
    if c :| c in holders {
      assert Held(st, c, x);
      OneHolder(holders, c);
    } else {
      assert holders == {};
      assert forall c :: !Held(st, c, x) by {
        forall c
          ensures !Held(st, c, x)
        {
          assert c !in holders;
        }
      }
    }
  }

  predicate Quiescent(st: System) {
    forall c :: c in st.procs ==> st.procs[c].pc.Finished?
  }

  /** With no call in progress every session but the current one has been closed, exactly once. */
  lemma QuietMeansClosed(startup: bool, events: seq<Event>, x: Session)
    requires var st := Run(startup, events); Quiescent(st) && x < st.dialed
    ensures var st := Run(startup, events); st.closed[x] == if st.sh.cur == Some(x) then 0 else 1
  {
    NoLeak(startup, events, x);
    var st := Run(startup, events);
    assert (set c | c in st.procs && Held(st, c, x)) == {};
  }

  // ---------------------------------------------------------------- single flight

  /** `inflight` is set exactly while one call leads; the leader is the only one, still at the
      generation that failed, and nobody waits for a channel that will not be closed. */
  lemma SingleFlight(startup: bool, events: seq<Event>)
    ensures var st := Run(startup, events);
            && (st.sh.inflight.Some? <==> exists c :: c in st.procs && Leads(st.procs[c].pc))
            && (forall c, d :: (&& c in st.procs && d in st.procs
                                && Leads(st.procs[c].pc) && Leads(st.procs[d].pc)) ==> c == d)
            && (forall c :: c in st.procs && Leads(st.procs[c].pc) ==>
                  st.procs[c].pc.failedGen == st.sh.gen && st.sh.inflight == Some(st.procs[c].pc.done))
            && (forall c :: c in st.procs && st.procs[c].pc.Waiting? ==>
                  st.procs[c].pc.ch in st.closedChannels || st.sh.inflight == Some(st.procs[c].pc.ch))
            && (st.sh.inflight.Some? ==> st.sh.inflight.value !in st.closedChannels)
  {
    RunInv(startup, events);
    var st := Run(startup, events);
    if st.sh.inflight.Some? {
      assert Leads(st.procs[st.leader.value].pc);
    }
  }

  lemma RunGenInv(startup: bool, events: seq<Event>)
    ensures GenInv(Run(startup, events))
  {
    RunInv(startup, events);
  }

  /** `gen` counts the sessions ever installed, `cur` is the last of them, no session is installed
      twice, and `cur` is nil only until the first one. */
  lemma GenerationsCountInstalls(startup: bool, events: seq<Event>)
    ensures var st := Run(startup, events);
            && st.sh.gen == |st.installed|
            && (st.sh.cur.None? <==> st.sh.gen == 0)
            && (st.sh.gen > 0 ==> st.sh.cur == Some(st.installed[st.sh.gen - 1]))
            && (forall i, j :: 0 <= i < j < |st.installed| ==> st.installed[i] != st.installed[j])
  {
    RunGenInv(startup, events);
  }

  lemma OnlySettleInstalls(st: System, e: Event)
    ensures var after := Step(st, e);
            && st.installed <= after.installed
            && (after.sh.gen != st.sh.gen || after.sh.cur != st.sh.cur ==>
                  && e.Move? && e.c in st.procs && st.procs[e.c].pc.Dialed?
                  && after.sh.gen == st.sh.gen + 1
                  && after.sh.cur == st.procs[e.c].pc.result)
  {
  }

  /** Only the leader's second critical section replaces the session: it moves the generation on
      by one, from the very generation that failed for it, so no generation is replaced twice. */
  lemma ReplacedOnce(startup: bool, events: seq<Event>, e: Event)
    ensures var st := Run(startup, events);
            var after := Step(st, e);
            && st.installed <= after.installed
            && (after.sh.gen != st.sh.gen || after.sh.cur != st.sh.cur ==>
                  && e.Move? && e.c in st.procs && st.procs[e.c].pc.Dialed?
                  && st.procs[e.c].pc.failedGen == st.sh.gen
                  && after.sh.gen == st.sh.gen + 1
                  && after.sh.cur == st.procs[e.c].pc.result)
  {
    RunInv(startup, events);
    OnlySettleInstalls(Run(startup, events), e);
  }

  // ---------------------------------------------------------------- one Publish call

  /** Number of times a call handed its message to a broker connection. */
  function HandOffs(attempts: seq<Attempt>): nat {
    if attempts == [] then 0
    else (if attempts[0].handedOff then 1 else 0) + HandOffs(attempts[1..])
  }

  lemma RunCallOk(startup: bool, events: seq<Event>, c: CallId)
    requires c in Run(startup, events).procs
    ensures var st := Run(startup, events); GenInv(st) && CallOk(st.installed, st.procs[c])
  {
    RunInv(startup, events);
  }

  lemma HandOffsBound(installed: seq<Session>, attempts: seq<Attempt>)
    requires AttemptsOk(installed, attempts)
    ensures HandOffs(attempts) <= 1
  {
    if attempts != [] {
      assert |attempts[1..]| <= 1;
      if |attempts| == 2 {
        assert attempts[1..][1..] == [];
      }
    }
  }

  /** A message is handed off at most once, with at most two publishes and two dials, and never
      through a nil session. */
  lemma AtMostOnce(startup: bool, events: seq<Event>, c: CallId)
    requires c in Run(startup, events).procs
    ensures var p := Run(startup, events).procs[c];
            && HandOffs(p.attempts) <= 1
            && |p.attempts| <= 2 && p.dials <= 2
            && !p.pc.Panicked?
            && (p.pc.Sending? ==> p.pc.target.Some?)
  {
    RunCallOk(startup, events, c);
    var st := Run(startup, events);
    HandOffsBound(st.installed, st.procs[c].attempts);
  }

  /** Every publish was on the session installed at its generation; the retry is on a strictly
      newer generation, and another session, than the attempt that failed. */
  lemma RetryIsNewer(startup: bool, events: seq<Event>, c: CallId)
    requires c in Run(startup, events).procs
    ensures var st := Run(startup, events);
            var attempts := st.procs[c].attempts;
            && (forall i :: 0 <= i < |attempts| ==>
                  0 < attempts[i].g <= |st.installed| && attempts[i].session == st.installed[attempts[i].g - 1])
            && (|attempts| == 2 ==>
                  && !attempts[0].handedOff
                  && attempts[0].g < attempts[1].g
                  && attempts[0].session != attempts[1].session)
  {
    RunCallOk(startup, events, c);
  }

  /** A bound on the actions a call still takes; it finishes within 13 of its own. */
  function Remaining(pc: Pc): nat {
    match pc
    case Called => 13
    case Reconnecting(_, again) => if again then 6 else 12
    case Waiting(_, _, again, _) => if again then 5 else 11
    case Dialing(_, _, again) => if again then 5 else 11
    case Rechecking(_, again) => if again then 4 else 10
    case Dialed(_, _, again, _) => if again then 4 else 10
    case Closing(_, _, again) => if again then 3 else 9
    case Reconnected(_, again) => if again then 2 else 8
    case Sending(_, _, again) => if again then 1 else 7
    case Finished => 0
    case Panicked => 0
  }

  lemma LocalShrinks(st: System, p: Proc, ok: bool)
    requires Local(p.pc)
    ensures var pc := LocalStep(st, p, ok).pc;
            && (pc == p.pc || Remaining(pc) < Remaining(p.pc))
            && (pc == p.pc ==> pc.Finished? || pc.Panicked? || pc.Waiting?)
  {
  }

  lemma EnterShrinks(st: System, c: CallId, f: Generation, again: bool)
    requires c in st.procs && st.procs[c].pc == Reconnecting(f, again)
    ensures var after := EnterStep(st, c, f, again);
            && after.procs.Keys == st.procs.Keys
            && (forall d :: d in st.procs && d != c ==> after.procs[d] == st.procs[d])
            && Remaining(after.procs[c].pc) < Remaining(st.procs[c].pc)
  {
  }

  lemma LeaderShrinks(st: System, c: CallId, ok: bool)
    requires c in st.procs && (Leads(st.procs[c].pc) || st.procs[c].pc.Closing?)
    ensures var after := MoveStep(st, c, ok);
            && after.procs.Keys == st.procs.Keys
            && (forall d :: d in st.procs && d != c ==> after.procs[d] == st.procs[d])
            && Remaining(after.procs[c].pc) < Remaining(st.procs[c].pc)
  {
  }

  /** Every action of a call brings it closer to the end and disturbs no other call, except that
      a waiter may have to stay where it is. */
  lemma ActionsAreFinite(st: System, c: CallId, ok: bool)
    requires c in st.procs
    ensures var pc := st.procs[c].pc;
            var after := Step(st, Move(c, ok));
            && after.procs.Keys == st.procs.Keys
            && (forall d :: d in st.procs && d != c ==> after.procs[d] == st.procs[d])
            && (after.procs[c].pc == pc || Remaining(after.procs[c].pc) < Remaining(pc))
            && (after.procs[c].pc == pc ==> pc.Finished? || pc.Panicked? || pc.Waiting?)
  {
    var pc := st.procs[c].pc;
    if Local(pc) {
      LocalShrinks(st, st.procs[c], ok);
    } else if pc.Reconnecting? {
      EnterShrinks(st, c, pc.failedGen, pc.again);
    } else {
      LeaderShrinks(st, c, ok);
    }
  }

  /** A waiter stays only while another call leads and its own deadline, never further away than
      the bounded wait, is ahead. */
  lemma WaitersAreReleased(startup: bool, events: seq<Event>, c: CallId)
    requires var st := Run(startup, events); c in st.procs && st.procs[c].pc.Waiting?
    ensures var st := Run(startup, events);
            var pc := st.procs[c].pc;
            && (Step(st, Move(c, true)).procs[c].pc == pc ==>
                  exists d :: d in st.procs && d != c && Leads(st.procs[d].pc) && st.procs[d].pc.done == pc.ch)
            && (Step(st, Move(c, false)).procs[c].pc == pc ==> st.now < pc.deadline)
            && pc.deadline <= st.now + RECONNECT_WAIT
  {
    RunInv(startup, events);
    var st := Run(startup, events);
    var pc := st.procs[c].pc;
    if pc.ch !in st.closedChannels {
      assert Leads(st.procs[st.leader.value].pc);
    }
  }

  lemma RunSnoc(startup: bool, events: seq<Event>, e: Event)
    ensures Run(startup, events + [e]) == Step(Run(startup, events), e)
  {
    assert (events + [e])[..|events|] == events;
  }

  /** `after` is `st` except for what call c has done. */
  ghost predicate OnlyMoved(st: System, after: System, c: CallId) {
    && after.procs.Keys == st.procs.Keys
    && forall d :: d in st.procs && d != c ==> after.procs[d] == st.procs[d]
  }

  predicate NoNewCalls(events: seq<Event>) {
    forall i :: 0 <= i < |events| ==> !events[i].Call?
  }

  /** A waiter gives up once its deadline has passed. */
  lemma WaiterGivesUp(startup: bool, events: seq<Event>, c: CallId) returns (more: seq<Event>)
    requires c in Run(startup, events).procs && Run(startup, events).procs[c].pc.Waiting?
    ensures NoNewCalls(more) && OnlyMoved(Run(startup, events), Run(startup, events + more), c)
    ensures Run(startup, events + more).procs[c].pc.Finished?
  {
    var deadline := Run(startup, events).procs[c].pc.deadline;
    more := [Tick(deadline), Move(c, false)];
    assert events + more == events + [Tick(deadline)] + [Move(c, false)];
    RunSnoc(startup, events, Tick(deadline));
    RunSnoc(startup, events + [Tick(deadline)], Move(c, false));
  }

  /** A call that is neither finished nor waiting moves on. */
  lemma CallMovesOn(startup: bool, events: seq<Event>, c: CallId)
    requires c in Run(startup, events).procs
    requires !Run(startup, events).procs[c].pc.Finished? && !Run(startup, events).procs[c].pc.Waiting?
    ensures var st, after := Run(startup, events), Run(startup, events + [Move(c, false)]);
            OnlyMoved(st, after, c) && Remaining(after.procs[c].pc) < Remaining(st.procs[c].pc)
  {
    AtMostOnce(startup, events, c);
    ActionsAreFinite(Run(startup, events), c, false);
    RunSnoc(startup, events, Move(c, false));
  }

  lemma OnlyMovedAgain(st: System, mid: System, after: System, c: CallId)
    requires OnlyMoved(st, mid, c) && OnlyMoved(mid, after, c)
    ensures OnlyMoved(st, after, c)
  {
  }

  /** From any state a call can reach its end on its own, whatever the others are doing. */
  lemma {:induction false} CallCanFinish(startup: bool, events: seq<Event>, c: CallId) returns (more: seq<Event>)
    requires c in Run(startup, events).procs
    ensures NoNewCalls(more) && OnlyMoved(Run(startup, events), Run(startup, events + more), c)
    ensures Run(startup, events + more).procs[c].pc.Finished?
    decreases Remaining(Run(startup, events).procs[c].pc)
  {
    var st := Run(startup, events);
    if st.procs[c].pc.Finished? {
      more := [];
      assert events + more == events;
    } else if st.procs[c].pc.Waiting? {
      more := WaiterGivesUp(startup, events, c);
    } else {
      CallMovesOn(startup, events, c);
      var moved := events + [Move(c, false)];
      var rest := CallCanFinish(startup, moved, c);
      more := [Move(c, false)] + rest;
      assert events + more == moved + rest;
      OnlyMovedAgain(st, Run(startup, moved), Run(startup, moved + rest), c);
    }
  }

  ghost function Unfinished(st: System): set<CallId> {
    set c | c in st.procs && !st.procs[c].pc.Finished?
  }

  lemma NoneUnfinished(st: System)
    requires Unfinished(st) == {}
    ensures Quiescent(st)
  {
    assert forall c :: c in st.procs ==> c !in Unfinished(st);
  }

  lemma OneFinished(st: System, after: System, c: CallId)
    requires c in Unfinished(st) && OnlyMoved(st, after, c) && after.procs[c].pc.Finished?
    ensures |Unfinished(after)| < |Unfinished(st)|
  {
    assert Unfinished(after) == Unfinished(st) - {c};
  }

  lemma RunNothing(startup: bool, events: seq<Event>, none: seq<Event>)
    requires none == []
    ensures Run(startup, events + none) == Run(startup, events)
  {
    assert events + none == events;
  }

  lemma RunTwice(startup: bool, events: seq<Event>, first: seq<Event>, rest: seq<Event>)
    ensures Run(startup, events + (first + rest)) == Run(startup, events + first + rest)
  {
    assert events + (first + rest) == events + first + rest;
  }

  lemma OneCallFinishes(startup: bool, events: seq<Event>) returns (more: seq<Event>)
    requires Unfinished(Run(startup, events)) != {}
    ensures NoNewCalls(more)
    ensures |Unfinished(Run(startup, events + more))| < |Unfinished(Run(startup, events))|
  {
    var c :| c in Unfinished(Run(startup, events));
    more := CallCanFinish(startup, events, c);
    OneFinished(Run(startup, events), Run(startup, events + more), c);
  }

  /** So from every reachable state all calls can finish: no deadlock, and nobody waits for ever. */
  lemma {:induction false} AllCanFinish(startup: bool, events: seq<Event>) returns (more: seq<Event>)
    ensures NoNewCalls(more) && Quiescent(Run(startup, events + more))
    decreases |Unfinished(Run(startup, events))|
  {
    if Unfinished(Run(startup, events)) == {} {
      more := [];
      RunNothing(startup, events, more);
      NoneUnfinished(Run(startup, events));
    } else {
      var first := OneCallFinishes(startup, events);
      var rest := AllCanFinish(startup, events + first);
      more := first + rest;
      RunTwice(startup, events, first, rest);
    }
  }

  // ---------------------------------------------------------------- dialing a broker that is down

  /** No dial starts while another runs, nor within the cooldown of one that failed. */
  lemma DialsSpaced(startup: bool, events: seq<Event>, i: nat, j: nat)
    requires i < j < |Run(startup, events).log|
    ensures var log := Run(startup, events).log;
            && log[i].end.Some? && log[i].start <= log[i].end.value
            && log[i].end.value <= log[j].start
            && (!log[i].ok ==> log[i].end.value + RECONNECT_COOLDOWN <= log[j].start)
  {
    RunInv(startup, events);
    var st := Run(startup, events);
    assert DialOk(st.log[i], st.now) && Spaced(st.log[i], st.log[j]);
  }

  predicate FailedRecently(d: Dial, now: Time) {
    d.end.Some? && !d.ok && now - d.end.value < RECONNECT_COOLDOWN
  }

  lemma {:induction false} LastFailureIsLogged(log: seq<Dial>)
    requires LastFailure(log).Some?
    ensures exists d :: d in log && d.end == LastFailure(log) && !d.ok
  {
    var d := log[|log| - 1];
    if d.end.Some? && !d.ok {
      assert d in log;
    } else {
      LastFailureIsLogged(log[..|log| - 1]);
      var e :| e in log[..|log| - 1] && e.end == LastFailure(log) && !e.ok;
      assert e in log;
    }
  }

  /** A call whose session was not replaced, with no dial running, fails fast if and only if some
      dial failed less than the cooldown ago; otherwise it dials. */
  lemma FailsFastExactlyInCooldown(startup: bool, events: seq<Event>, failedGen: Generation)
    requires var sh := Run(startup, events).sh; sh.inflight.None? && !Replaced(sh, failedGen)
    ensures var st := Run(startup, events);
            var e := Enter(st.sh, failedGen, st.now, st.channels).1;
            if exists d :: d in st.log && FailedRecently(d, st.now) then e.CoolingDown? else e.Lead?
  {
    RunInv(startup, events);
    var st := Run(startup, events);
    if d :| d in st.log && FailedRecently(d, st.now) {
      var i :| 0 <= i < |st.log| && st.log[i] == d;
      LogBounds(st, i);
    } else if st.sh.lastFail.Some? {
      LastFailureIsLogged(st.log);
      var d :| d in st.log && d.end == st.sh.lastFail && !d.ok;
      assert !FailedRecently(d, st.now);
    }
  }

  lemma LogBounds(st: System, i: nat)
    requires LogInv(st) && i < |st.log| && st.log[i].end.Some? && !st.log[i].ok
    ensures st.sh.lastFail.Some? && st.log[i].end.value <= st.sh.lastFail.value
  {
    forall j | 0 <= j < |st.log| && st.log[j].end.Some?
      ensures st.log[j].start <= st.log[j].end.value
    {
      assert DialOk(st.log[j], st.now);
    }
    LastFailureBounds(st.log, i);
  }

  /** Dials of the log that start in [from, to]. */
  function StartsIn(log: seq<Dial>, from: Time, to: Time): nat {
    if log == [] then 0
    else
      var d := log[|log| - 1];
      StartsIn(log[..|log| - 1], from, to) + (if from <= d.start <= to then 1 else 0)
  }

  ghost predicate AllSpaced(log: seq<Dial>) {
    && (forall i :: 0 <= i < |log| && log[i].end.Some? ==> log[i].start <= log[i].end.value)
    && (forall i, j :: 0 <= i < j < |log| ==> Spaced(log[i], log[j]))
  }

  lemma {:induction false} SpacedCount(log: seq<Dial>, from: Time, to: Time)
    requires AllSpaced(log) && from <= to
    requires forall i :: 0 <= i < |log| && log[i].end.Some? && from <= log[i].start <= to ==> !log[i].ok
    ensures StartsIn(log, from, to) <= (to - from) / RECONNECT_COOLDOWN + 1
    decreases |log|, to
  {
    if log != [] {
      var n := |log| - 1;
      var d := log[n];
      if from <= d.start <= to {
        // the earlier dials in the window all started a cooldown before this one
        if d.start < from + RECONNECT_COOLDOWN {
          NoneBefore(log[..n], from, to, d);
        } else {
          EarlierOnly(log[..n], from, to, d.start - RECONNECT_COOLDOWN, d);
          SpacedCount(log[..n], from, d.start - RECONNECT_COOLDOWN);
          DivStep(d.start - from);
          DivMonotone(d.start - from, to - from);
        }
      } else {
        SpacedCount(log[..n], from, to);
      }
    }
  }

  lemma DivStep(a: int)
    requires RECONNECT_COOLDOWN <= a
    ensures (a - RECONNECT_COOLDOWN) / RECONNECT_COOLDOWN == a / RECONNECT_COOLDOWN - 1
  {
  }

  lemma DivMonotone(a: int, b: int)
    requires 0 <= a <= b
    ensures a / RECONNECT_COOLDOWN <= b / RECONNECT_COOLDOWN
  {
  }

  lemma {:induction false} NoneBefore(log: seq<Dial>, from: Time, to: Time, next: Dial)
    requires forall i :: 0 <= i < |log| ==> Spaced(log[i], next)
    requires forall i :: 0 <= i < |log| && log[i].end.Some? ==> log[i].start <= log[i].end.value
    requires forall i :: 0 <= i < |log| && log[i].end.Some? && from <= log[i].start <= to ==> !log[i].ok
    requires next.start < from + RECONNECT_COOLDOWN
    ensures StartsIn(log, from, to) == 0
  {
    if log != [] {
      assert Spaced(log[|log| - 1], next);
      NoneBefore(log[..|log| - 1], from, to, next);
    }
  }

  lemma {:induction false} EarlierOnly(log: seq<Dial>, from: Time, to: Time, last: Time, next: Dial)
    requires forall i :: 0 <= i < |log| ==> Spaced(log[i], next)
    requires forall i :: 0 <= i < |log| && log[i].end.Some? ==> log[i].start <= log[i].end.value
    requires forall i :: 0 <= i < |log| && log[i].end.Some? && from <= log[i].start <= to ==> !log[i].ok
    requires from <= last <= to && next.start == last + RECONNECT_COOLDOWN
    ensures StartsIn(log, from, to) == StartsIn(log, from, last)
  {
    if log != [] {
      assert Spaced(log[|log| - 1], next);
      EarlierOnly(log[..|log| - 1], from, to, last, next);
    }
  }

  /** While every dial fails, any window of length T sees at most floor(T / cooldown) + 1 of them
      start, however many calls there are. */
  lemma DialRate(startup: bool, events: seq<Event>, from: Time, to: Time)
    requires from <= to
    requires forall d :: d in Run(startup, events).log && d.end.Some? && from <= d.start <= to ==> !d.ok
    ensures StartsIn(Run(startup, events).log, from, to) <= (to - from) / RECONNECT_COOLDOWN + 1
  {
    RunInv(startup, events);
    var st := Run(startup, events);
    forall i | 0 <= i < |st.log|
      ensures DialOk(st.log[i], st.now) && st.log[i] in st.log
    {
    }
    SpacedCount(st.log, from, to);
  }
}
