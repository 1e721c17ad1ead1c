/** What one Publish call does, read off runs: on which session it publishes, what it does when that
    fails, and how it joins or leads a reconnect. `ok` is what the environment decides of a move. */
module PublisherCalls {
  import opened Options
  import opened Publisher
  import opened PublisherProofs
  import opened PublisherTheorems

  /** A call that starts takes the current session, and asks for a reconnect when there is none. */
  lemma CallStarts(startup: bool, events: seq<Event>, c: CallId, ok: bool)
    requires c !in Run(startup, events).procs
    ensures var st, after := Run(startup, events), Run(startup, events + [Call(c)] + [Move(c, ok)]);
            && after.sh == st.sh && after.procs.Keys == st.procs.Keys + {c}
            && after.procs[c].attempts == [] && after.procs[c].dials == 0
            && after.procs[c].pc ==
                 if st.sh.cur.Some? then Sending(st.sh.cur, st.sh.gen, false) else Reconnecting(st.sh.gen, false)
  {
    RunSnoc(startup, events, Call(c));
    RunSnoc(startup, events + [Call(c)], Move(c, ok));
  }

  lemma SendStep(st: System, c: CallId, ok: bool)
    requires c in st.procs && st.procs[c].pc.Sending? && st.procs[c].pc.target.Some?
    ensures var p, after := st.procs[c], Step(st, Move(c, ok));
            && c in after.procs
            && after.procs[c].attempts == p.attempts + [Attempt(p.pc.target.value, p.pc.g, ok)]
            && after.procs[c].dials == p.dials
            && after.procs[c].pc == if ok || p.pc.again then Finished else Reconnecting(p.pc.g, true)
  {
  }

  /** A publish is on the session the call holds. It ends the call if it hands the message off, or
      if it is the retry; otherwise the call asks for a reconnect, and will retry. */
  lemma PublishEnds(startup: bool, events: seq<Event>, c: CallId, ok: bool)
    requires c in Run(startup, events).procs && Run(startup, events).procs[c].pc.Sending?
    ensures var p := Run(startup, events).procs[c];
            var after := Run(startup, events + [Move(c, ok)]);
            && p.pc.target.Some? && c in after.procs
            && after.procs[c].attempts == p.attempts + [Attempt(p.pc.target.value, p.pc.g, ok)]
            && after.procs[c].dials == p.dials
            && after.procs[c].pc == if ok || p.pc.again then Finished else Reconnecting(p.pc.g, true)
  {
    AtMostOnce(startup, events, c);
    RunSnoc(startup, events, Move(c, ok));
    SendStep(Run(startup, events), c, ok);
  }

  /** With a session that works, a message is handed off at the first attempt, without a dial. */
  lemma HealthyPublish(startup: bool, events: seq<Event>, c: CallId)
    requires c !in Run(startup, events).procs && Run(startup, events).sh.cur.Some?
    ensures var st := Run(startup, events);
            var after := Run(startup, events + [Call(c)] + [Move(c, true)] + [Move(c, true)]);
            && c in after.procs
            && after.procs[c] == Proc(Finished, [Attempt(st.sh.cur.value, st.sh.gen, true)], 0)
  {
    var started := events + [Call(c)] + [Move(c, true)];
    CallStarts(startup, events, c, true);
    PublishEnds(startup, started, c, true);
  }

  // ---------------------------------------------------------------- the first critical section

  /** There is a session newer than the one that failed. */
  predicate Renewed(sh: Shared, f: Generation) {
    sh.cur.Some? && sh.gen != f
  }

  ghost predicate CoolingDown(st: System) {
    exists d :: d in st.log && FailedRecently(d, st.now)
  }

  /** What a call does that asks for a reconnect: it goes on if the session has been replaced, else
      waits if a reconnect is under way, else gives up if a dial failed a moment ago, else leads a
      reconnect, with a channel of its own. */
  lemma ReconnectDecides(startup: bool, events: seq<Event>, c: CallId, f: Generation, again: bool, ok: bool)
    requires c in Run(startup, events).procs && Run(startup, events).procs[c].pc == Reconnecting(f, again)
    ensures var st, after := Run(startup, events), Run(startup, events + [Move(c, ok)]);
            && c in after.procs
            && if Renewed(st.sh, f) then
                 after.sh == st.sh && after.procs[c].pc == Reconnected(f, again)
               else if st.sh.inflight.Some? then
                 after.sh == st.sh
                 && after.procs[c].pc == Waiting(st.sh.inflight.value, f, again, st.now + 1_500_000_000)
               else if CoolingDown(st) then
                 after.sh == st.sh && after.procs[c].pc == Finished
               else
                 && after.procs[c].pc.Dialing? && after.procs[c].pc.failedGen == f && after.procs[c].pc.again == again
                 && after.procs[c].pc.done !in st.closedChannels
                 && after.sh == st.sh.(inflight := Some(after.procs[c].pc.done))
  {
    RunInv(startup, events);
    RunSnoc(startup, events, Move(c, ok));
    var st := Run(startup, events);
    if st.sh.inflight.None? && !Renewed(st.sh, f) {
      FailsFastExactlyInCooldown(startup, events, f);
    }
  }

  /** A call that finds the session replaced publishes on the new one. */
  lemma RenewedIsUsed(startup: bool, events: seq<Event>, c: CallId, f: Generation, again: bool, ok: bool)
    requires c in Run(startup, events).procs && Run(startup, events).procs[c].pc == Reconnecting(f, again)
    requires Renewed(Run(startup, events).sh, f)
    ensures var st, after := Run(startup, events), Run(startup, events + [Move(c, ok)] + [Move(c, ok)]);
            c in after.procs && after.procs[c].pc == Sending(st.sh.cur, st.sh.gen, again)
  {
    ReconnectDecides(startup, events, c, f, again, ok);
    GoesOn(startup, events + [Move(c, ok)], c, ok);
  }

  /** A call whose reconnect is over publishes on the session that is current then. */
  lemma GoesOn(startup: bool, events: seq<Event>, c: CallId, ok: bool)
    requires c in Run(startup, events).procs && Run(startup, events).procs[c].pc.Reconnected?
    ensures var st, after := Run(startup, events), Run(startup, events + [Move(c, ok)]);
            && after.sh == st.sh && c in after.procs
            && after.procs[c].pc == Sending(st.sh.cur, st.sh.gen, st.procs[c].pc.again)
  {
    RunSnoc(startup, events, Move(c, ok));
  }

  lemma ReconnectedStep(st: System, c: CallId, ok: bool)
    requires c in st.procs && st.procs[c].pc.Reconnected?
    ensures var after := Step(st, Move(c, ok));
            && c in after.procs && after.procs[c].pc == Sending(st.sh.cur, st.sh.gen, st.procs[c].pc.again)
            && after.sh == st.sh && after.closed == st.closed
  {
  }

  // ---------------------------------------------------------------- waiting for a reconnect

  lemma WokenStep(st: System, c: CallId)
    requires c in st.procs && st.procs[c].pc.Waiting? && st.procs[c].pc.ch in st.closedChannels
    ensures var pc, after := st.procs[c].pc, Step(st, Move(c, true));
            c in after.procs && after.procs[c].pc == Rechecking(pc.failedGen, pc.again) && after.sh == st.sh
  {
  }

  lemma CheckedStep(st: System, c: CallId, ok: bool)
    requires c in st.procs && st.procs[c].pc.Rechecking?
    ensures var pc, after := st.procs[c].pc, Step(st, Move(c, ok));
            && c in after.procs && after.sh == st.sh
            && after.procs[c].pc ==
                 if Renewed(st.sh, pc.failedGen) then Reconnected(pc.failedGen, pc.again) else Finished
  {
  }

  /** A waiter whose channel has been closed checks what came of it: it publishes on the new session
      if there is one, and gives up if there is not. */
  lemma WaiterGoesOn(startup: bool, events: seq<Event>, c: CallId, ok: bool)
    requires var st := Run(startup, events);
             c in st.procs && st.procs[c].pc.Waiting? && st.procs[c].pc.ch in st.closedChannels
    ensures var st := Run(startup, events);
            var pc := st.procs[c].pc;
            var checked := Run(startup, events + [Move(c, true)] + [Move(c, ok)]);
            var after := Run(startup, events + [Move(c, true)] + [Move(c, ok)] + [Move(c, ok)]);
            && c in checked.procs && c in after.procs
            && if Renewed(st.sh, pc.failedGen) then after.procs[c].pc == Sending(st.sh.cur, st.sh.gen, pc.again)
               else checked.procs[c].pc == Finished
  {
    var one := events + [Move(c, true)];
    var two := one + [Move(c, ok)];
    RunSnoc(startup, events, Move(c, true));
    WokenStep(Run(startup, events), c);
    RunSnoc(startup, one, Move(c, ok));
    CheckedStep(Run(startup, one), c, ok);
    RunSnoc(startup, two, Move(c, ok));
    if Renewed(Run(startup, events).sh, Run(startup, events).procs[c].pc.failedGen) {
      ReconnectedStep(Run(startup, two), c, ok);
    } else {
      assert Run(startup, two + [Move(c, ok)]).procs.Keys == Run(startup, two).procs.Keys;
    }
  }

  /** A waiter that takes its timer instead, at the deadline or later, gives up. */
  lemma WaiterTimesOut(startup: bool, events: seq<Event>, c: CallId)
    requires var st := Run(startup, events);
             c in st.procs && st.procs[c].pc.Waiting? && st.procs[c].pc.deadline <= st.now
    ensures var after := Run(startup, events + [Move(c, false)]);
            c in after.procs && after.procs[c].pc == Finished
  {
    RunSnoc(startup, events, Move(c, false));
  }

  // ---------------------------------------------------------------- leading a reconnect

  lemma DialedStep(st: System, c: CallId, dialed: bool)
    requires c in st.procs && st.procs[c].pc.Dialing?
    ensures var pc, after := st.procs[c].pc, Step(st, Move(c, dialed));
            && OnlyMoved(st, after, c) && after.sh == st.sh && after.now == st.now && after.closed == st.closed
            && after.procs[c].pc == Dialed(pc.done, pc.failedGen, pc.again, if dialed then Some(st.dialed) else None)
  {
  }

  lemma SettledStep(st: System, c: CallId, ok: bool)
    requires c in st.procs && st.procs[c].pc.Dialed? && st.procs[c].pc.done !in st.closedChannels && st.log != []
    ensures var pc, after := st.procs[c].pc, Step(st, Move(c, ok));
            && OnlyMoved(st, after, c) && after.now == st.now
            && pc.done in after.closedChannels && after.closed == st.closed
            && if pc.result.Some? then
                 && after.sh == Shared(pc.result, st.sh.gen + 1, None, st.sh.lastFail)
                 && after.procs[c].pc ==
                      if st.sh.cur.Some? then Closing(st.sh.cur.value, pc.failedGen, pc.again)
                      else Reconnected(pc.failedGen, pc.again)
               else
                 && after.sh == Shared(st.sh.cur, st.sh.gen, None, Some(st.now))
                 && after.procs[c].pc == Finished
  {
  }

  /** The leader holds an open channel, and its dial is in the log. */
  lemma LeaderHolds(startup: bool, events: seq<Event>, c: CallId)
    requires c in Run(startup, events).procs && Leads(Run(startup, events).procs[c].pc)
    ensures var st := Run(startup, events); st.procs[c].pc.done !in st.closedChannels && st.log != []
  {
    RunInv(startup, events);
  }

  /** The leader's dial has come to `result`, and it has taken the lock again. */
  lemma LeaderSettles(startup: bool, events: seq<Event>, c: CallId, dialed: bool, ok: bool)
    requires c in Run(startup, events).procs && Run(startup, events).procs[c].pc.Dialing?
    ensures var st := Run(startup, events);
            var pc := st.procs[c].pc;
            var after := Run(startup, events + [Move(c, dialed)] + [Move(c, ok)]);
            && OnlyMoved(st, after, c) && after.now == st.now
            && pc.done in after.closedChannels && after.closed == st.closed
            && if dialed then
                 && after.sh == Shared(Some(st.dialed), st.sh.gen + 1, None, st.sh.lastFail)
                 && after.procs[c].pc ==
                      if st.sh.cur.Some? then Closing(st.sh.cur.value, pc.failedGen, pc.again)
                      else Reconnected(pc.failedGen, pc.again)
               else
                 && after.sh == Shared(st.sh.cur, st.sh.gen, None, Some(st.now))
                 && after.procs[c].pc == Finished
  {
    var one := events + [Move(c, dialed)];
    RunSnoc(startup, events, Move(c, dialed));
    DialedStep(Run(startup, events), c, dialed);
    LeaderHolds(startup, one, c);
    RunSnoc(startup, one, Move(c, ok));
    SettledStep(Run(startup, one), c, ok);
    OnlyMovedAgain(Run(startup, events), Run(startup, one), Run(startup, one + [Move(c, ok)]), c);
  }

  lemma CloserStep(st: System, c: CallId, ok: bool)
    requires c in st.procs && st.procs[c].pc.Closing?
    ensures var pc, after := st.procs[c].pc, Step(st, Move(c, ok));
            && c in after.procs && after.procs[c].pc == Reconnected(pc.failedGen, pc.again)
            && after.sh == st.sh && after.closed == st.closed + multiset{pc.replaced}
  {
  }

  /** A leader whose dial succeeds closes the session it replaced, if there was one, and publishes on
      the one it dialed. */
  lemma LeaderPublishes(startup: bool, events: seq<Event>, c: CallId, ok: bool) returns (more: seq<Event>)
    requires c in Run(startup, events).procs && Run(startup, events).procs[c].pc.Dialing?
    ensures more == if Run(startup, events).sh.cur.Some?
                    then events + [Move(c, true)] + [Move(c, ok)] + [Move(c, ok)] + [Move(c, ok)]
                    else events + [Move(c, true)] + [Move(c, ok)] + [Move(c, ok)]
    ensures var st, after := Run(startup, events), Run(startup, more);
            && c in after.procs
            && after.procs[c].pc == Sending(Some(st.dialed), st.sh.gen + 1, st.procs[c].pc.again)
            && after.closed == st.closed + if st.sh.cur.Some? then multiset{st.sh.cur.value} else multiset{}
  {
    LeaderSettles(startup, events, c, true, ok);
    more := events + [Move(c, true)] + [Move(c, ok)];
    if Run(startup, events).sh.cur.Some? {
      RunSnoc(startup, more, Move(c, ok));
      CloserStep(Run(startup, more), c, ok);
      more := more + [Move(c, ok)];
    }
    RunSnoc(startup, more, Move(c, ok));
    ReconnectedStep(Run(startup, more), c, ok);
    more := more + [Move(c, ok)];
  }

  /** Single flight from the waiter's side: when the dial of the call it waits for succeeds, its own
      moves take it to a publish on the session that call dialed, at a newer generation than the one
      that failed for it. */
  lemma WaiterReuses(startup: bool, events: seq<Event>, c: CallId, leader: CallId, ok: bool)
    requires var st := Run(startup, events);
             && c in st.procs && leader in st.procs && c != leader
             && st.procs[c].pc.Waiting? && st.procs[leader].pc.Dialing?
             && st.procs[c].pc.ch !in st.closedChannels
    ensures var st := Run(startup, events);
            var settled := events + [Move(leader, true)] + [Move(leader, ok)];
            var after := Run(startup, settled + [Move(c, true)] + [Move(c, ok)] + [Move(c, ok)]);
            && st.procs[c].pc.failedGen < st.sh.gen + 1
            && c in after.procs
            && after.procs[c].pc == Sending(Some(st.dialed), st.sh.gen + 1, st.procs[c].pc.again)
  {
    RunInv(startup, events);
    var st := Run(startup, events);
    assert CallOk(st.installed, st.procs[c]);
    assert st.sh.inflight == Some(st.procs[leader].pc.done);
    LeaderSettles(startup, events, leader, true, ok);
    WaiterGoesOn(startup, events + [Move(leader, true)] + [Move(leader, ok)], c, ok);
  }

  /** While the broker is down, at most 31 dials start within any minute. */
  lemma OutageMinute(startup: bool, events: seq<Event>, from: Time)
    requires forall d :: (&& d in Run(startup, events).log && d.end.Some?
                          && from <= d.start <= from + 60_000_000_000) ==> !d.ok
    ensures StartsIn(Run(startup, events).log, from, from + 60_000_000_000) <= 31
  {
    DialRate(startup, events, from, from + 60_000_000_000);
  }
}
