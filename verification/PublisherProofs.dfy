/** What every interleaving of Publish calls keeps. The invariant is split by subject; `Step`
    preserves all of it, and the theorems at the end read it off for every run. */
module PublisherProofs {
  import opened Options
  import opened Publisher

  // ---------------------------------------------------------------- the invariant

  /** `installed` is the history of `cur`, and `gen` its length. */
  ghost predicate GenInv(st: System) {
    && st.sh.gen == |st.installed|
    && st.sh.cur == (if st.installed == [] then None else Some(st.installed[|st.installed| - 1]))
    && (forall i :: 0 <= i < |st.installed| ==> st.installed[i] < st.dialed)
    && (forall i, j :: 0 <= i < j < |st.installed| ==> st.installed[i] != st.installed[j])
  }

  predicate Leads(pc: Pc) {
    pc.Dialing? || pc.Dialed?
  }

  ghost predicate ChannelInv(st: System) {
    && (forall ch :: ch in st.closedChannels ==> ch < st.channels)
    && (st.sh.inflight.Some? ==> st.sh.inflight.value < st.channels && st.sh.inflight.value !in st.closedChannels)
    && (forall c :: c in st.procs && st.procs[c].pc.Waiting? ==>
          && (st.procs[c].pc.ch in st.closedChannels || st.sh.inflight == Some(st.procs[c].pc.ch))
          && st.procs[c].pc.deadline <= st.now + RECONNECT_WAIT)
  }

  ghost predicate LeaderInv(st: System) {
    && (st.sh.inflight.Some? <==> st.leader.Some?)
    && (st.leader.Some? ==> st.leader.value in st.procs && Leads(st.procs[st.leader.value].pc))
    && (forall c :: c in st.procs && Leads(st.procs[c].pc) ==>
          && st.leader == Some(c)
          && st.sh.inflight == Some(st.procs[c].pc.done)
          && st.procs[c].pc.failedGen == st.sh.gen)
  }

  predicate Holds(pc: Pc, x: Session) {
    || (pc.Closing? && pc.replaced == x)
    || (pc.Dialed? && pc.result == Some(x))
  }

  predicate Held(st: System, c: CallId, x: Session) {
    c in st.procs && Holds(st.procs[c].pc, x)
  }

  /** A session is current, closed, or in the hands of one call. */
  ghost predicate OwnInv(st: System) {
    && (forall x :: x in st.closed ==> st.closed[x] == 1 && x < st.dialed && st.sh.cur != Some(x))
    && (forall c, x: Session :: Held(st, c, x) ==> x < st.dialed && st.sh.cur != Some(x) && x !in st.closed)
    && (forall c, d, x: Session :: Held(st, c, x) && Held(st, d, x) ==> c == d)
    && (forall x :: 0 <= x < st.dialed ==>
          st.sh.cur == Some(x) || x in st.closed || exists c: CallId :: Held(st, c, x))
    && (forall c :: c in st.procs && st.procs[c].pc.Dialed? && st.procs[c].pc.result.Some? ==>
          st.procs[c].pc.result.value !in st.installed)
  }

  /** The publishes a call has made so far: at most two, on installed sessions, the second only
      after the first failed and at a newer generation. */
  predicate AttemptsOk(installed: seq<Session>, attempts: seq<Attempt>) {
    && |attempts| <= 2
    && (forall i :: 0 <= i < |attempts| ==>
          0 < attempts[i].g <= |installed| && installed[attempts[i].g - 1] == attempts[i].session)
    && (|attempts| == 2 ==> !attempts[0].handedOff && attempts[0].g < attempts[1].g)
  }

  /** In the retry the one publish so far failed, at a generation the retry knows about. */
  predicate Pass(attempts: seq<Attempt>, again: bool, above: int) {
    if again then |attempts| == 1 && !attempts[0].handedOff && attempts[0].g <= above
    else attempts == []
  }

  predicate CallOk(installed: seq<Session>, p: Proc) {
    && AttemptsOk(installed, p.attempts)
    && match p.pc
       case Called => p.attempts == [] && p.dials == 0
       case Reconnecting(f, again) =>
         Pass(p.attempts, again, f) && f <= |installed| && p.dials <= (if again then 1 else 0)
       case Waiting(_, f, again, _) =>
         Pass(p.attempts, again, f) && f <= |installed| && p.dials <= (if again then 1 else 0)
       case Rechecking(f, again) =>
         Pass(p.attempts, again, f) && f <= |installed| && p.dials <= (if again then 1 else 0)
       case Dialing(_, f, again) =>
         Pass(p.attempts, again, f) && f <= |installed| && p.dials <= (if again then 2 else 1)
       case Dialed(_, f, again, _) =>
         Pass(p.attempts, again, f) && f <= |installed| && p.dials <= (if again then 2 else 1)
       case Closing(_, f, again) =>
         Pass(p.attempts, again, f) && f < |installed| && p.dials <= (if again then 2 else 1)
       case Reconnected(f, again) =>
         Pass(p.attempts, again, f) && f < |installed| && p.dials <= (if again then 2 else 1)
       case Sending(target, g, again) =>
         && Pass(p.attempts, again, g - 1) && p.dials <= (if again then 2 else 1)
         && 0 < g <= |installed| && target == Some(installed[g - 1])
       case Finished => p.dials <= 2
       case Panicked => false
  }

  ghost predicate CallInv(st: System) {
    forall c :: c in st.procs ==> CallOk(st.installed, st.procs[c])
  }

  /** When the most recent dial that failed ended. */
  function LastFailure(log: seq<Dial>): Option<Time> {
    if log == [] then None
    else
      var d := log[|log| - 1];
      if d.end.Some? && !d.ok then d.end else LastFailure(log[..|log| - 1])
  }

  /** Dials follow one another, and a failed one is followed by the cooldown. */
  ghost predicate LogInv(st: System) {
    && st.sh.lastFail == LastFailure(st.log)
    && (st.leader.Some? <==> st.log != [] && st.log[|st.log| - 1].end.None?)
    && (forall i :: 0 <= i < |st.log| ==> DialOk(st.log[i], st.now) && (st.log[i].end.None? ==> i == |st.log| - 1))
    && (forall i, j :: 0 <= i < j < |st.log| ==> Spaced(st.log[i], st.log[j]))
  }

  predicate DialOk(d: Dial, now: Time) {
    d.start <= now && (d.end.Some? ==> d.start <= d.end.value <= now)
  }

  predicate Spaced(d: Dial, e: Dial) {
    d.end.Some? && d.end.value + (if d.ok then 0 else RECONNECT_COOLDOWN) <= e.start
  }

  ghost predicate Inv(st: System) {
    GenInv(st) && ChannelInv(st) && LeaderInv(st) && OwnInv(st) && CallInv(st) && LogInv(st)
  }

  // ---------------------------------------------------------------- one step keeps it

  /** `after` is `st` with call c's record replaced by p, and nothing forgotten. */
  ghost predicate Replaces(st: System, after: System, c: CallId, p: Proc) {
    && after.procs == st.procs[c := p]
    && st.installed <= after.installed
    && st.now == after.now
  }

  lemma CallInvKept(st: System, after: System, c: CallId, p: Proc)
    requires CallInv(st) && Replaces(st, after, c, p) && CallOk(after.installed, p)
    ensures CallInv(after)
  {
    forall d | d in after.procs
      ensures CallOk(after.installed, after.procs[d])
    {
      if d != c {
        assert CallOk(st.installed, st.procs[d]);
      }
    }
  }

  lemma OwnInvKept(st: System, after: System, c: CallId, p: Proc)
    requires OwnInv(st) && Replaces(st, after, c, p)
    requires after.sh.cur == st.sh.cur && after.dialed == st.dialed && after.closed == st.closed
    requires after.installed == st.installed
    requires c in st.procs ==> forall x: Session :: Holds(p.pc, x) <==> Holds(st.procs[c].pc, x)
    requires c !in st.procs ==> forall x: Session :: !Holds(p.pc, x)
    requires p.pc.Dialed? ==> p.pc.result.None?
    ensures OwnInv(after)
  {
    assert forall d, x: Session :: Held(after, d, x) <==> Held(st, d, x);
  }

  lemma LeaderInvKept(st: System, after: System, c: CallId, p: Proc)
    requires LeaderInv(st) && Replaces(st, after, c, p)
    requires after.sh.inflight == st.sh.inflight && after.sh.gen == st.sh.gen && after.leader == st.leader
    requires !Leads(p.pc) && (c in st.procs ==> !Leads(st.procs[c].pc))
    ensures LeaderInv(after)
  {
  }

  predicate MayWait(st: System, pc: Pc)
    requires pc.Waiting?
  {
    && (pc.ch in st.closedChannels || st.sh.inflight == Some(pc.ch))
    && pc.deadline <= st.now + RECONNECT_WAIT
  }

  lemma ChannelInvKept(st: System, after: System, c: CallId, p: Proc)
    requires ChannelInv(st) && Replaces(st, after, c, p)
    requires after.sh.inflight == st.sh.inflight && after.channels == st.channels
    requires after.closedChannels == st.closedChannels
    requires p.pc.Waiting? ==> MayWait(st, p.pc)
    ensures ChannelInv(after)
  {
  }

  /** A call that neither takes nor drops a session, a channel or the lead only owes its own
      part of the invariant. */
  lemma LocalMoveInv(st: System, after: System, c: CallId, p: Proc)
    requires Inv(st) && after == st.(procs := st.procs[c := p])
    requires !Leads(p.pc) && !p.pc.Closing?
    requires c in st.procs ==> !Leads(st.procs[c].pc) && !st.procs[c].pc.Closing?
    requires p.pc.Waiting? ==> MayWait(st, p.pc)
    requires CallOk(st.installed, p)
    ensures Inv(after)
  {
    CallInvKept(st, after, c, p);
    OwnInvKept(st, after, c, p);
    LeaderInvKept(st, after, c, p);
    ChannelInvKept(st, after, c, p);
  }

  /** A failed dial in the log has ended no later than the recorded last failure. */
  lemma {:induction false} LastFailureBounds(log: seq<Dial>, i: nat)
    requires i < |log| && log[i].end.Some? && !log[i].ok
    requires forall i, j :: 0 <= i < j < |log| ==> Spaced(log[i], log[j])
    requires forall i :: 0 <= i < |log| && log[i].end.Some? ==> log[i].start <= log[i].end.value
    ensures LastFailure(log).Some? && log[i].end.value <= LastFailure(log).value
  {
    var n := |log| - 1;
    if log[n].end.Some? && !log[n].ok {
      if i < n {
        assert Spaced(log[i], log[n]);
      }
    } else {
      assert log[..n][i] == log[i];
      LastFailureBounds(log[..n], i);
    }
  }

  /** Becoming the leader: the cooldown check is what spaces the new dial from failed ones. */
  lemma LeadLogInv(st: System, after: System, c: CallId)
    requires LogInv(st) && st.leader.None?
    requires st.sh.lastFail.Some? ==> st.sh.lastFail.value + RECONNECT_COOLDOWN <= st.now
    requires after.log == st.log + [Dial(st.now, None, false)] && after.now == st.now
    requires after.leader == Some(c) && after.sh.lastFail == st.sh.lastFail
    ensures LogInv(after)
  {
    var n := |st.log|;
    assert after.log[..n] == st.log;
    forall i | 0 <= i < n
      ensures Spaced(after.log[i], after.log[n])
    {
      assert DialOk(st.log[i], st.now);
      if !st.log[i].ok {
        LastFailureBounds(st.log, i);
      }
    }
    forall i, j | 0 <= i < j < |after.log|
      ensures Spaced(after.log[i], after.log[j])
    {
      if j < n {
        assert Spaced(st.log[i], st.log[j]);
      }
    }
    forall i | 0 <= i < |after.log|
      ensures DialOk(after.log[i], after.now) && (after.log[i].end.None? ==> i == |after.log| - 1)
    {
      if i < n {
        assert DialOk(st.log[i], st.now);
      }
    }
  }

  lemma LeadLeaderInv(st: System, after: System, c: CallId, f: Generation, again: bool)
    requires ChannelInv(st) && LeaderInv(st) && c in st.procs && st.procs[c].pc == Reconnecting(f, again)
    requires c in after.procs && Replaces(st, after, c, after.procs[c])
    requires st.sh.inflight.None? && f == st.sh.gen
    requires after.procs[c].pc == Dialing(st.channels, f, again)
    requires after.sh == st.sh.(inflight := Some(st.channels)) && after.leader == Some(c)
    requires after.channels == st.channels + 1 && after.closedChannels == st.closedChannels
    ensures ChannelInv(after) && LeaderInv(after)
  {
  }

  /** A call that finds the lead free failed at the current generation. */
  lemma LeadCallOk(st: System, p: Proc)
    requires GenInv(st) && CallOk(st.installed, p) && p.pc.Reconnecting?
    requires Enter(st.sh, p.pc.failedGen, st.now, st.channels).1.Lead?
    ensures p.pc.failedGen == st.sh.gen
    ensures CallOk(st.installed, p.(pc := Dialing(st.channels, p.pc.failedGen, p.pc.again), dials := p.dials + 1))
  {
  }

  /** What the leader's first critical section does, field by field. */
  ghost predicate Led(st: System, after: System, c: CallId, f: Generation, again: bool) {
    && c in st.procs && c in after.procs && Replaces(st, after, c, after.procs[c])
    && after.procs[c] == st.procs[c].(pc := Dialing(st.channels, f, again), dials := st.procs[c].dials + 1)
    && after.sh == st.sh.(inflight := Some(st.channels)) && after.leader == Some(c)
    && after.channels == st.channels + 1 && after.closedChannels == st.closedChannels
    && after.dialed == st.dialed && after.closed == st.closed && after.installed == st.installed
    && after.log == st.log + [Dial(st.now, None, false)]
  }

  lemma LeadShape(st: System, after: System, c: CallId, f: Generation, again: bool)
    requires c in st.procs && after == EnterStep(st, c, f, again)
    requires Enter(st.sh, f, st.now, st.channels).1 == Lead(st.channels)
    ensures Led(st, after, c, f, again) && st.sh.inflight.None?
    ensures st.sh.lastFail.Some? ==> st.sh.lastFail.value + RECONNECT_COOLDOWN <= st.now
  {
  }

  lemma LeadCallsInv(st: System, after: System, c: CallId, f: Generation, again: bool)
    requires GenInv(st) && OwnInv(st) && CallInv(st) && Led(st, after, c, f, again)
    requires st.procs[c].pc == Reconnecting(f, again) && CallOk(st.installed, after.procs[c])
    ensures GenInv(after) && OwnInv(after) && CallInv(after)
  {
    CallInvKept(st, after, c, after.procs[c]);
    OwnInvKept(st, after, c, after.procs[c]);
  }

  lemma LeadInv(st: System, after: System, c: CallId, f: Generation, again: bool)
    requires Inv(st) && c in st.procs && st.procs[c].pc == Reconnecting(f, again)
    requires Enter(st.sh, f, st.now, st.channels).1 == Lead(st.channels)
    requires after == EnterStep(st, c, f, again)
    ensures Inv(after)
  {
    LeadShape(st, after, c, f, again);
    LeadCallOk(st, st.procs[c]);
    LeadCallsInv(st, after, c, f, again);
    LeadLogInv(st, after, c);
    LeadLeaderInv(st, after, c, f, again);
  }

  /** The outcomes of the first critical section that take nothing. */
  lemma FollowInv(st: System, after: System, c: CallId, f: Generation, again: bool)
    requires GenInv(st) && c in st.procs && CallOk(st.installed, st.procs[c])
    requires st.procs[c].pc == Reconnecting(f, again)
    requires !Enter(st.sh, f, st.now, st.channels).1.Lead?
    requires after == EnterStep(st, c, f, again)
    ensures after == st.(procs := st.procs[c := after.procs[c]])
    ensures var pc := after.procs[c].pc;
            && !Leads(pc) && !pc.Closing?
            && (pc.Waiting? ==> MayWait(st, pc))
    ensures CallOk(st.installed, after.procs[c])
  {
  }

  lemma EnterStepInv(st: System, c: CallId, f: Generation, again: bool)
    requires Inv(st) && c in st.procs && st.procs[c].pc == Reconnecting(f, again)
    ensures Inv(EnterStep(st, c, f, again))
  {
    var after := EnterStep(st, c, f, again);
    if Enter(st.sh, f, st.now, st.channels).1.Lead? {
      LeadInv(st, after, c, f, again);
    } else {
      FollowInv(st, after, c, f, again);
      LocalMoveInv(st, after, c, after.procs[c]);
    }
  }

  lemma DialOwnInv(st: System, c: CallId, after: System)
    requires GenInv(st) && OwnInv(st) && c in st.procs && st.procs[c].pc.Dialing?
    requires after == DialStep(st, c, st.procs[c].pc, true)
    ensures OwnInv(after)
  {
    assert forall d, x: Session :: Held(after, d, x) <==> Held(st, d, x) || (d == c && x == st.dialed);
    forall x | 0 <= x < after.dialed
      ensures after.sh.cur == Some(x) || x in after.closed || exists d: CallId :: Held(after, d, x)
    {
      if x == st.dialed {
        assert Held(after, c, x);
      } else if !(st.sh.cur == Some(x) || x in st.closed) {
        var d :| Held(st, d, x);
        assert Held(after, d, x);
      }
    }
  }

  lemma DialLeaderInv(st: System, after: System, c: CallId, p: Proc)
    requires LeaderInv(st) && Replaces(st, after, c, p) && c in st.procs && st.procs[c].pc.Dialing?
    requires p.pc.Dialed? && p.pc.done == st.procs[c].pc.done && p.pc.failedGen == st.procs[c].pc.failedGen
    requires after.sh == st.sh && after.leader == st.leader
    ensures LeaderInv(after)
  {
  }

  lemma DialCallOk(installed: seq<Session>, p: Proc, result: Option<Session>)
    requires CallOk(installed, p) && p.pc.Dialing?
    ensures CallOk(installed, p.(pc := Dialed(p.pc.done, p.pc.failedGen, p.pc.again, result)))
  {
  }

  lemma DialOwnInvKept(st: System, c: CallId, ok: bool, after: System)
    requires GenInv(st) && OwnInv(st) && c in st.procs && st.procs[c].pc.Dialing?
    requires after == DialStep(st, c, st.procs[c].pc, ok)
    ensures OwnInv(after)
  {
    if ok {
      DialOwnInv(st, c, after);
    } else {
      OwnInvKept(st, after, c, after.procs[c]);
    }
  }

  /** What the return of the dial does, field by field. */
  ghost predicate DialReturned(st: System, after: System, c: CallId) {
    && c in st.procs && st.procs[c].pc.Dialing? && c in after.procs && Replaces(st, after, c, after.procs[c])
    && after.procs[c].pc.Dialed? && after.procs[c] == st.procs[c].(pc := after.procs[c].pc)
    && after.procs[c].pc.done == st.procs[c].pc.done
    && after.procs[c].pc.failedGen == st.procs[c].pc.failedGen && after.procs[c].pc.again == st.procs[c].pc.again
    && after.sh == st.sh && after.leader == st.leader && after.log == st.log
    && after.channels == st.channels && after.closedChannels == st.closedChannels
    && after.installed == st.installed && st.dialed <= after.dialed
  }

  lemma DialShape(st: System, c: CallId, ok: bool, after: System)
    requires c in st.procs && st.procs[c].pc.Dialing?
    requires after == DialStep(st, c, st.procs[c].pc, ok)
    ensures DialReturned(st, after, c)
  {
  }

  lemma DialRestInv(st: System, c: CallId, after: System)
    requires ChannelInv(st) && LeaderInv(st) && CallInv(st) && DialReturned(st, after, c)
    ensures ChannelInv(after) && LeaderInv(after) && CallInv(after)
  {
    var p := after.procs[c];
    DialCallOk(st.installed, st.procs[c], p.pc.result);
    CallInvKept(st, after, c, p);
    DialLeaderInv(st, after, c, p);
    ChannelInvKept(st, after, c, p);
  }

  lemma DialLogInv(st: System, c: CallId, after: System)
    requires GenInv(st) && LogInv(st) && DialReturned(st, after, c)
    ensures GenInv(after) && LogInv(after)
  {
  }

  lemma DialInv(st: System, c: CallId, ok: bool, after: System)
    requires Inv(st) && c in st.procs && st.procs[c].pc.Dialing?
    requires after == DialStep(st, c, st.procs[c].pc, ok)
    ensures Inv(after)
  {
    DialShape(st, c, ok, after);
    DialRestInv(st, c, after);
    DialLogInv(st, c, after);
    DialOwnInvKept(st, c, ok, after);
  }

  /** Installing a session hands the replaced one to the leader, which must close it. */
  lemma InstallOwnInv(st: System, after: System, c: CallId, x: Session)
    requires GenInv(st) && OwnInv(st) && c in st.procs
    requires st.procs[c].pc.Dialed? && st.procs[c].pc.result == Some(x)
    requires forall d :: d in st.procs && st.procs[d].pc.Dialed? ==> d == c
    requires after.procs.Keys == st.procs.Keys
    requires forall d :: d in st.procs && d != c ==> after.procs[d] == st.procs[d]
    requires after.sh.cur == Some(x) && after.dialed == st.dialed && after.closed == st.closed
    requires after.installed == st.installed + [x]
    requires var pc := after.procs[c].pc;
             if st.sh.cur.Some? then pc.Closing? && pc.replaced == st.sh.cur.value else pc.Reconnected?
    ensures GenInv(after.(sh := after.sh.(gen := st.sh.gen + 1))) && OwnInv(after)
  {
    assert Held(st, c, x);
    assert forall d, y: Session ::
        Held(after, d, y) <==> (Held(st, d, y) && d != c) || (d == c && st.sh.cur == Some(y));
    forall y | 0 <= y < after.dialed
      ensures after.sh.cur == Some(y) || y in after.closed || exists d: CallId :: Held(after, d, y)
    {
      if st.sh.cur == Some(y) {
        assert Held(after, c, y);
      } else if y != x && y !in st.closed {
        var d :| Held(st, d, y);
        assert Held(after, d, y);
      }
    }
  }

  lemma SettleOwnInv(st: System, c: CallId)
    requires Inv(st) && c in st.procs && st.procs[c].pc.Dialed?
    ensures var after := SettleStep(st, c, st.procs[c].pc); GenInv(after) && OwnInv(after)
  {
    var p := st.procs[c].pc;
    var after := SettleStep(st, c, p);
    assert st.leader == Some(c);
    if p.result.Some? {
      InstallOwnInv(st, after, c, p.result.value);
    } else {
      OwnInvKept(st, after, c, after.procs[c]);
    }
  }

  lemma SettleLogInv(st: System, after: System, ok: bool)
    requires LogInv(st) && st.leader.Some?
    requires var n := |st.log| - 1;
             after.log == st.log[..n] + [st.log[n].(end := Some(st.now), ok := ok)]
    requires after.leader.None? && after.now == st.now
    requires after.sh.lastFail == if ok then st.sh.lastFail else Some(st.now)
    ensures LogInv(after)
  {
    var n := |st.log| - 1;
    assert after.log[..n] == st.log[..n];
    assert DialOk(st.log[n], st.now);
    forall i | 0 <= i < |after.log|
      ensures DialOk(after.log[i], after.now) && after.log[i].end.Some?
    {
      assert DialOk(st.log[i], st.now);
    }
    forall i, j | 0 <= i < j < |after.log|
      ensures Spaced(after.log[i], after.log[j])
    {
      assert Spaced(st.log[i], st.log[j]);
    }
    assert st.sh.lastFail == LastFailure(st.log[..n]);
  }

  lemma SettleCallOk(installed: seq<Session>, after: seq<Session>, p: Proc, q: Proc)
    requires CallOk(installed, p) && p.pc.Dialed? && installed <= after
    requires p.pc.result.Some? ==> |installed| < |after|
    requires q == p.(pc := q.pc)
    requires q.pc == if p.pc.result.None? then Finished
                     else if q.pc.Closing? then Closing(q.pc.replaced, p.pc.failedGen, p.pc.again)
                     else Reconnected(p.pc.failedGen, p.pc.again)
    ensures CallOk(after, q)
  {
  }

  lemma SettleStepInv(st: System, c: CallId, after: System)
    requires Inv(st) && c in st.procs && st.procs[c].pc.Dialed?
    requires after == SettleStep(st, c, st.procs[c].pc)
    ensures Inv(after)
  {
    var p := st.procs[c].pc;
    assert st.leader == Some(c);
    SettleCallOk(st.installed, after.installed, st.procs[c], after.procs[c]);
    SettleOwnInv(st, c);
    SettleLogInv(st, after, p.result.Some?);
    CallInvKept(st, after, c, after.procs[c]);
    SettleChannelInv(st, after, c, p);
  }

  lemma SettleChannelInv(st: System, after: System, c: CallId, p: Pc)
    requires ChannelInv(st) && LeaderInv(st) && c in st.procs && st.procs[c].pc == p && p.Dialed?
    requires c in after.procs && Replaces(st, after, c, after.procs[c])
    requires !Leads(after.procs[c].pc) && !after.procs[c].pc.Waiting?
    requires after.channels == st.channels && after.closedChannels == st.closedChannels + {p.done}
    requires after.sh.inflight.None? && after.leader.None?
    ensures ChannelInv(after) && LeaderInv(after)
  {
    assert st.leader == Some(c);
  }

  lemma CloseOwnInv(st: System, c: CallId)
    requires OwnInv(st) && c in st.procs && st.procs[c].pc.Closing?
    ensures OwnInv(CloseStep(st, c, st.procs[c].pc))
  {
    var after := CloseStep(st, c, st.procs[c].pc);
    var x := st.procs[c].pc.replaced;
    assert Held(st, c, x);
    assert forall d, y: Session :: Held(after, d, y) <==> Held(st, d, y) && d != c;
    forall y | 0 <= y < after.dialed
      ensures after.sh.cur == Some(y) || y in after.closed || exists d: CallId :: Held(after, d, y)
    {
      if !(st.sh.cur == Some(y) || y in st.closed || y == x) {
        var d :| Held(st, d, y);
        assert Held(after, d, y);
      }
    }
  }

  lemma CloseCallOk(installed: seq<Session>, p: Proc, q: Proc)
    requires CallOk(installed, p) && p.pc.Closing?
    requires q == p.(pc := Reconnected(p.pc.failedGen, p.pc.again))
    ensures CallOk(installed, q)
  {
  }

  lemma CloseInv(st: System, c: CallId, after: System)
    requires Inv(st) && c in st.procs && st.procs[c].pc.Closing?
    requires after == CloseStep(st, c, st.procs[c].pc)
    ensures Inv(after)
  {
    var p := st.procs[c].(pc := Reconnected(st.procs[c].pc.failedGen, st.procs[c].pc.again));
    CloseCallOk(st.installed, st.procs[c], p);
    CallInvKept(st, after, c, p);
    LeaderInvKept(st, after, c, p);
    ChannelInvKept(st, after, c, p);
    CloseOwnInv(st, c);
  }

  predicate Local(pc: Pc) {
    !Leads(pc) && !pc.Reconnecting? && !pc.Closing?
  }

  /** A publish on the session installed at generation g is a good next attempt. */
  lemma SendOk(installed: seq<Session>, p: Proc, ok: bool)
    requires CallOk(installed, p) && p.pc.Sending?
    ensures CallOk(installed, Send(p, ok))
  {
  }

  lemma LocalOk(st: System, p: Proc, ok: bool)
    requires GenInv(st) && CallOk(st.installed, p) && Local(p.pc)
    ensures var q := LocalStep(st, p, ok);
            && CallOk(st.installed, q)
            && !Leads(q.pc) && !q.pc.Closing? && (q.pc.Waiting? ==> q.pc == p.pc)
  {
    if p.pc.Sending? {
      SendOk(st.installed, p, ok);
    }
  }

  lemma MoveInv(st: System, c: CallId, ok: bool)
    requires Inv(st) && c in st.procs
    ensures Inv(MoveStep(st, c, ok))
  {
    var pc := st.procs[c].pc;
    if Local(pc) {
      LocalOk(st, st.procs[c], ok);
      LocalMoveInv(st, MoveStep(st, c, ok), c, LocalStep(st, st.procs[c], ok));
    } else if pc.Reconnecting? {
      EnterStepInv(st, c, pc.failedGen, pc.again);
    } else if pc.Dialing? {
      DialInv(st, c, ok, MoveStep(st, c, ok));
    } else if pc.Dialed? {
      SettleStepInv(st, c, MoveStep(st, c, ok));
    } else {
      CloseInv(st, c, MoveStep(st, c, ok));
    }
  }

  lemma StepInv(st: System, e: Event)
    requires Inv(st)
    ensures Inv(Step(st, e))
  {
    match e
    case Call(c) =>
      if c !in st.procs {
        LocalMoveInv(st, Step(st, e), c, Proc(Called, [], 0));
      }
    case Tick(d) =>
      var after := Step(st, e);
      assert forall c, x: Session :: Held(after, c, x) <==> Held(st, c, x);
    case Move(c, ok) =>
      if c in st.procs {
        MoveInv(st, c, ok);
      }
  }

  lemma {:induction false} RunInv(startup: bool, events: seq<Event>)
    ensures Inv(Run(startup, events))
  {
    if events != [] {
      RunInv(startup, events[..|events| - 1]);
      StepInv(Run(startup, events[..|events| - 1]), events[|events| - 1]);
    }
  }
}
