/** The single-flight publisher of ticket-service.

    `class Publisher` is the struct of publisher.go; each of its methods is one critical section
    under `mu`. The whole system is an interleaving of those critical sections with the dials,
    waits, closes and publishes that run outside the lock: one program counter for every Publish
    call, one `Step` for every atomic action of one call. */
module Publisher {
  import opened Options

  type Session = nat     // the n-th session any dial ever returned
  type Generation = nat
  type Channel = nat     // the n-th channel reconnect ever made
  type CallId = nat
  type Time = nat        // nanoseconds

  const RECONNECT_WAIT: Time := 1_500_000_000
  const RECONNECT_COOLDOWN: Time := 2_000_000_000

  // ---------------------------------------------------------------- the shared struct

  datatype Shared = Shared(
    cur: Option<Session>,
    gen: Generation,
    inflight: Option<Channel>,
    lastFail: Option<Time>)  // None is Go's zero time, which no cooldown reaches

  /** What the first critical section of reconnect decides. */
  datatype Entry = AlreadyReplaced | WaitFor(ch: Channel) | CoolingDown | Lead(done: Channel)

  function Enter(sh: Shared, failedGen: Generation, now: Time, newCh: Channel): (Shared, Entry) {
    if sh.cur.Some? && sh.gen != failedGen then (sh, AlreadyReplaced)
    else if sh.inflight.Some? then (sh, WaitFor(sh.inflight.value))
    else if sh.lastFail.Some? && now - sh.lastFail.value < RECONNECT_COOLDOWN then (sh, CoolingDown)
    else (sh.(inflight := Some(newCh)), Lead(newCh))
  }

  /** The second critical section: install the dialed session or note the failure. The second
      component is the session that was replaced, which the caller must close. */
  function Settle(sh: Shared, dialed: Option<Session>, now: Time): (Shared, Option<Session>) {
    match dialed
    case Some(_) => (Shared(dialed, sh.gen + 1, None, sh.lastFail), sh.cur)
    case None => (sh.(inflight := None, lastFail := Some(now)), None)
  }

  /** After a wait: is there a session newer than the one that failed? */
  predicate Replaced(sh: Shared, failedGen: Generation) {
    sh.cur.Some? && sh.gen != failedGen
  }

  class Publisher {
    var cur: Option<Session>
    var gen: Generation
    var inflight: Option<Channel>
    var lastFail: Option<Time>
    ghost var closed: set<Channel>  // the channels that have been closed

    ghost function View(): Shared
      reads this
    {
      Shared(cur, gen, inflight, lastFail)
    }

    /** NewPublisher: `startup` is what the patient startup dial returned. */
    constructor (startup: Option<Session>)
      ensures View() == InitialShared(startup) && closed == {}
    {
      cur, gen, inflight, lastFail := None, 0, None, None;
      closed := {};
      if startup.Some? {
        cur, gen := startup, 1;
      }
    }

    method Current() returns (s: Option<Session>, g: Generation)
      ensures s == View().cur && g == View().gen
    {
      s, g := cur, gen;
    }

    method EnterReconnect(failedGen: Generation, now: Time, newCh: Channel) returns (e: Entry)
      modifies this`inflight
      ensures (View(), e) == Enter(old(View()), failedGen, now, newCh)
    {
      if cur != None && gen != failedGen {
        return AlreadyReplaced;
      }
      if inflight != None {
        return WaitFor(inflight.value);
      }
      if lastFail != None && now - lastFail.value < RECONNECT_COOLDOWN {
        return CoolingDown;
      }
      inflight := Some(newCh);
      return Lead(newCh);
    }

    /** Closing a closed channel would panic. */
    method SettleDial(done: Channel, dialed: Option<Session>, now: Time) returns (replaced: Option<Session>)
      requires done !in closed
      modifies this
      ensures (View(), replaced) == Settle(old(View()), dialed, now)
      ensures closed == old(closed) + {done}
    {
      replaced := None;
      if dialed.Some? {
        replaced, cur := cur, dialed;
        gen := gen + 1;
      } else {
        lastFail := Some(now);
      }
      inflight := None;
      closed := closed + {done};
    }

    method Recheck(failedGen: Generation) returns (ok: bool)
      ensures ok <==> Replaced(View(), failedGen)
    {
      var s, g := Current();
      ok := s != None && g != failedGen;
    }
  }

  function InitialShared(startup: Option<Session>): Shared {
    Shared(startup, if startup.Some? then 1 else 0, None, None)
  }

  // ---------------------------------------------------------------- one Publish call

  /** Where one Publish call is. `again` tells the first pass of Publish (false) from the retry. */
  datatype Pc =
    | Called                                                        // before the first current()
    | Reconnecting(failedGen: Generation, again: bool)              // about to lock in reconnect
    | Waiting(ch: Channel, failedGen: Generation, again: bool, deadline: Time)
    | Rechecking(failedGen: Generation, again: bool)                // the channel was closed
    | Dialing(done: Channel, failedGen: Generation, again: bool)    // the leader, outside the lock
    | Dialed(done: Channel, failedGen: Generation, again: bool, result: Option<Session>)
    | Closing(replaced: Session, failedGen: Generation, again: bool)
    | Reconnected(failedGen: Generation, again: bool)               // reconnect returned nil
    | Sending(target: Option<Session>, g: Generation, again: bool)  // about to call publish
    | Finished
    | Panicked                                                      // nil session, or double close

  datatype Attempt = Attempt(session: Session, g: Generation, handedOff: bool)

  datatype Proc = Proc(pc: Pc, attempts: seq<Attempt>, dials: nat)

  // ---------------------------------------------------------------- the system

  /** One dial of a request: `end` is when its outcome was recorded under the lock. */
  datatype Dial = Dial(start: Time, end: Option<Time>, ok: bool)

  datatype System = System(
    sh: Shared,
    now: Time,
    procs: map<CallId, Proc>,
    // history
    dialed: nat,                 // sessions 0..dialed were returned by some dial
    closed: multiset<Session>,   // one occurrence for every close()
    installed: seq<Session>,     // installed[g - 1] was cur at generation g
    channels: nat,               // channels 0..channels were made
    closedChannels: set<Channel>,
    leader: Option<CallId>,      // the call between its two critical sections
    log: seq<Dial>)

  /** `Move(c, ok)` is the next atomic action of call c. `ok` resolves what the environment
      decides: whether the dial succeeds, whether the publish hands the message off, whether a
      waiter takes the closed channel rather than its timer. */
  datatype Event = Call(c: CallId) | Tick(d: nat) | Move(c: CallId, ok: bool)

  function Init(startup: bool): System {
    System(
      InitialShared(if startup then Some(0) else None), 0, map[],
      if startup then 1 else 0, multiset{}, if startup then [0] else [],
      0, {}, None, [])
  }

  function Goto(st: System, c: CallId, pc: Pc): System
    requires c in st.procs
  {
    st.(procs := st.procs[c := st.procs[c].(pc := pc)])
  }

  /** The first critical section of reconnect, run by call c. */
  function EnterStep(st: System, c: CallId, failedGen: Generation, again: bool): System
    requires c in st.procs
  {
    var (sh, e) := Enter(st.sh, failedGen, st.now, st.channels);
    match e
    case AlreadyReplaced => Goto(st, c, Reconnected(failedGen, again))
    case WaitFor(ch) => Goto(st, c, Waiting(ch, failedGen, again, st.now + RECONNECT_WAIT))
    case CoolingDown => Goto(st, c, Finished)
    case Lead(done) =>
      var p := st.procs[c];
      st.(sh := sh, channels := st.channels + 1, leader := Some(c),
          log := st.log + [Dial(st.now, None, false)],
          procs := st.procs[c := p.(pc := Dialing(done, failedGen, again), dials := p.dials + 1)])
  }

  /** The second critical section, run by the leader c; closing a closed channel panics. */
  function SettleStep(st: System, c: CallId, p: Pc): System
    requires c in st.procs && p.Dialed?
  {
    if p.done in st.closedChannels || st.log == [] then Goto(st, c, Panicked)
    else
      var (sh, replaced) := Settle(st.sh, p.result, st.now);
      var last := st.log[|st.log| - 1];
      var next :=
        if p.result.None? then Finished
        else if replaced.Some? then Closing(replaced.value, p.failedGen, p.again)
        else Reconnected(p.failedGen, p.again);
      Goto(st, c, next).(
        sh := sh, leader := None,
        closedChannels := st.closedChannels + {p.done},
        installed := if p.result.Some? then st.installed + [p.result.value] else st.installed,
        log := st.log[..|st.log| - 1] + [last.(end := Some(st.now), ok := p.result.Some?)])
  }

  function DialStep(st: System, c: CallId, p: Pc, ok: bool): System
    requires c in st.procs && p.Dialing?
  {
    if ok then
      Goto(st, c, Dialed(p.done, p.failedGen, p.again, Some(st.dialed))).(dialed := st.dialed + 1)
    else Goto(st, c, Dialed(p.done, p.failedGen, p.again, None))
  }

  function CloseStep(st: System, c: CallId, p: Pc): System
    requires c in st.procs && p.Closing?
  {
    Goto(st, c, Reconnected(p.failedGen, p.again)).(closed := st.closed + multiset{p.replaced})
  }

  /** One call of session.publish, on whatever session the call holds. */
  function Send(p: Proc, ok: bool): Proc
    requires p.pc.Sending?
  {
    if p.pc.target.None? then p.(pc := Panicked)
    else
      p.(pc := if ok || p.pc.again then Finished else Reconnecting(p.pc.g, true),
         attempts := p.attempts + [Attempt(p.pc.target.value, p.pc.g, ok)])
  }

  /** The actions that only read the shared state. */
  function LocalStep(st: System, p: Proc, ok: bool): Proc {
    match p.pc
    case Called =>
      p.(pc := if st.sh.cur.None? then Reconnecting(st.sh.gen, false)
               else Sending(st.sh.cur, st.sh.gen, false))
    case Waiting(ch, f, again, deadline) =>
      if ok && ch in st.closedChannels then p.(pc := Rechecking(f, again))
      else if !ok && deadline <= st.now then p.(pc := Finished)
      else p
    case Rechecking(f, again) =>
      p.(pc := if Replaced(st.sh, f) then Reconnected(f, again) else Finished)
    case Reconnected(_, again) => p.(pc := Sending(st.sh.cur, st.sh.gen, again))
    case Sending(_, _, _) => Send(p, ok)
    case _ => p
  }

  function MoveStep(st: System, c: CallId, ok: bool): System
    requires c in st.procs
  {
    var p := st.procs[c];
    match p.pc
    case Reconnecting(f, again) => EnterStep(st, c, f, again)
    case Dialing(_, _, _) => DialStep(st, c, p.pc, ok)
    case Dialed(_, _, _, _) => SettleStep(st, c, p.pc)
    case Closing(_, _, _) => CloseStep(st, c, p.pc)
    case _ => st.(procs := st.procs[c := LocalStep(st, p, ok)])
  }

  function Step(st: System, e: Event): System {
    match e
    case Call(c) =>
      if c in st.procs then st else st.(procs := st.procs[c := Proc(Called, [], 0)])
    case Tick(d) => st.(now := st.now + d)
    case Move(c, ok) => if c in st.procs then MoveStep(st, c, ok) else st
  }

  /** Every run: any number of calls, interleaved in any order, with any outcomes. */
  function Run(startup: bool, events: seq<Event>): System {
    if events == [] then Init(startup)
    else Step(Run(startup, events[..|events| - 1]), events[|events| - 1])
  }

  // ---------------------------------------------------------------- dialAMQP

  /** The dial loop of dialAMQP: `connects[i]` is whether the i-th connection attempt succeeds,
      `channel` whether the channel opens and `setup` how each declaration, binding and the switch
      to confirm mode went, in order. Connections and channels left open are counted. */
  method DialAMQP(attempts: nat, connects: seq<bool>, channel: bool, setup: seq<bool>)
    returns (session: bool, tried: nat, sleeps: nat, openConns: nat, openChannels: nat)
    requires 0 < attempts <= |connects|
    ensures session <==> true in connects[..attempts] && channel && false !in setup
    ensures openConns == openChannels == if session then 1 else 0
    ensures 0 < tried <= attempts && sleeps < attempts && sleeps <= tried
    ensures true !in connects[..tried - 1]
    ensures tried < attempts ==> connects[tried - 1]
    ensures sleeps == if connects[tried - 1] then tried - 1 else attempts - 1
  {
    session, tried, sleeps, openConns, openChannels := false, 0, 0, 0, 0;
    var connected := false;
    while tried < attempts && !connected
      invariant tried <= attempts
      invariant connected ==> 0 < tried && connects[tried - 1] && true !in connects[..tried - 1]
      invariant !connected ==> true !in connects[..tried]
      invariant openConns == if connected then 1 else 0
      invariant sleeps == if connected || tried == attempts then tried - 1 else tried
    {
      connected := connects[tried];
      tried := tried + 1;
      if connected {
        openConns := openConns + 1;
        assert true in connects[..tried];
      } else if tried < attempts {
        sleeps := sleeps + 1;
      }
    }
    if !connected {
      assert connects[tried - 1] in connects[..tried];
      return;
    }
    assert connects[tried - 1] in connects[..attempts];
    if !channel {
      openConns := openConns - 1;
      return;
    }
    openChannels := openChannels + 1;
    for i := 0 to |setup|
      invariant false !in setup[..i]
      invariant openConns == openChannels == 1
    {
      if !setup[i] {
        openChannels, openConns := openChannels - 1, openConns - 1;
        return;
      }
    }
    session := true;
  }
}
