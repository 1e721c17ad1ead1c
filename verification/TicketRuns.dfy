/** Runs of the ticket workflow whose calls overlap, and what they break. */
module TicketRuns {
  import opened Options
  import opened TicketWorkflow
  import opened TicketProofs
  import opened TicketTheorems
  import opened TicketTimeline

  // ---------------------------------------------------------------- single calls

  lemma After(events: seq<Event>, e: Event, s: System)
    requires Run(events) == s
    ensures Run(events + [e]) == Step(s, e)
  {
    assert (events + [e])[..|events|] == events;
  }

  /** One call with nothing in between: read, clock, commit. */
  lemma Alone(events: seq<Event>, s: System, c: CallId, read: Event, w: Write)
    requires Run(events) == s && c !in s.calls
    requires Step(s, read) == Begin(s, c, w)
    ensures Run(events + [read, ReadClock(c), Commit(c)])
            == CommitStep(s.(calls := s.calls[c := Phase(w, Some(s.now))], overlapped := Begin(s, c, w).overlapped), c)
  {
    var begun := Begin(s, c, w);
    After(events, read, s);
    var stamped := begun.(calls := begun.calls[c := Phase(w, Some(s.now))]);
    assert stamped.calls == s.calls[c := Phase(w, Some(s.now))];
    After(events + [read], ReadClock(c), begun);
    After(events + [read] + [ReadClock(c)], Commit(c), stamped);
    assert events + [read, ReadClock(c), Commit(c)] == events + [read] + [ReadClock(c)] + [Commit(c)];
  }

  function Snapshot(t: Ticket, history: seq<HistoryRow>, now: Time, calls: map<CallId, Phase>): System {
    System(Db(map[1 := t], history), now, calls, {}, {}, {})
  }

  const ROW0 := HistoryRow(0, 1, Open, Assigned, 99, 0)
  const ROW1 := HistoryRow(1, 1, Assigned, InProgress, 5, 0)
  const ROW2 := HistoryRow(2, 1, InProgress, Assigned, 99, 10)
  const ROW3 := HistoryRow(3, 1, InProgress, Resolved, 5, 0)
  const RESOLVE := Phase(Transition(1, InProgress, Resolved, 5), Some(0))
  const STARTED := Ticket(9, Some(5), InProgress, Some(0), None, None)

  const CREATED := Ticket(9, None, Open, None, None, None)

  lemma Created() returns (events: seq<Event>)
    ensures Run(events) == Snapshot(CREATED, [], 0, map[])
  {
    After([], Create(1, 9), EMPTY);
    events := [] + [Create(1, 9)];
  }

  /** A ticket is created by user 9, assigned by admin 99 to agent 5, and started by the agent. */
  lemma Started() returns (events: seq<Event>)
    ensures Run(events) == Snapshot(STARTED, [ROW0, ROW1], 0, map[])
  {
    var e0 := Created();
    Alone(e0, Snapshot(CREATED, [], 0, map[]), 0, ReadAssign(0, 1, 99, Admin, 5), Assign(1, 5, 99, false));
    var e1 := e0 + [ReadAssign(0, 1, 99, Admin, 5), ReadClock(0), Commit(0)];
    var s1 := Snapshot(Ticket(9, Some(5), Assigned, Some(0), None, None), [ROW0], 0, map[]);
    assert Run(e1) == s1;
    Alone(e1, s1, 1, ReadUpdate(1, 1, 5, Agent, InProgress), Transition(1, Assigned, InProgress, 5));
    events := e1 + [ReadUpdate(1, 1, 5, Agent, InProgress), ReadClock(1), Commit(1)];
  }

  /** The agent's resolution has passed its checks and read the clock; ten ticks later it is still
      not written. */
  lemma Resolving() returns (events: seq<Event>)
    ensures Run(events) == Snapshot(STARTED, [ROW0, ROW1], 10, map[2 := RESOLVE])
  {
    var e := Started();
    var s := Snapshot(STARTED, [ROW0, ROW1], 0, map[]);
    After(e, ReadUpdate(2, 1, 5, Agent, Resolved), s);
    var f := e + [ReadUpdate(2, 1, 5, Agent, Resolved)];
    var s' := s.(calls := map[2 := RESOLVE.(at := None)]);
    assert Run(f) == s';
    After(f, ReadClock(2), s');
    var g := f + [ReadClock(2)];
    assert Run(g) == s.(calls := map[2 := RESOLVE]);
    After(g, Tick(10), Run(g));
    events := g + [Tick(10)];
  }

  /** Overlapping calls can break both: an admin reassigns the ticket while the agent's resolution,
      already past its checks and its clock, waits to be written. The ticket ends up resolved
      before it was assigned, with a history that is not a path. */
  lemma OverlapBreaksOrder() returns (events: seq<Event>)
    ensures var s := Run(events);
            && s.db.tickets == map[1 := Ticket(9, Some(6), Resolved, Some(10), Some(0), None)]
            && 1 in s.overlapped
            && History(s, 1) == [ROW0, ROW1, ROW2, ROW3] && !Path(History(s, 1))
  {
    var e := Resolving();
    var s := Snapshot(STARTED, [ROW0, ROW1], 10, map[2 := RESOLVE]);
    assert 2 in s.calls && s.calls[2].write.ticket == 1;
    assert Busy(s.calls, 1);
    Alone(e, s, 3, ReadAssign(3, 1, 99, Admin, 6), Assign(1, 6, 99, false));
    var f := e + [ReadAssign(3, 1, 99, Admin, 6), ReadClock(3), Commit(3)];
    var s' := System(Db(map[1 := Ticket(9, Some(6), Assigned, Some(10), None, None)], [ROW0, ROW1, ROW2]),
                     10, map[2 := RESOLVE], {1}, {}, Run(f).late);
    assert Run(f).calls == map[2 := RESOLVE];
    assert Run(f) == s';
    After(f, Commit(2), s');
    events := f + [Commit(2)];
    AllItsOwn([ROW0, ROW1, ROW2, ROW3], 1);
    assert Run(events).db.history == [ROW0, ROW1, ROW2, ROW3];
    PathExactly(events, 1);
  }

  lemma {:induction false} AllItsOwn(history: seq<HistoryRow>, id: TicketId)
    requires forall i :: 0 <= i < |history| ==> history[i].ticketId == id
    ensures RowsOf(history, id) == history
  {
    if history != [] {
      AllItsOwn(history[..|history| - 1], id);
    }
  }

  /** The timeline of that ticket ends with its assignment, the last in time, although the ticket
      was resolved after it. */
  lemma TimelineCanMislead() returns (events: seq<Event>, out: Rows)
    ensures var s := Run(events);
            && 1 in s.db.tickets && Returned(out, History(s, 1))
            && LastStatus(out) != s.db.tickets[1].status
  {
    events := OverlapBreaksOrder();
    out := OtherOrder();
  }

  lemma OtherOrder() returns (out: Rows)
    ensures Returned(out, [ROW0, ROW1, ROW2, ROW3]) && LastStatus(out) == Assigned
  {
    out := [ROW0, ROW1, ROW3, ROW2];
    SwapMultiset([ROW0, ROW1], ROW2, ROW3, []);
    assert out == [ROW0, ROW1] + [ROW3, ROW2] + [];
    assert [ROW0, ROW1, ROW2, ROW3] == [ROW0, ROW1] + [ROW2, ROW3] + [];
  }

  // ---------------------------------------------------------------- reopening a closed ticket

  const ROW4 := HistoryRow(2, 1, InProgress, Resolved, 5, 0)
  const RESOLVED_TICKET := Ticket(9, Some(5), Resolved, Some(0), Some(0), None)
  const REOPEN := Phase(Transition(1, Resolved, InProgress, 5), Some(0))

  /** The agent has resolved the ticket, and decided to take it up again. */
  lemma Reopening() returns (events: seq<Event>)
    ensures Run(events) == Snapshot(RESOLVED_TICKET, [ROW0, ROW1, ROW4], 0, map[3 := REOPEN])
  {
    var e := Started();
    Alone(e, Snapshot(STARTED, [ROW0, ROW1], 0, map[]), 2, ReadUpdate(2, 1, 5, Agent, Resolved),
          Transition(1, InProgress, Resolved, 5));
    var f := e + [ReadUpdate(2, 1, 5, Agent, Resolved), ReadClock(2), Commit(2)];
    var s := Snapshot(RESOLVED_TICKET, [ROW0, ROW1, ROW4], 0, map[]);
    assert Run(f) == s;
    After(f, ReadUpdate(3, 1, 5, Agent, InProgress), s);
    var g := f + [ReadUpdate(3, 1, 5, Agent, InProgress)];
    var s' := s.(calls := map[3 := REOPEN.(at := None)]);
    assert Run(g) == s';
    After(g, ReadClock(3), s');
    events := g + [ReadClock(3)];
  }

  /** Two status updates read the resolved ticket; one closes it, and the other, with no assignment
      involved, takes it out of `closed` again. */
  lemma UpdateReopensClosed() returns (events: seq<Event>)
    ensures var s := Run(events);
            && 1 in s.db.tickets && s.db.tickets[1].status.Closed?
            && Due(s, Commit(3)) && s.calls[3].write.Transition?
            && 1 in Run(events + [Commit(3)]).db.tickets
            && Run(events + [Commit(3)]).db.tickets[1].status.InProgress?
  {
    var e := Reopening();
    var s := Snapshot(RESOLVED_TICKET, [ROW0, ROW1, ROW4], 0, map[3 := REOPEN]);
    assert 3 in s.calls && s.calls[3].write.ticket == 1;
    assert Busy(s.calls, 1);
    Alone(e, s, 4, ReadUpdate(4, 1, 99, Admin, Closed), Transition(1, Resolved, Closed, 99));
    events := e + [ReadUpdate(4, 1, 99, Admin, Closed), ReadClock(4), Commit(4)];
    assert Run(events).calls == map[3 := REOPEN];
    After(events, Commit(3), Run(events));
  }

  // ---------------------------------------------------------------- two claims

  const CLAIM := Phase(Assign(1, 6, 6, true), Some(0))

  /** Agent 6 has found the ticket unassigned, and is about to claim it. */
  lemma Claiming() returns (events: seq<Event>)
    ensures Run(events) == Snapshot(CREATED, [], 0, map[0 := CLAIM])
  {
    var e := Created();
    var s := Snapshot(CREATED, [], 0, map[]);
    After(e, ReadAssign(0, 1, 6, Agent, 0), s);
    var f := e + [ReadAssign(0, 1, 6, Agent, 0)];
    var s' := s.(calls := map[0 := CLAIM.(at := None)]);
    assert Run(f) == s';
    After(f, ReadClock(0), s');
    events := f + [ReadClock(0)];
  }

  /** Agent 5 claims the ticket in the meantime, and agent 6 takes it from them: both calls succeed,
      and neither agent is told that it was already assigned. */
  lemma BothClaim() returns (events: seq<Event>)
    ensures var s := Run(events);
            && Due(s, Commit(0)) && SelfClaims(s.calls[0].write, 1)
            && 1 in s.db.tickets && s.db.tickets[1].assignedAgentId == Some(5)
            && 1 in Run(events + [Commit(0)]).db.tickets
            && Run(events + [Commit(0)]).db.tickets[1].assignedAgentId == Some(6)
  {
    var e := Claiming();
    Alone(e, Snapshot(CREATED, [], 0, map[0 := CLAIM]), 1, ReadAssign(1, 1, 5, Agent, 0), Assign(1, 5, 5, true));
    events := e + [ReadAssign(1, 1, 5, Agent, 0), ReadClock(1), Commit(1)];
    assert Run(events).calls == map[0 := CLAIM];
    After(events, Commit(0), Run(events));
  }
}
