/** What is promised of the ticket workflow and its audit trail. Part of it holds however calls
    interleave; the rest holds of calls that do not overlap, and in general under a condition that
    is exact. TicketRuns has the runs that show the conditions are needed. */
module TicketTheorems {
  import opened Options
  import opened TicketWorkflow
  import opened TicketProofs

  function History(s: System, id: TicketId): Rows {
    RowsOf(s.db.history, id)
  }

  // ---------------------------------------------------------------- in every interleaving

  /** The audit trail: a ticket's status is where its last history row went (`open` if it has
      none), each timestamp is that of the last row to that status, and every row is an edge of
      the workflow, whatever its neighbours. */
  lemma AuditTrail(events: seq<Event>, id: TicketId)
    requires id in Run(events).db.tickets
    ensures var s := Run(events);
            var t, h := s.db.tickets[id], History(s, id);
            && t.status == LastStatus(h)
            && t.assignedAt == LastAt(h, Assigned)
            && t.resolvedAt == LastAt(h, Resolved)
            && t.closedAt == LastAt(h, Closed)
            && Edges(h)
  {
    RunInv(events);
    assert TicketOk(Run(events), id);
  }

  /** The history is a path from `open` along the workflow if and only if no status update was
      written over another status than the one it had read. */
  lemma PathExactly(events: seq<Event>, id: TicketId)
    ensures Path(History(Run(events), id)) <==> id !in Run(events).stale
  {
    RunInv(events);
    assert TicketOk(Run(events), id);
  }

  /** The unassigned queue, and the QueueSize that counts it, are exactly the open tickets. */
  lemma UnassignedMeansOpen(events: seq<Event>)
    ensures var tickets := Run(events).db.tickets;
            && (set id | id in tickets && tickets[id].assignedAgentId.None?)
               == (set id | id in tickets && tickets[id].status.Open?)
            && |set id | id in tickets && tickets[id].assignedAgentId.None?|
               == |set id | id in tickets && tickets[id].status.Open?|
  {
    RunInv(events);
    var s := Run(events);
    assert forall id :: id in s.db.tickets ==> TicketOk(s, id);
    assert (set id | id in s.db.tickets && s.db.tickets[id].assignedAgentId.None?)
        == (set id | id in s.db.tickets && s.db.tickets[id].status.Open?);
  }

  lemma HistoryGrows(s: System, e: Event, id: TicketId)
    ensures History(s, id) <= History(Step(s, e), id)
    ensures id in s.db.tickets ==> id in Step(s, e).db.tickets
  {
    match e
    case Commit(c) =>
      if c in s.calls && s.calls[c].at.Some? {
        var w, at := s.calls[c].write, s.calls[c].at.value;
        if w.ticket in s.db.tickets {
          WriteFrame(s.db, w, at, id);
        } else if w.Transition? {
          RowsOfSnoc(s.db.history, HistoryRow(|s.db.history|, w.ticket, w.fromStatus, w.toStatus, w.actor, at), id);
        }
      }
    case _ =>
  }

  lemma RunSplit(before: seq<Event>, later: seq<Event>)
    requires later != []
    ensures Run(before + later) == Step(Run(before + later[..|later| - 1]), later[|later| - 1])
  {
    assert (before + later)[..|before + later| - 1] == before + later[..|later| - 1];
  }

  lemma {:induction false} HistoryOnlyGrows(before: seq<Event>, later: seq<Event>, id: TicketId)
    ensures History(Run(before), id) <= History(Run(before + later), id)
    ensures id in Run(before).db.tickets ==> id in Run(before + later).db.tickets
  {
    if later == [] {
      assert before + later == before;
    } else {
      var n := |later| - 1;
      HistoryOnlyGrows(before, later[..n], id);
      RunSplit(before, later);
      HistoryGrows(Run(before + later[..n]), later[n], id);
    }
  }

  lemma OpenMeansNoHistory(events: seq<Event>, id: TicketId)
    requires id in Run(events).db.tickets
    ensures Run(events).db.tickets[id].status.Open? <==> History(Run(events), id) == []
  {
    AuditTrail(events, id);
    var h := History(Run(events), id);
    if h != [] {
      assert Edge(h[|h| - 1]);
      NeverOpen(h[|h| - 1]);
    }
  }

  /** `open` is never re-entered: a ticket that has left it stays out, through any later events,
      which only ever add to its history. */
  lemma OpenIsNeverReentered(before: seq<Event>, later: seq<Event>, id: TicketId)
    requires id in Run(before).db.tickets && !Run(before).db.tickets[id].status.Open?
    ensures id in Run(before + later).db.tickets && !Run(before + later).db.tickets[id].status.Open?
    ensures History(Run(before), id) <= History(Run(before + later), id)
  {
    HistoryOnlyGrows(before, later, id);
    OpenMeansNoHistory(before, id);
    OpenMeansNoHistory(before + later, id);
  }

  // ---------------------------------------------------------------- calls that do not overlap

  /** The timestamps of a resolved or closed ticket are in workflow order. */
  predicate TimesInOrder(status: Status, assignedAt: Option<Time>, resolvedAt: Option<Time>, closedAt: Option<Time>)
  {
    && (!status.Open? ==> assignedAt.Some?)
    && (status.Resolved? || status.Closed? ==> resolvedAt.Some? && assignedAt.value <= resolvedAt.value)
    && (status.Closed? ==> closedAt.Some? && resolvedAt.value <= closedAt.value)
  }

  predicate NoLaterThan(t: Option<Time>, now: Time) {
    t.Some? ==> t.value <= now
  }

  /** The timestamps, and none later than `now`. */
  predicate Times(
    status: Status, assignedAt: Option<Time>, resolvedAt: Option<Time>, closedAt: Option<Time>, now: Time)
  {
    && TimesInOrder(status, assignedAt, resolvedAt, closedAt)
    && NoLaterThan(assignedAt, now) && NoLaterThan(resolvedAt, now) && NoLaterThan(closedAt, now)
  }

  function Moved(r: HistoryRow, status: Status, before: Option<Time>): Option<Time> {
    if r.toStatus == status then Some(r.changedAt) else before
  }

  lemma EdgeKeepsTimes(r: HistoryRow, a: Option<Time>, d: Option<Time>, c: Option<Time>, now: Time)
    requires Edge(r) && now <= r.changedAt && Times(r.fromStatus, a, d, c, now)
    ensures Times(r.toStatus, Moved(r, Assigned, a), Moved(r, Resolved, d), Moved(r, Closed, c), r.changedAt)
  {
  }

  function LastTime(h: Rows): Time {
    if h == [] then 0 else h[|h| - 1].changedAt
  }

  lemma PathSnoc(g: Rows, r: HistoryRow)
    requires Path(g + [r]) && InTimeOrder(g + [r])
    ensures Path(g) && InTimeOrder(g) && Edge(r) && r.fromStatus == LastStatus(g)
    ensures g != [] ==> LastTime(g) <= r.changedAt
  {
    ConnectedSnoc(g, r);
    OrderSnoc(g, r);
    EdgesSnoc(g, r);
  }

  /** The timestamps a history leaves on its ticket. */
  predicate HistoryTimes(h: Rows) {
    Times(LastStatus(h), LastAt(h, Assigned), LastAt(h, Resolved), LastAt(h, Closed), LastTime(h))
  }

  lemma TimesSnoc(g: Rows, r: HistoryRow)
    requires HistoryTimes(g) && Edge(r) && r.fromStatus == LastStatus(g)
    requires g != [] ==> LastTime(g) <= r.changedAt
    ensures HistoryTimes(g + [r])
  {
    LastSnoc(g, r, Assigned);
    LastSnoc(g, r, Resolved);
    LastSnoc(g, r, Closed);
    EdgeKeepsTimes(r, LastAt(g, Assigned), LastAt(g, Resolved), LastAt(g, Closed), LastTime(g));
  }

  /** Along a path in time order, resolving follows the last assignment and closing follows the
      last resolution, through any number of reopenings and reassignments. */
  lemma {:induction false} PathTimes(h: Rows)
    requires Path(h) && InTimeOrder(h)
    ensures HistoryTimes(h)
  {
    if h != [] {
      var g, r := h[..|h| - 1], h[|h| - 1];
      assert h == g + [r];
      PathSnoc(g, r);
      PathTimes(g);
      TimesSnoc(g, r);
    }
  }

  /** Timestamp order: a ticket whose writes were neither stale nor late has assigned_at <=
      resolved_at when resolved, and resolved_at <= closed_at too when closed. */
  lemma TimestampsInOrder(events: seq<Event>, id: TicketId)
    requires var s := Run(events); id in s.db.tickets && id !in s.stale && id !in s.late
    ensures var t := Run(events).db.tickets[id];
            TimesInOrder(t.status, t.assignedAt, t.resolvedAt, t.closedAt)
  {
    RunInv(events);
    assert TicketOk(Run(events), id);
    PathTimes(History(Run(events), id));
  }

  predicate SelfClaims(w: Write, id: TicketId) {
    w.ticket == id && w.Assign? && w.claim
  }

  /** Calls on a ticket that never overlap are enough for all of it: a connected history, in time
      order, ordered timestamps, and a self-claim that still finds the ticket unassigned. */
  lemma SerialCalls(events: seq<Event>, id: TicketId)
    requires id in Run(events).db.tickets && id !in Run(events).overlapped
    ensures var s := Run(events);
            var t, h := s.db.tickets[id], History(s, id);
            && Path(h) && InTimeOrder(h)
            && TimesInOrder(t.status, t.assignedAt, t.resolvedAt, t.closedAt)
            && (forall c :: c in s.calls && SelfClaims(s.calls[c].write, id) ==> t.assignedAgentId.None?)
  {
    RunInv(events);
    var s := Run(events);
    assert TicketOk(s, id) && SerialOk(s, id);
    PathTimes(History(s, id));
    forall c | c in s.calls && s.calls[c].write.ticket == id
      ensures Undisturbed(s, s.calls[c])
    {
    }
  }

  // ---------------------------------------------------------------- exactly when, in every interleaving

  /** The write of a call that has read its clock. */
  predicate Due(s: System, e: Event) {
    e.Commit? && e.c in s.calls && s.calls[e.c].at.Some?
  }

  lemma OtherTicketsKept(s: System, e: Event, id: TicketId)
    requires id in s.db.tickets
    ensures id in Step(s, e).db.tickets
    ensures !(Due(s, e) && s.calls[e.c].write.ticket == id) ==> Step(s, e).db.tickets[id] == s.db.tickets[id]
  {
  }

  /** A closed ticket leaves `closed` exactly when an assignment, or a status update to another
      status, comes to be written; such an update had read another status than `closed`. */
  lemma LeavesClosedExactly(events: seq<Event>, id: TicketId, e: Event)
    requires id in Run(events).db.tickets && Run(events).db.tickets[id].status.Closed?
    ensures var s := Run(events);
            && id in Step(s, e).db.tickets
            && (!Step(s, e).db.tickets[id].status.Closed? <==>
                  && Due(s, e) && s.calls[e.c].write.ticket == id
                  && (s.calls[e.c].write.Assign? || !s.calls[e.c].write.toStatus.Closed?))
            && (!Step(s, e).db.tickets[id].status.Closed? && s.calls[e.c].write.Transition? ==>
                  Stale(s.db, s.calls[e.c].write))
  {
    RunInv(events);
    var s := Run(events);
    OtherTicketsKept(s, e, id);
    if Due(s, e) {
      assert PendingOk(s, s.calls[e.c]);
    }
  }

  /** An agent's claim is decided on a ticket that nothing has been written to. */
  lemma ClaimReadsUntouched(events: seq<Event>, id: TicketId, requester: UserId, target: UserId)
    requires DecideAssign(Lookup(Run(events).db, id), requester, Agent, target).Ok?
    ensures History(Run(events), id) == []
  {
    RunInv(events);
    assert TicketOk(Run(events), id);
    OpenMeansNoHistory(events, id);
  }

  /** When it comes to be written the ticket is the claimant's, and it was nobody's before if and
      only if nothing has been written to the ticket since. */
  lemma ClaimTakesNobodysExactly(events: seq<Event>, id: TicketId, e: Event)
    requires Due(Run(events), e) && SelfClaims(Run(events).calls[e.c].write, id)
    ensures var s := Run(events);
            && id in s.db.tickets && id in Step(s, e).db.tickets
            && (s.db.tickets[id].assignedAgentId.None? <==> History(s, id) == [])
            && Step(s, e).db.tickets[id].assignedAgentId == Some(s.calls[e.c].write.agent)
  {
    RunInv(events);
    var s := Run(events);
    assert TicketOk(s, id) && PendingOk(s, s.calls[e.c]);
    OpenMeansNoHistory(events, id);
  }

  /** When calls on the ticket do not overlap, `closed` is terminal for status updates and for
      self-claims: only an admin's assignment leaves it. */
  lemma SerialLeavesClosedExactly(events: seq<Event>, id: TicketId, e: Event)
    requires id in Run(events).db.tickets && Run(events).db.tickets[id].status.Closed?
    requires id !in Run(events).overlapped
    ensures var s := Run(events);
            && id in Step(s, e).db.tickets
            && (!Step(s, e).db.tickets[id].status.Closed? <==>
                  && Due(s, e) && s.calls[e.c].write.ticket == id
                  && s.calls[e.c].write.Assign? && !s.calls[e.c].write.claim)
  {
    LeavesClosedExactly(events, id, e);
    RunInv(events);
    var s := Run(events);
    assert TicketOk(s, id) && SerialOk(s, id);
    if Due(s, e) && s.calls[e.c].write.ticket == id {
      assert Undisturbed(s, s.calls[e.c]) && PendingOk(s, s.calls[e.c]);
    }
  }

  predicate InOrder(t: Ticket) {
    TimesInOrder(t.status, t.assignedAt, t.resolvedAt, t.closedAt)
  }

  /** A write whose time fits those already on the ticket. */
  predicate Fits(t: Ticket, w: Write, at: Time) {
    w.Transition? ==>
      match w.toStatus
      case Resolved => t.assignedAt.Some? && t.assignedAt.value <= at
      case Closed =>
        t.assignedAt.Some? && t.resolvedAt.Some? && t.assignedAt.value <= t.resolvedAt.value <= at
      case _ => true
  }

  lemma WriteKeepsOrder(db: Db, w: Write, at: Time)
    requires w.ticket in db.tickets && InOrder(db.tickets[w.ticket])
    requires w.Transition? ==> !db.tickets[w.ticket].status.Open? && w.toStatus in AllowedTransitions(w.fromStatus)
    ensures var after := Written(db, w, at);
            w.ticket in after.tickets && (InOrder(after.tickets[w.ticket]) <==> Fits(db.tickets[w.ticket], w, at))
  {
  }

  /** The timestamps of a ticket stay in order, from one step to the next, exactly when what is
      written fits them, whatever else is going on. */
  lemma OrderKeptExactly(events: seq<Event>, id: TicketId, e: Event)
    requires id in Run(events).db.tickets && InOrder(Run(events).db.tickets[id])
    ensures var s := Run(events);
            && id in Step(s, e).db.tickets
            && (InOrder(Step(s, e).db.tickets[id]) <==>
                  (Due(s, e) && s.calls[e.c].write.ticket == id ==>
                     Fits(s.db.tickets[id], s.calls[e.c].write, s.calls[e.c].at.value)))
  {
    RunInv(events);
    var s := Run(events);
    OtherTicketsKept(s, e, id);
    if Due(s, e) && s.calls[e.c].write.ticket == id {
      assert PendingOk(s, s.calls[e.c]);
      WriteKeepsOrder(s.db, s.calls[e.c].write, s.calls[e.c].at.value);
    }
  }
}
