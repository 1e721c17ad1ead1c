/** Who may do what to a ticket, over every run, with roles, agents and statuses spelled out. */
module TicketRules {
  import opened Options
  import opened TicketWorkflow
  import opened TicketProofs
  import opened TicketTheorems

  /** The state machine is exactly the seven moves. */
  lemma LegalExactly(fromStatus: Status, toStatus: Status)
    ensures toStatus in AllowedTransitions(fromStatus) <==> Legal(fromStatus, toStatus)
  {
  }

  /** In every interleaving a row of the audit trail is one of the seven moves or an assignment. */
  lemma TrailIsLegal(events: seq<Event>, id: TicketId, i: nat)
    requires id in Run(events).db.tickets && i < |History(Run(events), id)|
    ensures var r := History(Run(events), id)[i]; r.toStatus.Assigned? || Legal(r.fromStatus, r.toStatus)
  {
    AuditTrail(events, id);
    var r := History(Run(events), id)[i];
    assert Edge(r);
    LegalExactly(r.fromStatus, r.toStatus);
  }

  // ---------------------------------------------------------------- what a call may set out to do

  /** A status update is begun if and only if the ticket exists, the requester is an admin or the
      agent it is assigned to, and the move is legal; it is about what was read, and by the
      requester. In particular one begun by anyone but an admin read a ticket assigned to them. */
  lemma UpdateBegunExactly(
    events: seq<Event>, c: CallId, id: TicketId, requester: UserId, role: Role, newStatus: Status)
    requires c !in Run(events).calls
    ensures var s, after := Run(events), Run(events + [ReadUpdate(c, id, requester, role, newStatus)]);
            && after.db == s.db && after.now == s.now
            && (c in after.calls <==>
                  && id in s.db.tickets
                  && (role.Admin? || (role.Agent? && s.db.tickets[id].assignedAgentId == Some(requester)))
                  && Legal(s.db.tickets[id].status, newStatus))
            && (c in after.calls ==>
                  && after.calls == s.calls[c := after.calls[c]]
                  && after.calls[c] == Phase(Transition(id, s.db.tickets[id].status, newStatus, requester), None))
  {
    RunSplit(events, [ReadUpdate(c, id, requester, role, newStatus)]);
    assert events + [] == events;
    if id in Run(events).db.tickets {
      LegalExactly(Run(events).db.tickets[id].status, newStatus);
    }
  }

  /** An assignment is begun if and only if the ticket exists and the requester is an admin, or an
      agent who names nobody else, of a ticket without an agent; an admin assigns whom they name,
      an agent themselves. */
  lemma AssignBegunExactly(
    events: seq<Event>, c: CallId, id: TicketId, requester: UserId, role: Role, target: UserId)
    requires c !in Run(events).calls
    ensures var s, after := Run(events), Run(events + [ReadAssign(c, id, requester, role, target)]);
            && after.db == s.db && after.now == s.now
            && (c in after.calls <==>
                  && id in s.db.tickets
                  && (role.Admin? || (&& role.Agent? && (target == 0 || target == requester)
                                      && s.db.tickets[id].assignedAgentId == None)))
            && (c in after.calls ==>
                  && after.calls == s.calls[c := after.calls[c]]
                  && after.calls[c] ==
                       Phase(Assign(id, if role.Admin? then target else requester, requester, role.Agent?), None))
  {
    RunSplit(events, [ReadAssign(c, id, requester, role, target)]);
    assert events + [] == events;
  }

  // ---------------------------------------------------------------- what it does

  /** What is written is what was decided, at the time the call read, and nothing else. */
  lemma CommitWritesExactly(events: seq<Event>, c: CallId)
    requires Due(Run(events), Commit(c))
    ensures var s, after := Run(events), Run(events + [Commit(c)]);
            var w, at := s.calls[c].write, s.calls[c].at.value;
            && w.ticket in s.db.tickets && after.calls == s.calls - {c} && after.now == s.now
            && after.db.tickets == s.db.tickets[w.ticket := after.db.tickets[w.ticket]]
            && (var t := s.db.tickets[w.ticket];
                match w
                case Assign(id, agent, actor, _) =>
                  && after.db.tickets[id] == t.(
                       assignedAgentId := Some(agent), assignedAt := Some(at), status := Assigned)
                  && after.db.history == s.db.history + [HistoryRow(|s.db.history|, id, t.status, Assigned, actor, at)]
                case Transition(id, fromStatus, toStatus, actor) =>
                  && after.db.tickets[id] == t.(
                       status := toStatus,
                       resolvedAt := if toStatus.Resolved? then Some(at) else t.resolvedAt,
                       closedAt := if toStatus.Closed? then Some(at) else t.closedAt)
                  && after.db.history ==
                       s.db.history + [HistoryRow(|s.db.history|, id, fromStatus, toStatus, actor, at)])
  {
    RunInv(events);
    assert PendingOk(Run(events), Run(events).calls[c]);
    RunSplit(events, [Commit(c)]);
    assert events + [] == events;
  }

  /** The time written is that of the call's clock reading. */
  lemma ClockReadExactly(events: seq<Event>, c: CallId)
    requires c in Run(events).calls && Run(events).calls[c].at == None
    ensures var s, after := Run(events), Run(events + [ReadClock(c)]);
            after == s.(calls := s.calls[c := Phase(s.calls[c].write, Some(s.now))])
  {
    RunSplit(events, [ReadClock(c)]);
    assert events + [] == events;
  }

  /** A new ticket is its creator's, open, unassigned and without times. */
  lemma CreateExactly(events: seq<Event>, id: TicketId, user: UserId)
    requires id !in Run(events).db.tickets
    ensures var s, after := Run(events), Run(events + [Create(id, user)]);
            after.db == Db(s.db.tickets[id := Ticket(user, None, Open, None, None, None)], s.db.history)
  {
    RunSplit(events, [Create(id, user)]);
    assert events + [] == events;
  }

  lemma StepKeepsCreator(s: System, e: Event, id: TicketId)
    requires id in s.db.tickets
    ensures id in Step(s, e).db.tickets && Step(s, e).db.tickets[id].userId == s.db.tickets[id].userId
  {
  }

  /** No ticket ever goes away or changes hands between users. */
  lemma {:induction false} CreatorIsKept(before: seq<Event>, later: seq<Event>, id: TicketId)
    requires id in Run(before).db.tickets
    ensures id in Run(before + later).db.tickets
    ensures Run(before + later).db.tickets[id].userId == Run(before).db.tickets[id].userId
  {
    if later == [] {
      assert before + later == before;
    } else {
      var n := |later| - 1;
      CreatorIsKept(before, later[..n], id);
      RunSplit(before, later);
      StepKeepsCreator(Run(before + later[..n]), later[n], id);
    }
  }

  /** A call overlaps another if and only if it reads a ticket that another is about to write. */
  lemma OverlapExactly(events: seq<Event>, e: Event, id: TicketId)
    ensures id in Run(events + [e]).overlapped <==>
            || id in Run(events).overlapped
            || (exists c, d :: (&& c !in Run(events).calls && c in Run(events + [e]).calls
                                && Run(events + [e]).calls[c].write.ticket == id
                                && d in Run(events).calls && Run(events).calls[d].write.ticket == id))
  {
    RunSplit(events, [e]);
    assert events + [] == events;
    var s, after := Run(events), Run(events + [e]);
    if id in after.overlapped && id !in s.overlapped {
      var c := e.c;
      var d :| d in s.calls && s.calls[d].write.ticket == id;
      assert c !in s.calls && c in after.calls;
    }
    if c, d :| (&& c !in s.calls && c in after.calls && after.calls[c].write.ticket == id
                && d in s.calls && s.calls[d].write.ticket == id) {
      assert Busy(s.calls, id);
    }
  }
}
