/** The ticket workflow of ticket-service: ticket_repository.go and ticket_usecase.go. A use-case
    call reads the ticket, reads the clock and writes, in three separate steps; `System` below
    interleaves the steps of any number of calls. */
module TicketWorkflow {
  import opened Options

  type TicketId = nat
  type UserId = nat
  type Time = nat

  /** The status strings of domain/ticket.go; a request may carry any other string. */
  datatype Status = Open | Assigned | InProgress | Pending | Resolved | Closed | Unknown(name: string)

  datatype Role = Admin | Agent | Other

  datatype Ticket = Ticket(
    userId: UserId,
    assignedAgentId: Option<UserId>,
    status: Status,
    assignedAt: Option<Time>,
    resolvedAt: Option<Time>,
    closedAt: Option<Time>)

  datatype HistoryRow = HistoryRow(
    id: nat, ticketId: TicketId, fromStatus: Status, toStatus: Status, changedBy: UserId, changedAt: Time)

  /** The two tables. History rows are in the order they were inserted, which is that of their ids. */
  datatype Db = Db(tickets: map<TicketId, Ticket>, history: seq<HistoryRow>)

  // ---------------------------------------------------------------- the repository

  function CreateIn(db: Db, id: TicketId, user: UserId): Db {
    db.(tickets := db.tickets[id := Ticket(user, None, Open, None, None, None)])
  }

  /** The transaction of AssignAndTransition reads the old status itself. */
  function AssignIn(db: Db, id: TicketId, agent: UserId, actor: UserId, at: Time): (Db, bool) {
    if id !in db.tickets then (db, false)
    else
      var t := db.tickets[id];
      (Db(db.tickets[id := t.(assignedAgentId := Some(agent), assignedAt := Some(at), status := Assigned)],
          db.history + [HistoryRow(|db.history|, id, t.status, Assigned, actor, at)]), true)
  }

  /** TransitionStatus takes the old status from its caller. */
  function TransitionIn(db: Db, id: TicketId, fromStatus: Status, toStatus: Status, actor: UserId, at: Time): Db {
    Db(if id in db.tickets then
         var t := db.tickets[id];
         db.tickets[id := t.(status := toStatus,
                             resolvedAt := if toStatus.Resolved? then Some(at) else t.resolvedAt,
                             closedAt := if toStatus.Closed? then Some(at) else t.closedAt)]
       else db.tickets,
       db.history + [HistoryRow(|db.history|, id, fromStatus, toStatus, actor, at)])
  }

  class TicketRepository {
    var tickets: map<TicketId, Ticket>
    var history: seq<HistoryRow>

    ghost function View(): Db
      reads this
    {
      Db(tickets, history)
    }

    constructor ()
      ensures View() == Db(map[], [])
    {
      tickets, history := map[], [];
    }

    method FindByID(id: TicketId) returns (t: Option<Ticket>)
      ensures t == if id in tickets then Some(tickets[id]) else None
    {
      if id in tickets {
        return Some(tickets[id]);
      }
      return None;
    }

    method Create(id: TicketId, user: UserId)
      modifies this
      ensures View() == CreateIn(old(View()), id, user)
      ensures history == old(history)
      ensures tickets == old(tickets)[id := Ticket(user, None, Open, None, None, None)]
    {
      tickets := tickets[id := Ticket(user, None, Open, None, None, None)];
    }

    method AssignAndTransition(id: TicketId, agent: UserId, actor: UserId, at: Time) returns (ok: bool)
      modifies this
      ensures (View(), ok) == AssignIn(old(View()), id, agent, actor, at)
    {
      if id !in tickets {
        return false;
      }
      var t := tickets[id];
      var fromStatus := t.status;
      t := t.(assignedAgentId := Some(agent));
      t := t.(assignedAt := Some(at));
      t := t.(status := Assigned);
      tickets := tickets[id := t];
      history := history + [HistoryRow(|history|, id, fromStatus, Assigned, actor, at)];
      return true;
    }

    method TransitionStatus(id: TicketId, fromStatus: Status, toStatus: Status, actor: UserId, at: Time)
      modifies this
      ensures View() == TransitionIn(old(View()), id, fromStatus, toStatus, actor, at)
      ensures history == old(history) + [HistoryRow(|old(history)|, id, fromStatus, toStatus, actor, at)]
      ensures id !in old(tickets) ==> tickets == old(tickets)
    {
      if id in tickets {
        var t := tickets[id];
        t := t.(status := toStatus);
        if toStatus == Resolved {
          t := t.(resolvedAt := Some(at));
        }
        if toStatus == Closed {
          t := t.(closedAt := Some(at));
        }
        tickets := tickets[id := t];
      }
      history := history + [HistoryRow(|history|, id, fromStatus, toStatus, actor, at)];
    }
  }

  // ---------------------------------------------------------------- the use cases

  /** allowedTransitions: the state machine of direct status updates. */
  function AllowedTransitions(status: Status): seq<Status> {
    match status
    case Assigned => [InProgress]
    case InProgress => [Pending, Resolved]
    case Pending => [InProgress, Resolved]
    case Resolved => [Closed, InProgress]
    case _ => []
  }

  /** The moves a status update may make, one by one. */
  predicate Legal(fromStatus: Status, toStatus: Status) {
    (fromStatus, toStatus) in {
      (Assigned, InProgress),
      (InProgress, Pending), (InProgress, Resolved),
      (Pending, InProgress), (Pending, Resolved),
      (Resolved, Closed), (Resolved, InProgress)}
  }

  /** Who may change a ticket's status: an admin, or the agent it is assigned to. */
  predicate MayUpdate(t: Ticket, requester: UserId, role: Role) {
    role.Admin? || (role.Agent? && t.assignedAgentId == Some(requester))
  }

  datatype Error = NotFound | Forbidden | AlreadyAssigned | InvalidTransition

  datatype Result<T> = Ok(value: T) | Err(error: Error)

  /** What AssignTicket decides from the ticket it read: the agent to assign. Target 0 stands for
      no target in the request. */
  function DecideAssign(read: Option<Ticket>, requester: UserId, role: Role, target: UserId): Result<UserId> {
    if read.None? then Err(NotFound)
    else
      match role
      case Admin => Ok(target)
      case Agent =>
        if target != 0 && target != requester then Err(Forbidden)
        else if read.value.assignedAgentId.Some? then Err(AlreadyAssigned)
        else Ok(requester)
      case Other => Err(Forbidden)
  }

  /** What UpdateStatus decides from the ticket it read: the status it moves from. */
  function DecideUpdate(read: Option<Ticket>, requester: UserId, role: Role, newStatus: Status): Result<Status> {
    if read.None? then Err(NotFound)
    else if !role.Admin? && (!role.Agent? || read.value.assignedAgentId != Some(requester)) then Err(Forbidden)
    else if newStatus !in AllowedTransitions(read.value.status) then Err(InvalidTransition)
    else Ok(read.value.status)
  }

  function Lookup(db: Db, id: TicketId): Option<Ticket> {
    if id in db.tickets then Some(db.tickets[id]) else None
  }

  class TicketUsecase {
    const repo: TicketRepository

    constructor (repo: TicketRepository)
      ensures this.repo == repo
    {
      this.repo := repo;
    }

    /** A call with no other call on the ticket between its read and its write. */
    method AssignTicket(id: TicketId, requester: UserId, role: Role, target: UserId, now: Time)
      returns (r: Result<UserId>)
      modifies repo
      ensures r == DecideAssign(old(Lookup(repo.View(), id)), requester, role, target)
      ensures repo.View() ==
              if r.Ok? then AssignIn(old(repo.View()), id, r.value, requester, now).0 else old(repo.View())
      // the same spelled out
      ensures r == Err(NotFound) <==> id !in old(repo.tickets)
      ensures id in old(repo.tickets) && role.Admin? ==> r == Ok(target)
      ensures id in old(repo.tickets) && role.Agent? ==>
                r == if target != 0 && target != requester then Err(Forbidden)
                     else if old(repo.tickets)[id].assignedAgentId.Some? then Err(AlreadyAssigned)
                     else Ok(requester)
      ensures id in old(repo.tickets) && role.Other? ==> r == Err(Forbidden)
      ensures r.Ok? ==>
                && repo.tickets == old(repo.tickets)[id := old(repo.tickets)[id].(
                     assignedAgentId := Some(r.value), assignedAt := Some(now), status := Assigned)]
                && repo.history == old(repo.history) + [HistoryRow(
                     |old(repo.history)|, id, old(repo.tickets)[id].status, Assigned, requester, now)]
    {
      var ticket := repo.FindByID(id);
      if ticket == None {
        return Err(NotFound);
      }
      var agent := target;
      if role == Agent {
        if target != 0 && target != requester {
          return Err(Forbidden);
        }
        agent := requester;
        if ticket.value.assignedAgentId != None {
          return Err(AlreadyAssigned);
        }
      } else if role != Admin {
        return Err(Forbidden);
      }
      var ok := repo.AssignAndTransition(id, agent, requester, now);
      return Ok(agent);
    }

    /** Returns the ticket as it was read, with the new status. */
    method UpdateStatus(id: TicketId, requester: UserId, role: Role, newStatus: Status, now: Time)
      returns (r: Result<Ticket>)
      modifies repo
      ensures var read := old(Lookup(repo.View(), id));
              match DecideUpdate(read, requester, role, newStatus)
              case Err(error) => r == Err(error) && repo.View() == old(repo.View())
              case Ok(fromStatus) =>
                && r == Ok(read.value.(status := newStatus))
                && repo.View() == TransitionIn(old(repo.View()), id, fromStatus, newStatus, requester, now)
      // the same spelled out
      ensures r == Err(NotFound) <==> id !in old(repo.tickets)
      ensures id in old(repo.tickets) ==>
                var t := old(repo.tickets)[id];
                if !MayUpdate(t, requester, role) then r == Err(Forbidden)
                else if !Legal(t.status, newStatus) then r == Err(InvalidTransition)
                else
                  && r == Ok(t.(status := newStatus))
                  && repo.tickets == old(repo.tickets)[id := t.(
                       status := newStatus,
                       resolvedAt := if newStatus.Resolved? then Some(now) else t.resolvedAt,
                       closedAt := if newStatus.Closed? then Some(now) else t.closedAt)]
                  && repo.history == old(repo.history) + [HistoryRow(
                       |old(repo.history)|, id, t.status, newStatus, requester, now)]
    {
      var ticket := repo.FindByID(id);
      if ticket == None {
        return Err(NotFound);
      }
      if role != Admin {
        if role != Agent || ticket.value.assignedAgentId == None || ticket.value.assignedAgentId.value != requester {
          return Err(Forbidden);
        }
      }
      var valid := false;
      var allowed := AllowedTransitions(ticket.value.status);
      for i := 0 to |allowed|
        invariant valid <==> newStatus in allowed[..i]
      {
        if allowed[i] == newStatus {
          valid := true;
          assert newStatus in allowed;
          break;
        }
      }
      if !valid {
        return Err(InvalidTransition);
      }
      repo.TransitionStatus(id, ticket.value.status, newStatus, requester, now);
      return Ok(ticket.value.(status := newStatus));
    }

    /** GetTicketByID: an admin sees every ticket, an agent those assigned to them, anyone else
        their own. */
    method GetTicketByID(id: TicketId, requester: UserId, role: Role) returns (r: Result<Ticket>)
      ensures r.Ok? ==> id in repo.tickets && r.value == repo.tickets[id]
      ensures r == Err(NotFound) <==> id !in repo.tickets
      ensures id in repo.tickets ==>
                (r.Ok? <==> || role.Admin?
                            || (role.Agent? && repo.tickets[id].assignedAgentId == Some(requester))
                            || (role.Other? && repo.tickets[id].userId == requester))
      ensures id in repo.tickets && r.Err? ==> r.error.Forbidden?
    {
      var ticket := repo.FindByID(id);
      if ticket == None {
        return Err(NotFound);
      }
      match role
      case Admin => return Ok(ticket.value);
      case Agent =>
        if ticket.value.assignedAgentId != None && ticket.value.assignedAgentId.value == requester {
          return Ok(ticket.value);
        }
        return Err(Forbidden);
      case Other =>
        if ticket.value.userId == requester {
          return Ok(ticket.value);
        }
        return Err(Forbidden);
    }
  }

  // ---------------------------------------------------------------- the interleaved system

  type CallId = nat

  /** The write a call has decided on. `claim` marks an agent's self-claim. */
  datatype Write =
    | Assign(ticket: TicketId, agent: UserId, actor: UserId, claim: bool)
    | Transition(ticket: TicketId, fromStatus: Status, toStatus: Status, actor: UserId)

  /** A call between its read and its write; `at` is set once it has read the clock. */
  datatype Phase = Phase(write: Write, at: Option<Time>)

  datatype System = System(
    db: Db,
    now: Time,
    calls: map<CallId, Phase>,
    // history
    overlapped: set<TicketId>,  // some call read the ticket while another was about to write it
    stale: set<TicketId>,       // some status update was written over another status than it read
    late: set<TicketId>)        // some write carries an earlier time than the one before it

  datatype Event =
    | Create(ticket: TicketId, user: UserId)
    | ReadAssign(c: CallId, ticket: TicketId, requester: UserId, role: Role, target: UserId)
    | ReadUpdate(c: CallId, ticket: TicketId, requester: UserId, role: Role, newStatus: Status)
    | ReadClock(c: CallId)
    | Commit(c: CallId)
    | Tick(d: nat)

  predicate Busy(calls: map<CallId, Phase>, id: TicketId) {
    exists c :: c in calls && calls[c].write.ticket == id
  }

  function Begin(s: System, c: CallId, w: Write): System {
    s.(calls := s.calls[c := Phase(w, None)],
       overlapped := if Busy(s.calls, w.ticket) then s.overlapped + {w.ticket} else s.overlapped)
  }

  /** The rows of one ticket, in the order they were inserted. */
  function RowsOf(history: seq<HistoryRow>, id: TicketId): seq<HistoryRow> {
    if history == [] then []
    else
      var n := |history| - 1;
      RowsOf(history[..n], id) + if history[n].ticketId == id then [history[n]] else []
  }

  predicate Late(db: Db, id: TicketId, at: Time) {
    var rows := RowsOf(db.history, id);
    rows != [] && at < rows[|rows| - 1].changedAt
  }

  predicate Stale(db: Db, w: Write) {
    w.Transition? && w.ticket in db.tickets && db.tickets[w.ticket].status != w.fromStatus
  }

  function Written(db: Db, w: Write, at: Time): Db {
    match w
    case Assign(id, agent, actor, _) => AssignIn(db, id, agent, actor, at).0
    case Transition(id, fromStatus, toStatus, actor) => TransitionIn(db, id, fromStatus, toStatus, actor, at)
  }

  function CommitStep(s: System, c: CallId): System
    requires c in s.calls && s.calls[c].at.Some?
  {
    var w, at := s.calls[c].write, s.calls[c].at.value;
    s.(db := Written(s.db, w, at),
       calls := s.calls - {c},
       stale := if Stale(s.db, w) then s.stale + {w.ticket} else s.stale,
       late := if Late(s.db, w.ticket, at) then s.late + {w.ticket} else s.late)
  }

  function Step(s: System, e: Event): System {
    match e
    case Create(id, user) => if id in s.db.tickets then s else s.(db := CreateIn(s.db, id, user))
    case ReadAssign(c, id, requester, role, target) =>
      var d := DecideAssign(Lookup(s.db, id), requester, role, target);
      if c in s.calls || d.Err? then s else Begin(s, c, Assign(id, d.value, requester, role.Agent?))
    case ReadUpdate(c, id, requester, role, newStatus) =>
      var d := DecideUpdate(Lookup(s.db, id), requester, role, newStatus);
      if c in s.calls || d.Err? then s else Begin(s, c, Transition(id, d.value, newStatus, requester))
    case ReadClock(c) =>
      if c in s.calls && s.calls[c].at.None? then s.(calls := s.calls[c := s.calls[c].(at := Some(s.now))]) else s
    case Commit(c) => if c in s.calls && s.calls[c].at.Some? then CommitStep(s, c) else s
    case Tick(d) => s.(now := s.now + d)
  }

  const EMPTY := System(Db(map[], []), 0, map[], {}, {}, {})

  function Run(events: seq<Event>): System {
    if events == [] then EMPTY else Step(Run(events[..|events| - 1]), events[|events| - 1])
  }
}
