/** What every interleaving of ticket calls keeps, and what only calls that do not overlap keep. */
module TicketProofs {
  import opened Options
  import opened TicketWorkflow

  // ---------------------------------------------------------------- reading a history

  type Rows = seq<HistoryRow>

  /** The status a history ends in; a ticket starts open, without a row. */
  function LastStatus(h: Rows): Status {
    if h == [] then Open else h[|h| - 1].toStatus
  }

  /** When a history last moved to `status`. */
  function LastAt(h: Rows, status: Status): Option<Time> {
    if h == [] then None
    else if h[|h| - 1].toStatus == status then Some(h[|h| - 1].changedAt)
    else LastAt(h[..|h| - 1], status)
  }

  /** Each row starts where the one before it ended. */
  ghost predicate Connected(h: Rows) {
    forall i :: 0 <= i < |h| ==> h[i].fromStatus == LastStatus(h[..i])
  }

  ghost predicate InTimeOrder(h: Rows) {
    forall i, j :: 0 <= i < j < |h| ==> h[i].changedAt <= h[j].changedAt
  }

  /** A row along the state machine, or an assignment, which may come from any status. */
  predicate Edge(r: HistoryRow) {
    r.toStatus.Assigned? || r.toStatus in AllowedTransitions(r.fromStatus)
  }

  ghost predicate Edges(h: Rows) {
    forall i :: 0 <= i < |h| ==> Edge(h[i])
  }

  /** A path from `open` along the workflow. */
  ghost predicate Path(h: Rows) {
    Connected(h) && Edges(h)
  }

  lemma NeverOpen(r: HistoryRow)
    requires Edge(r)
    ensures !r.toStatus.Open?
  {
  }

  lemma ConnectedSnoc(h: Rows, r: HistoryRow)
    ensures Connected(h + [r]) <==> Connected(h) && r.fromStatus == LastStatus(h)
  {
    assert (h + [r])[..|h|] == h;
    if Connected(h + [r]) {
      forall i | 0 <= i < |h|
        ensures h[i].fromStatus == LastStatus(h[..i])
      {
        assert (h + [r])[i] == h[i] && (h + [r])[..i] == h[..i];
      }
      assert (h + [r])[|h|].fromStatus == LastStatus(h);
    }
    if Connected(h) && r.fromStatus == LastStatus(h) {
      forall i | 0 <= i < |h + [r]|
        ensures (h + [r])[i].fromStatus == LastStatus((h + [r])[..i])
      {
        if i < |h| {
          assert (h + [r])[..i] == h[..i];
        }
      }
    }
  }

  lemma OrderSnoc(h: Rows, r: HistoryRow)
    ensures InTimeOrder(h + [r]) <==> InTimeOrder(h) && (h == [] || h[|h| - 1].changedAt <= r.changedAt)
  {
    if InTimeOrder(h + [r]) {
      forall i, j | 0 <= i < j < |h|
        ensures h[i].changedAt <= h[j].changedAt
      {
        assert (h + [r])[i] == h[i] && (h + [r])[j] == h[j];
      }
      if h != [] {
        assert (h + [r])[|h| - 1].changedAt <= (h + [r])[|h|].changedAt;
      }
    }
  }

  lemma EdgesSnoc(h: Rows, r: HistoryRow)
    ensures Edges(h + [r]) <==> Edges(h) && Edge(r)
  {
    if Edges(h + [r]) {
      forall i | 0 <= i < |h|
        ensures Edge(h[i])
      {
        assert (h + [r])[i] == h[i];
      }
      assert (h + [r])[|h|] == r;
    }
  }

  lemma LastSnoc(h: Rows, r: HistoryRow, status: Status)
    ensures LastStatus(h + [r]) == r.toStatus
    ensures LastAt(h + [r], status) == if r.toStatus == status then Some(r.changedAt) else LastAt(h, status)
  {
    assert (h + [r])[..|h|] == h;
  }

  lemma RowsOfSnoc(history: seq<HistoryRow>, r: HistoryRow, id: TicketId)
    ensures RowsOf(history + [r], id) == RowsOf(history, id) + if r.ticketId == id then [r] else []
  {
    assert (history + [r])[..|history|] == history;
  }

  // ---------------------------------------------------------------- the invariant

  /** The ticket row and its history agree, in every interleaving. */
  ghost predicate Agrees(t: Ticket, h: Rows) {
    && t.status == LastStatus(h)
    && t.assignedAt == LastAt(h, Assigned)
    && t.resolvedAt == LastAt(h, Resolved)
    && t.closedAt == LastAt(h, Closed)
    && (t.assignedAgentId.None? <==> t.status.Open?)
    && Edges(h)
  }

  ghost predicate Tracked(h: Rows, stale: bool, late: bool, now: Time) {
    && (Connected(h) <==> !stale)
    && (InTimeOrder(h) <==> !late)
    && (forall i :: 0 <= i < |h| ==> h[i].changedAt <= now)
  }

  ghost predicate TicketOk(s: System, id: TicketId) {
    var h := RowsOf(s.db.history, id);
    && (if id in s.db.tickets then Agrees(s.db.tickets[id], h) else h == [])
    && Tracked(h, id in s.stale, id in s.late, s.now)
  }

  /** A pending write is about an existing ticket, and a pending status update along an edge of
      the state machine, which no open ticket has. */
  predicate PendingOk(s: System, p: Phase) {
    var w := p.write;
    && w.ticket in s.db.tickets
    && (w.Transition? ==> !s.db.tickets[w.ticket].status.Open? && w.toStatus in AllowedTransitions(w.fromStatus))
    && (p.at.Some? ==> p.at.value <= s.now)
  }

  /** What the ticket looked like when the call read it is what it looks like still. */
  predicate Undisturbed(s: System, p: Phase) {
    var id := p.write.ticket;
    && !Stale(s.db, p.write)
    && (p.at.Some? ==> !Late(s.db, id, p.at.value))
    && (p.write.Assign? && p.write.claim && id in s.db.tickets ==> s.db.tickets[id].assignedAgentId.None?)
  }

  /** A ticket whose calls have not overlapped so far. */
  ghost predicate SerialOk(s: System, id: TicketId) {
    id !in s.overlapped ==>
      && id !in s.stale && id !in s.late
      && (forall c, d :: (&& c in s.calls && d in s.calls
                          && s.calls[c].write.ticket == id && s.calls[d].write.ticket == id) ==> c == d)
      && (forall c :: c in s.calls && s.calls[c].write.ticket == id ==> Undisturbed(s, s.calls[c]))
  }

  ghost predicate Inv(s: System) {
    && (forall id :: TicketOk(s, id))
    && (forall c :: c in s.calls ==> PendingOk(s, s.calls[c]))
    && (forall id :: SerialOk(s, id))
  }

  // ---------------------------------------------------------------- one step keeps it

  /** Writing one ticket appends one row to its history and leaves every other ticket alone. */
  function RowOf(db: Db, w: Write, at: Time): HistoryRow
    requires w.ticket in db.tickets
  {
    match w
    case Assign(id, _, actor, _) => HistoryRow(|db.history|, id, db.tickets[id].status, Assigned, actor, at)
    case Transition(id, fromStatus, toStatus, actor) => HistoryRow(|db.history|, id, fromStatus, toStatus, actor, at)
  }

  lemma WriteFrame(db: Db, w: Write, at: Time, id: TicketId)
    requires w.ticket in db.tickets
    ensures var after := Written(db, w, at);
            && after.tickets.Keys == db.tickets.Keys
            && RowsOf(after.history, w.ticket) == RowsOf(db.history, w.ticket) + [RowOf(db, w, at)]
            && (id != w.ticket ==> RowsOf(after.history, id) == RowsOf(db.history, id))
            && (id != w.ticket && id in db.tickets ==> after.tickets[id] == db.tickets[id])
  {
    RowsOfSnoc(db.history, RowOf(db, w, at), id);
    RowsOfSnoc(db.history, RowOf(db, w, at), w.ticket);
  }

  lemma WriteAgrees(db: Db, w: Write, at: Time)
    requires w.ticket in db.tickets && Agrees(db.tickets[w.ticket], RowsOf(db.history, w.ticket))
    requires w.Transition? ==>
               !db.tickets[w.ticket].status.Open? && w.toStatus in AllowedTransitions(w.fromStatus)
    ensures var after := Written(db, w, at);
            w.ticket in after.tickets && Agrees(after.tickets[w.ticket], RowsOf(after.history, w.ticket))
  {
    var h, r := RowsOf(db.history, w.ticket), RowOf(db, w, at);
    WriteFrame(db, w, at, w.ticket);
    LastSnoc(h, r, Assigned);
    LastSnoc(h, r, Resolved);
    LastSnoc(h, r, Closed);
    EdgesSnoc(h, r);
    NeverOpen(r);
  }

  lemma TrackedSnoc(h: Rows, r: HistoryRow, stale: bool, late: bool, now: Time)
    requires Tracked(h, stale, late, now) && r.changedAt <= now
    ensures Tracked(h + [r], stale || r.fromStatus != LastStatus(h),
                    late || (h != [] && r.changedAt < h[|h| - 1].changedAt), now)
  {
    ConnectedSnoc(h, r);
    OrderSnoc(h, r);
  }

  lemma CommitWritten(s: System, c: CallId)
    requires c in s.calls && s.calls[c].at.Some? && PendingOk(s, s.calls[c])
    requires TicketOk(s, s.calls[c].write.ticket)
    ensures TicketOk(CommitStep(s, c), s.calls[c].write.ticket)
  {
    var w, at := s.calls[c].write, s.calls[c].at.value;
    var id := w.ticket;
    var h, r := RowsOf(s.db.history, id), RowOf(s.db, w, at);
    WriteFrame(s.db, w, at, id);
    WriteAgrees(s.db, w, at);
    assert Stale(s.db, w) <==> r.fromStatus != LastStatus(h);
    TrackedSnoc(h, r, id in s.stale, id in s.late, s.now);
  }

  lemma CommitTicketOk(s: System, c: CallId, id: TicketId)
    requires c in s.calls && s.calls[c].at.Some? && PendingOk(s, s.calls[c])
    requires TicketOk(s, id) && TicketOk(s, s.calls[c].write.ticket)
    ensures TicketOk(CommitStep(s, c), id)
  {
    if id == s.calls[c].write.ticket {
      CommitWritten(s, c);
    } else {
      WriteFrame(s.db, s.calls[c].write, s.calls[c].at.value, id);
    }
  }

  lemma CommitSerialOk(s: System, c: CallId, id: TicketId)
    requires c in s.calls && s.calls[c].at.Some? && PendingOk(s, s.calls[c])
    requires SerialOk(s, id) && SerialOk(s, s.calls[c].write.ticket)
    ensures SerialOk(CommitStep(s, c), id)
  {
    var after := CommitStep(s, c);
    var w, at := s.calls[c].write, s.calls[c].at.value;
    if id != w.ticket {
      WriteFrame(s.db, w, at, id);
      forall d | d in after.calls && after.calls[d].write.ticket == id
        ensures id !in s.overlapped ==> Undisturbed(after, after.calls[d])
      {
        if id !in s.overlapped {
          assert Undisturbed(s, s.calls[d]);
        }
      }
    } else if id !in s.overlapped {
      assert Undisturbed(s, s.calls[c]);
      assert forall d :: d in after.calls ==> after.calls[d].write.ticket != id;
    }
  }

  lemma CommitPendingOk(s: System, c: CallId, d: CallId)
    requires c in s.calls && s.calls[c].at.Some? && PendingOk(s, s.calls[c])
    requires d in s.calls && d != c && PendingOk(s, s.calls[d])
    ensures PendingOk(CommitStep(s, c), s.calls[d])
  {
    var w, at := s.calls[c].write, s.calls[c].at.value;
    WriteFrame(s.db, w, at, s.calls[d].write.ticket);
    if w.Transition? {
      NeverOpen(RowOf(s.db, w, at));
    }
  }

  lemma CommitInv(s: System, c: CallId)
    requires Inv(s) && c in s.calls && s.calls[c].at.Some?
    ensures Inv(CommitStep(s, c))
  {
    var after := CommitStep(s, c);
    assert PendingOk(s, s.calls[c]);
    forall id
      ensures TicketOk(after, id) && SerialOk(after, id)
    {
      assert TicketOk(s, id) && TicketOk(s, s.calls[c].write.ticket);
      assert SerialOk(s, id) && SerialOk(s, s.calls[c].write.ticket);
      CommitTicketOk(s, c, id);
      CommitSerialOk(s, c, id);
    }
    forall d | d in after.calls
      ensures PendingOk(after, after.calls[d])
    {
      assert PendingOk(s, s.calls[d]);
      CommitPendingOk(s, c, d);
    }
  }

  lemma BeginInv(s: System, c: CallId, w: Write)
    requires Inv(s) && c !in s.calls
    requires PendingOk(s, Phase(w, None)) && Undisturbed(s, Phase(w, None))
    ensures Inv(Begin(s, c, w))
  {
    var after := Begin(s, c, w);
    forall id
      ensures TicketOk(after, id) && SerialOk(after, id)
    {
      assert TicketOk(s, id) && SerialOk(s, id);
      forall d | d in after.calls && after.calls[d].write.ticket == id
        ensures id !in after.overlapped ==> Undisturbed(after, after.calls[d])
      {
        if d != c && id !in after.overlapped {
          assert Undisturbed(s, s.calls[d]);
        }
      }
    }
    forall d | d in after.calls
      ensures PendingOk(after, after.calls[d])
    {
      if d != c {
        assert PendingOk(s, s.calls[d]);
      }
    }
  }

  lemma ReadInv(s: System, e: Event)
    requires Inv(s) && (e.ReadAssign? || e.ReadUpdate?)
    ensures Inv(Step(s, e))
  {
    match e
    case ReadAssign(c, id, requester, role, target) =>
      var d := DecideAssign(Lookup(s.db, id), requester, role, target);
      if c !in s.calls && d.Ok? {
        BeginInv(s, c, Assign(id, d.value, requester, role.Agent?));
      }
    case ReadUpdate(c, id, requester, role, newStatus) =>
      var d := DecideUpdate(Lookup(s.db, id), requester, role, newStatus);
      if c !in s.calls && d.Ok? {
        BeginInv(s, c, Transition(id, d.value, newStatus, requester));
      }
  }

  lemma CreateInv(s: System, id: TicketId, user: UserId)
    requires Inv(s) && id !in s.db.tickets
    ensures Inv(s.(db := CreateIn(s.db, id, user)))
  {
    var after := s.(db := CreateIn(s.db, id, user));
    forall i
      ensures TicketOk(after, i) && SerialOk(after, i)
    {
      assert TicketOk(s, i) && SerialOk(s, i);
      forall d | d in after.calls && after.calls[d].write.ticket == i
        ensures i !in s.overlapped ==> Undisturbed(after, after.calls[d])
      {
        assert PendingOk(s, s.calls[d]);
        if i !in s.overlapped {
          assert Undisturbed(s, s.calls[d]);
        }
      }
    }
    forall d | d in after.calls
      ensures PendingOk(after, after.calls[d])
    {
      assert PendingOk(s, s.calls[d]);
    }
  }

  /** Reading the clock and time passing touch no ticket. */
  lemma ClockInv(s: System, c: CallId)
    requires Inv(s) && c in s.calls && s.calls[c].at.None?
    ensures Inv(s.(calls := s.calls[c := s.calls[c].(at := Some(s.now))]))
  {
    var after := s.(calls := s.calls[c := s.calls[c].(at := Some(s.now))]);
    forall id
      ensures TicketOk(after, id) && SerialOk(after, id)
    {
      assert TicketOk(s, id) && SerialOk(s, id);
      forall d | d in after.calls && after.calls[d].write.ticket == id
        ensures id !in s.overlapped ==> Undisturbed(after, after.calls[d])
      {
        if id !in s.overlapped {
          assert Undisturbed(s, s.calls[d]);
        }
      }
    }
    forall d | d in after.calls
      ensures PendingOk(after, after.calls[d])
    {
      assert PendingOk(s, s.calls[d]);
    }
  }

  lemma TickInv(s: System, d: nat)
    requires Inv(s)
    ensures Inv(s.(now := s.now + d))
  {
    var after := s.(now := s.now + d);
    forall id
      ensures TicketOk(after, id) && SerialOk(after, id)
    {
      assert TicketOk(s, id) && SerialOk(s, id);
      forall c | c in s.calls && s.calls[c].write.ticket == id
        ensures id !in s.overlapped ==> Undisturbed(after, s.calls[c])
      {
        if id !in s.overlapped {
          assert Undisturbed(s, s.calls[c]);
        }
      }
    }
    forall c | c in s.calls
      ensures PendingOk(after, s.calls[c])
    {
      assert PendingOk(s, s.calls[c]);
    }
  }

  lemma StepInv(s: System, e: Event)
    requires Inv(s)
    ensures Inv(Step(s, e))
  {
    match e
    case Create(id, user) =>
      if id !in s.db.tickets {
        CreateInv(s, id, user);
      }
    case ReadAssign(_, _, _, _, _) => ReadInv(s, e);
    case ReadUpdate(_, _, _, _, _) => ReadInv(s, e);
    case ReadClock(c) =>
      if c in s.calls && s.calls[c].at.None? {
        ClockInv(s, c);
      }
    case Commit(c) =>
      if c in s.calls && s.calls[c].at.Some? {
        CommitInv(s, c);
      }
    case Tick(d) => TickInv(s, d);
  }

  lemma {:induction false} RunInv(events: seq<Event>)
    ensures Inv(Run(events))
  {
    if events == [] {
      assert forall id :: RowsOf(EMPTY.db.history, id) == [];
    } else {
      var n := |events| - 1;
      RunInv(events[..n]);
      StepInv(Run(events[..n]), events[n]);
    }
  }
}
