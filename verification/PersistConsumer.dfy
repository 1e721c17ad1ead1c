/** The persisting consumer of notification-service: the delivery loop of consumer.go, and the
    queue it drains together with any number of replicas. */
module PersistConsumer {
  import opened Options

  type UserId = nat

  /** A message body, with what json.Unmarshal makes of it: nothing, or an event that is for one
      user or, without a target, for roles. */
  datatype Body = Body(raw: string, event: Option<Event>)

  datatype Event = Event(targetUserId: Option<UserId>, targetRoles: seq<string>)

  datatype Notification = Notification(userId: UserId, payload: Body)

  /** What happens inside notifier.Create: whether the row ends up in the table, and whether the
      call returns without an error or a panic. It only does so when the row was stored. */
  datatype Answer = Answer(stored: bool, ok: bool)

  predicate Honest(a: Answer) {
    a.ok ==> a.stored
  }

  /** The verdict on one delivery, true for ack and false for nack, and the row it leaves. */
  function Handle(body: Body, a: Answer): (bool, Option<Notification>) {
    match body.event
    case None => (false, None)
    case Some(evt) =>
      if evt.targetUserId.None? then (true, None)
      else (a.ok, if a.stored then Some(Notification(evt.targetUserId.value, body)) else None)
  }

  function Verdicts(bodies: seq<Body>, answers: seq<Answer>): seq<bool>
    requires |answers| == |bodies|
  {
    seq(|bodies|, i requires 0 <= i < |bodies| => Handle(bodies[i], answers[i]).0)
  }

  function RowsLeft(bodies: seq<Body>, answers: seq<Answer>): seq<Notification>
    requires |answers| == |bodies|
  {
    if bodies == [] then []
    else
      var n := |bodies| - 1;
      var row := Handle(bodies[n], answers[n]).1;
      RowsLeft(bodies[..n], answers[..n]) + if row.Some? then [row.value] else []
  }

  class Consumer {
    var connected: bool
    var rows: seq<Notification>

    constructor ()
      ensures !connected && rows == []
    {
      connected, rows := false, [];
    }

    /** The body of the loop for one delivery. */
    method Process(body: Body, a: Answer) returns (success: bool)
      modifies this
      ensures (success, rows) ==
              (Handle(body, a).0, old(rows) + match Handle(body, a).1 case Some(n) => [n] case None => [])
      ensures success <==> body.event.Some? && (body.event.value.targetUserId.None? || a.ok)
      ensures rows == old(rows) +
                if body.event.Some? && body.event.value.targetUserId.Some? && a.stored
                then [Notification(body.event.value.targetUserId.value, body)] else []
      ensures connected == old(connected)
    {
      assert rows + [] == rows;
      if body.event == None {
        return false;
      }
      var evt := body.event.value;
      if evt.targetUserId == None {
        return true;
      }
      if a.stored {
        rows := rows + [Notification(evt.targetUserId.value, body)];
      }
      return a.ok;
    }

    /** One connection's loop: `bodies` are the deliveries it takes before the connection or its
        channel closes; `acks` is what it answers, in order. */
    method ConsumePersist(bodies: seq<Body>, answers: seq<Answer>) returns (acks: seq<bool>)
      requires |answers| == |bodies|
      modifies this
      ensures acks == Verdicts(bodies, answers)
      ensures forall i :: 0 <= i < |bodies| ==>
                (acks[i] <==> && bodies[i].event.Some?
                              && (bodies[i].event.value.targetUserId.None? || answers[i].ok))
      ensures rows == old(rows) + RowsLeft(bodies, answers)
      ensures !connected
    {
      connected := true;
      acks := [];
      for i := 0 to |bodies|
        invariant connected
        invariant acks == Verdicts(bodies[..i], answers[..i])
        invariant rows == old(rows) + RowsLeft(bodies[..i], answers[..i])
      {
        var success := Process(bodies[i], answers[i]);
        acks := acks + [success];
        assert bodies[..i + 1][..i] == bodies[..i] && answers[..i + 1][..i] == answers[..i];
      }
      assert bodies[..|bodies|] == bodies && answers[..|bodies|] == answers;
      connected := false;
    }
  }

  // ---------------------------------------------------------------- the queue

  type MessageId = nat    // the n-th message routed to the queue
  type ConsumerId = nat

  datatype Stage = Delivered | Handled(success: bool)

  datatype Hold = Hold(consumer: ConsumerId, stage: Stage)

  datatype Row = Row(message: MessageId, note: Notification)

  datatype System = System(
    bodies: seq<Body>,               // bodies[m] is message m
    ready: seq<MessageId>,
    unacked: map<MessageId, Hold>,
    acked: seq<MessageId>,
    dead: seq<MessageId>,            // the dead-letter queue
    rows: seq<Row>,
    redelivered: multiset<MessageId>,  // one occurrence for each time it was put back
    orphans: multiset<MessageId>)      // still being handled by a consumer that lost its connection

  datatype Action =
    | Route(body: Body)
    | Deliver(consumer: ConsumerId)
    | Process(m: MessageId, answer: Answer)
    | Settle(m: MessageId)                                 // the broker gets the ack or the nack
    | Lose(consumer: ConsumerId, order: seq<MessageId>)    // its connection: everything goes back
    | Orphan(m: MessageId, answer: Answer)                 // a late write of a lost consumer

  function HeldBy(s: System, consumer: ConsumerId): set<MessageId> {
    set m | m in s.unacked && s.unacked[m].consumer == consumer
  }

  function Write(s: System, m: MessageId, a: Answer): seq<Row>
    requires m < |s.bodies|
  {
    match Handle(s.bodies[m], a).1
    case Some(n) => s.rows + [Row(m, n)]
    case None => s.rows
  }

  function Step(s: System, e: Action): System {
    match e
    case Route(body) => s.(bodies := s.bodies + [body], ready := s.ready + [|s.bodies|])
    case Deliver(consumer) =>
      if s.ready == [] then s
      else s.(ready := s.ready[1..], unacked := s.unacked[s.ready[0] := Hold(consumer, Delivered)])
    case Process(m, a) =>
      if m < |s.bodies| && m in s.unacked && s.unacked[m].stage.Delivered? && Honest(a) then
        s.(rows := Write(s, m, a),
           unacked := s.unacked[m := s.unacked[m].(stage := Handled(Handle(s.bodies[m], a).0))])
      else s
    case Settle(m) =>
      if m in s.unacked && s.unacked[m].stage.Handled? then
        if s.unacked[m].stage.success then s.(unacked := s.unacked - {m}, acked := s.acked + [m])
        else s.(unacked := s.unacked - {m}, dead := s.dead + [m])
      else s
    case Lose(consumer, order) =>
      var held := HeldBy(s, consumer);
      if multiset(order) != multiset(held) then s
      else s.(ready := order + s.ready, unacked := s.unacked - held,
              redelivered := s.redelivered + multiset(held),
              orphans := s.orphans + multiset(set m | m in held && s.unacked[m].stage.Delivered?))
    case Orphan(m, a) =>
      if m < |s.bodies| && m in s.orphans && Honest(a) then
        s.(rows := Write(s, m, a), orphans := s.orphans - multiset{m})
      else s
  }

  const EMPTY := System([], [], map[], [], [], [], multiset{}, multiset{})

  function Run(actions: seq<Action>): System {
    if actions == [] then EMPTY else Step(Run(actions[..|actions| - 1]), actions[|actions| - 1])
  }
}
