/** What is promised of the persisting consumers, over every run with any number of replicas, lost
    connections and redeliveries. */
module PersistTheorems {
  import opened Options
  import opened PersistConsumer

  /** How many places hold message m. */
  function Places(s: System, m: MessageId): nat {
    multiset(s.ready)[m] + (if m in s.unacked then 1 else 0) + multiset(s.acked)[m] + multiset(s.dead)[m]
  }

  /** Notification rows that message m has left. */
  function RowsFrom(rows: seq<Row>, m: MessageId): nat {
    if rows == [] then 0
    else RowsFrom(rows[..|rows| - 1], m) + if rows[|rows| - 1].message == m then 1 else 0
  }

  predicate Targeted(body: Body) {
    body.event.Some? && body.event.value.targetUserId.Some?
  }

  predicate Broadcast(body: Body) {
    body.event.Some? && body.event.value.targetUserId.None?
  }

  // ---------------------------------------------------------------- the invariant

  ghost predicate Conserved(s: System) {
    forall m: MessageId :: Places(s, m) == if m < |s.bodies| then 1 else 0
  }

  /** A row carries the user and the exact body of the message that left it. */
  predicate RowOk(bodies: seq<Body>, r: Row) {
    && r.message < |bodies| && Targeted(bodies[r.message])
    && r.note == Notification(bodies[r.message].event.value.targetUserId.value, bodies[r.message])
  }

  ghost predicate RowsOk(s: System) {
    forall i :: 0 <= i < |s.rows| ==> RowOk(s.bodies, s.rows[i])
  }

  /** Writes of message m that are still possible without putting it back. */
  function ToCome(s: System, m: MessageId): nat {
    s.orphans[m] + if m in s.ready || (m in s.unacked && s.unacked[m].stage.Delivered?) then 1 else 0
  }

  /** What is known of one message wherever it is. */
  predicate MessageOk(s: System, m: MessageId)
    requires m < |s.bodies|
  {
    var n := RowsFrom(s.rows, m);
    && n + ToCome(s, m) <= 1 + s.redelivered[m]
    && (m in s.unacked && s.unacked[m].stage.Handled? ==>
          if s.unacked[m].stage.success then s.bodies[m].event.Some? && (Targeted(s.bodies[m]) ==> n >= 1)
          else !Broadcast(s.bodies[m]))
    && (m in s.acked ==> s.bodies[m].event.Some? && (Targeted(s.bodies[m]) ==> n >= 1))
    && (m in s.dead ==> !Broadcast(s.bodies[m]))
  }

  ghost predicate Inv(s: System) {
    && Conserved(s) && RowsOk(s)
    && (forall m :: m in s.redelivered || m in s.orphans ==> m < |s.bodies|)
    && (forall m :: 0 <= m < |s.bodies| ==> MessageOk(s, m))
  }

  // ---------------------------------------------------------------- one step keeps it

  lemma RowsFromSnoc(rows: seq<Row>, r: Row, m: MessageId)
    ensures RowsFrom(rows + [r], m) == RowsFrom(rows, m) + if r.message == m then 1 else 0
  {
    assert (rows + [r])[..|rows|] == rows;
  }

  lemma {:induction false} NoRowsOfUnrouted(s: System, rows: seq<Row>, m: MessageId)
    requires m >= |s.bodies| && forall i :: 0 <= i < |rows| ==> RowOk(s.bodies, rows[i])
    ensures RowsFrom(rows, m) == 0
  {
    if rows != [] {
      assert RowOk(s.bodies, rows[|rows| - 1]);
      NoRowsOfUnrouted(s, rows[..|rows| - 1], m);
    }
  }

  lemma RouteInv(s: System, body: Body)
    requires Inv(s)
    ensures Inv(Step(s, Route(body)))
  {
    var after := Step(s, Route(body));
    forall m: MessageId
      ensures Places(after, m) == if m < |after.bodies| then 1 else 0
    {
      assert Places(s, m) == if m < |s.bodies| then 1 else 0;
    }
    forall i | 0 <= i < |after.rows|
      ensures RowOk(after.bodies, after.rows[i])
    {
      assert RowOk(s.bodies, s.rows[i]);
    }
    forall m | 0 <= m < |after.bodies|
      ensures MessageOk(after, m)
    {
      if m < |s.bodies| {
        assert MessageOk(s, m);
      } else {
        NoRowsOfUnrouted(s, s.rows, m);
        assert Places(s, m) == 0;
      }
    }
  }

  lemma DeliverInv(s: System, consumer: ConsumerId)
    requires Inv(s) && s.ready != []
    ensures Inv(Step(s, Deliver(consumer)))
  {
    var after := Step(s, Deliver(consumer));
    var d := s.ready[0];
    assert s.ready == [d] + after.ready;
    forall m: MessageId
      ensures Places(after, m) == if m < |after.bodies| then 1 else 0
    {
      assert Places(s, m) == if m < |s.bodies| then 1 else 0;
      assert multiset(s.ready) == multiset{d} + multiset(after.ready);
    }
    forall m | 0 <= m < |after.bodies|
      ensures MessageOk(after, m)
    {
      assert MessageOk(s, m);
      assert m in after.ready ==> m in s.ready;
    }
  }

  /** What one write adds to the rows, and what it may be. */
  lemma WriteRows(s: System, m: MessageId, a: Answer, k: MessageId)
    requires RowsOk(s) && m < |s.bodies|
    ensures var rows := Write(s, m, a);
            && (forall i :: 0 <= i < |rows| ==> RowOk(s.bodies, rows[i]))
            && RowsFrom(rows, k) == RowsFrom(s.rows, k) + if k == m && Targeted(s.bodies[m]) && a.stored then 1 else 0
  {
    var row := Handle(s.bodies[m], a).1;
    if row.Some? {
      RowsFromSnoc(s.rows, Row(m, row.value), k);
    }
  }

  /** A message that a step is not about. */
  lemma OtherMessageOk(s: System, after: System, k: MessageId)
    requires k < |s.bodies| && MessageOk(s, k) && after.bodies == s.bodies
    requires RowsFrom(after.rows, k) == RowsFrom(s.rows, k)
    requires after.ready == s.ready && after.acked == s.acked && after.dead == s.dead
    requires after.redelivered == s.redelivered && after.orphans[k] == s.orphans[k]
    requires (k in after.unacked <==> k in s.unacked) && (k in s.unacked ==> after.unacked[k] == s.unacked[k])
    ensures MessageOk(after, k)
  {
  }

  /** The message a consumer has just handled. */
  lemma HandledOk(s: System, m: MessageId, a: Answer)
    requires m < |s.bodies| && MessageOk(s, m) && Places(s, m) == 1
    requires m in s.unacked && s.unacked[m].stage.Delivered? && Honest(a)
    requires RowsFrom(Write(s, m, a), m) == RowsFrom(s.rows, m) + if Targeted(s.bodies[m]) && a.stored then 1 else 0
    ensures MessageOk(Step(s, Process(m, a)), m)
  {
    assert m !in multiset(s.ready) && m !in multiset(s.acked) && m !in multiset(s.dead);
  }

  lemma SamePlaces(s: System, after: System)
    requires Conserved(s) && after.bodies == s.bodies && after.unacked.Keys == s.unacked.Keys
    requires after.ready == s.ready && after.acked == s.acked && after.dead == s.dead
    ensures Conserved(after)
  {
    forall k: MessageId
      ensures Places(after, k) == if k < |after.bodies| then 1 else 0
    {
      assert Places(after, k) == Places(s, k);
    }
  }

  lemma ProcessInv(s: System, m: MessageId, a: Answer)
    requires Inv(s) && m < |s.bodies| && m in s.unacked && s.unacked[m].stage.Delivered? && Honest(a)
    ensures Inv(Step(s, Process(m, a)))
  {
    var after := Step(s, Process(m, a));
    SamePlaces(s, after);
    WriteRows(s, m, a, m);
    forall k | 0 <= k < |after.bodies|
      ensures MessageOk(after, k)
    {
      assert MessageOk(s, k) && Places(s, k) == 1;
      WriteRows(s, m, a, k);
      if k == m {
        HandledOk(s, m, a);
      } else {
        OtherMessageOk(s, after, k);
      }
    }
  }

  lemma SettleInv(s: System, m: MessageId)
    requires Inv(s) && m in s.unacked && s.unacked[m].stage.Handled?
    ensures Inv(Step(s, Settle(m)))
  {
    var after := Step(s, Settle(m));
    forall k: MessageId
      ensures Places(after, k) == if k < |after.bodies| then 1 else 0
    {
      assert Places(s, k) == if k < |s.bodies| then 1 else 0;
    }
    forall k | 0 <= k < |after.bodies|
      ensures MessageOk(after, k)
    {
      assert MessageOk(s, k);
    }
  }

  lemma LoseInv(s: System, consumer: ConsumerId, order: seq<MessageId>)
    requires Inv(s) && multiset(order) == multiset(HeldBy(s, consumer))
    ensures Inv(Step(s, Lose(consumer, order)))
  {
    var held := HeldBy(s, consumer);
    var after := Step(s, Lose(consumer, order));
    forall k: MessageId
      ensures Places(after, k) == if k < |after.bodies| then 1 else 0
    {
      assert Places(s, k) == if k < |s.bodies| then 1 else 0;
      assert multiset(after.ready) == multiset(order) + multiset(s.ready);
      assert multiset(held)[k] == if k in held then 1 else 0;
    }
    forall k | k in held
      ensures k < |s.bodies|
    {
      assert Places(s, k) == if k < |s.bodies| then 1 else 0;
    }
    forall k | 0 <= k < |after.bodies|
      ensures MessageOk(after, k)
    {
      assert MessageOk(s, k);
      assert k in after.ready ==> k in s.ready || k in held by {
        if k in order {
          assert k in multiset(order);
        }
      }
    }
  }

  /** A write that comes late turns one write to come into a row. */
  lemma OrphanOk(s: System, m: MessageId, a: Answer)
    requires m < |s.bodies| && MessageOk(s, m) && m in s.orphans && Honest(a)
    requires RowsFrom(Write(s, m, a), m) == RowsFrom(s.rows, m) + if Targeted(s.bodies[m]) && a.stored then 1 else 0
    ensures MessageOk(Step(s, Orphan(m, a)), m)
  {
  }

  lemma OrphanInv(s: System, m: MessageId, a: Answer)
    requires Inv(s) && m < |s.bodies| && m in s.orphans && Honest(a)
    ensures Inv(Step(s, Orphan(m, a)))
  {
    var after := Step(s, Orphan(m, a));
    SamePlaces(s, after);
    WriteRows(s, m, a, m);
    forall k | 0 <= k < |after.bodies|
      ensures MessageOk(after, k)
    {
      assert MessageOk(s, k);
      WriteRows(s, m, a, k);
      if k == m {
        OrphanOk(s, m, a);
      } else {
        OtherMessageOk(s, after, k);
      }
    }
  }

  lemma StepInv(s: System, e: Action)
    requires Inv(s)
    ensures Inv(Step(s, e))
  {
    if Step(s, e) != s {
      match e
      case Route(body) => RouteInv(s, body);
      case Deliver(consumer) => DeliverInv(s, consumer);
      case Process(m, a) => ProcessInv(s, m, a);
      case Settle(m) => SettleInv(s, m);
      case Lose(consumer, order) => LoseInv(s, consumer, order);
      case Orphan(m, a) => OrphanInv(s, m, a);
    }
  }

  lemma {:induction false} RunInv(actions: seq<Action>)
    ensures Inv(Run(actions))
  {
    if actions != [] {
      RunInv(actions[..|actions| - 1]);
      StepInv(Run(actions[..|actions| - 1]), actions[|actions| - 1]);
    }
  }

  // ---------------------------------------------------------------- theorems

  /** Conservation: every message routed to the queue is in exactly one of ready, unacked, acked
      and dead-lettered, exactly once; nothing else is anywhere. */
  lemma Conservation(actions: seq<Action>, m: MessageId)
    ensures var s := Run(actions); Places(s, m) == if m < |s.bodies| then 1 else 0
  {
    RunInv(actions);
  }

  /** An acked message that is for a user has left a row, one more at most for each time it was
      put back: so exactly one if it was never redelivered. Malformed messages are never acked. */
  lemma AckedIsPersisted(actions: seq<Action>, m: MessageId)
    requires m in Run(actions).acked
    ensures var s := Run(actions);
            && m < |s.bodies| && s.bodies[m].event.Some?
            && (Targeted(s.bodies[m]) ==> 1 <= RowsFrom(s.rows, m) <= 1 + s.redelivered[m])
  {
    RunInv(actions);
    var s := Run(actions);
    assert m in multiset(s.acked);
    assert Places(s, m) == if m < |s.bodies| then 1 else 0;
    assert MessageOk(s, m);
  }

  /** Acked or not, a message leaves at most one row more than the times it was put back. */
  lemma RowsAreBounded(actions: seq<Action>, m: MessageId)
    ensures var s := Run(actions); RowsFrom(s.rows, m) <= 1 + s.redelivered[m]
  {
    RunInv(actions);
    var s := Run(actions);
    if m < |s.bodies| {
      assert MessageOk(s, m);
    } else {
      NoRowsOfUnrouted(s, s.rows, m);
    }
  }

  /** Every row is some targeted message's, for its user and with its body; so neither a role
      broadcast nor a malformed message is ever persisted. */
  lemma RowsAreTargeted(actions: seq<Action>, i: nat)
    requires i < |Run(actions).rows|
    ensures var s := Run(actions);
            var r := s.rows[i];
            && r.message < |s.bodies| && Targeted(s.bodies[r.message])
            && r.note.payload == s.bodies[r.message]
            && Some(r.note.userId) == s.bodies[r.message].event.value.targetUserId
  {
    RunInv(actions);
    assert RowOk(Run(actions).bodies, Run(actions).rows[i]);
  }

  /** Only malformed or user-targeted messages are dead-lettered; a role broadcast never is. */
  lemma BroadcastsAreNeverParked(actions: seq<Action>, m: MessageId)
    requires m in Run(actions).dead
    ensures var s := Run(actions); m < |s.bodies| && !Broadcast(s.bodies[m])
  {
    RunInv(actions);
    var s := Run(actions);
    assert m in multiset(s.dead);
    assert Places(s, m) == if m < |s.bodies| then 1 else 0;
    assert MessageOk(s, m);
  }

  lemma StepGrows(s: System, e: Action)
    ensures s.acked <= Step(s, e).acked && s.dead <= Step(s, e).dead && s.rows <= Step(s, e).rows
  {
  }

  lemma RunSplit(before: seq<Action>, later: seq<Action>)
    requires later != []
    ensures Run(before + later) == Step(Run(before + later[..|later| - 1]), later[|later| - 1])
  {
    assert (before + later)[..|before + later| - 1] == before + later[..|later| - 1];
  }

  /** What is settled stays settled, and rows are never lost. */
  lemma {:induction false} SettledStays(before: seq<Action>, later: seq<Action>)
    ensures Run(before).acked <= Run(before + later).acked
    ensures Run(before).dead <= Run(before + later).dead
    ensures Run(before).rows <= Run(before + later).rows
  {
    if later == [] {
      assert before + later == before;
    } else {
      var n := |later| - 1;
      SettledStays(before, later[..n]);
      RunSplit(before, later);
      StepGrows(Run(before + later[..n]), later[n]);
    }
  }

  lemma Then(actions: seq<Action>, e: Action, s: System) returns (more: seq<Action>)
    requires Run(actions) == s
    ensures more == actions + [e] && Run(more) == Step(s, e)
  {
    more := actions + [e];
    assert more[..|actions|] == actions;
  }

  // ---------------------------------------------------------------- redelivery duplicates

  function Copies(row: Row, n: nat): seq<Row> {
    if n == 0 then [] else Copies(row, n - 1) + [row]
  }

  lemma {:induction false} CopiesCount(row: Row, n: nat)
    ensures RowsFrom(Copies(row, n), row.message) == n
  {
    if n > 0 {
      CopiesCount(row, n - 1);
      RowsFromSnoc(Copies(row, n - 1), row, row.message);
    }
  }

  function RowOf(body: Body): Row
    requires Targeted(body)
  {
    Row(0, Notification(body.event.value.targetUserId.value, body))
  }

  /** One message, back in the queue for the r-th time, with a row from every delivery. */
  function PutBack(body: Body, r: nat): System
    requires Targeted(body)
  {
    System([body], [0], map[], [], [], Copies(RowOf(body), r), multiset{}[0 := r], multiset{})
  }

  /** The message is delivered and persisted, and the ack not yet sent. */
  function Persisted(body: Body, r: nat): System
    requires Targeted(body)
  {
    PutBack(body, r).(ready := [], unacked := map[0 := Hold(7, Handled(true))],
                      rows := Copies(RowOf(body), r + 1))
  }

  function InHand(body: Body, r: nat): System
    requires Targeted(body)
  {
    PutBack(body, r).(ready := [], unacked := map[0 := Hold(7, Delivered)])
  }

  lemma Take(actions: seq<Action>, body: Body, r: nat) returns (more: seq<Action>)
    requires Targeted(body) && Run(actions) == PutBack(body, r)
    ensures Run(more) == InHand(body, r)
  {
    more := Then(actions, Deliver(7), PutBack(body, r));
  }

  lemma Persist(actions: seq<Action>, body: Body, r: nat) returns (more: seq<Action>)
    requires Targeted(body) && Run(actions) == PutBack(body, r)
    ensures Run(more) == Persisted(body, r)
  {
    more := Take(actions, body, r);
    more := Then(more, Process(0, Answer(true, true)), InHand(body, r));
  }

  /** The connection is lost before the ack gets through. */
  lemma LoseAck(actions: seq<Action>, body: Body, r: nat) returns (more: seq<Action>)
    requires Targeted(body) && Run(actions) == Persisted(body, r)
    ensures Run(more) == PutBack(body, r + 1)
  {
    var s := Persisted(body, r);
    assert HeldBy(s, 7) == {0};
    more := Then(actions, Lose(7, [0]), s);
    assert multiset{}[0 := r] + multiset({0}) == multiset{}[0 := r + 1];
  }

  lemma {:induction false} Rounds(body: Body, r: nat) returns (actions: seq<Action>)
    requires Targeted(body)
    ensures Run(actions) == PutBack(body, r)
  {
    if r == 0 {
      actions := Then([], Route(body), EMPTY);
      assert multiset{}[0 := 0] == multiset{};
    } else {
      actions := Rounds(body, r - 1);
      actions := Persist(actions, body, r - 1);
      actions := LoseAck(actions, body, r - 1);
    }
  }

  /** The bound is met for every number of redeliveries: a message for a user can be acked after r
      of them with r + 1 rows. */
  lemma RedeliveryCanDuplicate(body: Body, r: nat) returns (actions: seq<Action>)
    requires Targeted(body)
    ensures var s := Run(actions);
            s.bodies == [body] && s.acked == [0] && s.redelivered[0] == r && RowsFrom(s.rows, 0) == r + 1
  {
    actions := Rounds(body, r);
    actions := Persist(actions, body, r);
    actions := Then(actions, Settle(0), Persisted(body, r));
    CopiesCount(RowOf(body), r + 1);
  }

  /** Message m was for a user, put back r times and then acked. */
  predicate AckedAfter(s: System, m: MessageId, r: nat) {
    m in s.acked && m < |s.bodies| && Targeted(s.bodies[m]) && s.redelivered[m] == r
  }

  ghost predicate OneRowEach(r: nat) {
    forall actions, m :: AckedAfter(Run(actions), m, r) ==> RowsFrom(Run(actions).rows, m) == 1
  }

  /** Persistence is exactly once, whatever the run, for the messages that were never put back and
      for no others. */
  lemma ExactlyOnceExactly(r: nat)
    ensures OneRowEach(r) <==> r == 0
  {
    if r == 0 {
      forall actions, m | AckedAfter(Run(actions), m, r)
        ensures RowsFrom(Run(actions).rows, m) == 1
      {
        AckedIsPersisted(actions, m);
      }
    } else {
      var actions := RedeliveryCanDuplicate(Body("", Some(Event(Some(0), []))), r);
      assert AckedAfter(Run(actions), 0, r) && RowsFrom(Run(actions).rows, 0) != 1;
    }
  }
}
