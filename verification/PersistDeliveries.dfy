/** What becomes of one delivery, spelled out, whatever run it is part of. */
module PersistDeliveries {
  import opened Options
  import opened PersistConsumer
  import opened PersistTheorems

  // ---------------------------------------------------------------- one connection

  /** The row a delivery leaves: of a message for a user, if it was stored. */
  function RowLeft(body: Body, a: Answer): seq<Notification> {
    if body.event.Some? && body.event.value.targetUserId.Some? && a.stored
    then [Notification(body.event.value.targetUserId.value, body)] else []
  }

  /** The rows of a connection are those of its deliveries, one after the other. */
  lemma {:induction false} RowsInOrder(body: Body, a: Answer, bodies: seq<Body>, answers: seq<Answer>)
    requires |bodies| == |answers|
    ensures RowsLeft([], []) == []
    ensures RowsLeft([body] + bodies, [a] + answers) == RowLeft(body, a) + RowsLeft(bodies, answers)
  {
    var all, given := [body] + bodies, [a] + answers;
    var n := |bodies|;
    RowsLeftLast(all, given);
    if bodies == [] {
      assert all[..0] == [] && given[..0] == [];
      assert RowLeft(body, a) + [] == [] + RowLeft(body, a);
    } else {
      RowsLeftLast(bodies, answers);
      assert all[..n] == [body] + bodies[..n - 1] && given[..n] == [a] + answers[..n - 1];
      RowsInOrder(body, a, bodies[..n - 1], answers[..n - 1]);
    }
  }

  lemma RowsLeftLast(bodies: seq<Body>, answers: seq<Answer>)
    requires |bodies| == |answers| && bodies != []
    ensures var n := |bodies| - 1;
            RowsLeft(bodies, answers) == RowsLeft(bodies[..n], answers[..n]) + RowLeft(bodies[n], answers[n])
  {
  }

  // ---------------------------------------------------------------- one delivery of a run

  lemma Snoc(actions: seq<Action>, e: Action)
    ensures Run(actions + [e]) == Step(Run(actions), e)
  {
    assert (actions + [e])[..|actions|] == actions;
  }

  function Written(m: MessageId, body: Body, a: Answer): seq<Row> {
    if body.event.Some? && body.event.value.targetUserId.Some? && a.stored
    then [Row(m, Notification(body.event.value.targetUserId.value, body))] else []
  }

  lemma WriteExactly(s: System, m: MessageId, a: Answer)
    requires m < |s.bodies|
    ensures Write(s, m, a) == s.rows + Written(m, s.bodies[m], a)
  {
    assert s.rows + [] == s.rows;
  }

  lemma HeadIsQueued(actions: seq<Action>)
    requires Run(actions).ready != []
    ensures var s := Run(actions); s.ready[0] < |s.bodies| && s.ready[0] !in s.unacked
  {
    var s := Run(actions);
    RunInv(actions);
    assert s.ready[0] in multiset(s.ready);
    assert Places(s, s.ready[0]) == if s.ready[0] < |s.bodies| then 1 else 0;
  }

  lemma HandleStep(s: System, m: MessageId, a: Answer)
    requires m < |s.bodies| && m in s.unacked && s.unacked[m].stage.Delivered? && Honest(a)
    ensures var body := s.bodies[m];
            Step(s, Process(m, a)) ==
            s.(rows := s.rows + Written(m, body, a),
               unacked := s.unacked[m := Hold(s.unacked[m].consumer, Handled(
                 body.event.Some? && (body.event.value.targetUserId.None? || a.ok)))])
  {
    WriteExactly(s, m, a);
  }

  lemma SettleStep(s: System, m: MessageId)
    requires m in s.unacked && s.unacked[m].stage.Handled?
    ensures Step(s, Settle(m)) ==
            s.(unacked := s.unacked - {m},
               acked := if s.unacked[m].stage.success then s.acked + [m] else s.acked,
               dead := if s.unacked[m].stage.success then s.dead else s.dead + [m])
  {
  }

  /** The message at the head of the queue, delivered, handled and settled with nothing in between.
      It is acked if it is for roles, or for a user and stored without an error; otherwise it is
      dead-lettered, not put back. A row is left by a message for a user that was stored. */
  lemma DeliveryEnds(actions: seq<Action>, consumer: ConsumerId, a: Answer, m: MessageId)
    requires Run(actions).ready != [] && Honest(a) && m == Run(actions).ready[0]
    ensures var s := Run(actions);
            m < |s.bodies| &&
            var body := s.bodies[m];
            var good := body.event.Some? && (body.event.value.targetUserId.None? || a.ok);
            Run(actions + [Deliver(consumer)] + [Process(m, a)] + [Settle(m)]) ==
            s.(ready := s.ready[1..],
               acked := if good then s.acked + [m] else s.acked,
               dead := if good then s.dead else s.dead + [m],
               rows := s.rows + Written(m, body, a))
  {
    var s := Run(actions);
    HeadIsQueued(actions);
    Snoc(actions, Deliver(consumer));
    var one := actions + [Deliver(consumer)];
    HandleStep(Run(one), m, a);
    Snoc(one, Process(m, a));
    var two := one + [Process(m, a)];
    SettleStep(Run(two), m);
    Snoc(two, Settle(m));
    assert s.unacked[m := Run(two).unacked[m]] - {m} == s.unacked;
  }

  /** A new message goes to the end of the queue. */
  lemma RouteEnds(actions: seq<Action>, body: Body)
    ensures var s, after := Run(actions), Run(actions + [Route(body)]);
            after == s.(bodies := s.bodies + [body], ready := s.ready + [|s.bodies|])
  {
    Snoc(actions, Route(body));
  }

  /** When a connection is lost, exactly what its consumer had not settled goes back, in front, and
      counts as put back once more; what it had not handled may still be written late. */
  lemma LossPutsBack(actions: seq<Action>, consumer: ConsumerId, order: seq<MessageId>)
    requires var s := Run(actions);
             && (forall m :: m in order <==> m in s.unacked && s.unacked[m].consumer == consumer)
             && (forall i, j :: 0 <= i < j < |order| ==> order[i] != order[j])
    ensures var s, after := Run(actions), Run(actions + [Lose(consumer, order)]);
            && after.ready == order + s.ready
            && (forall m :: m in after.unacked <==> m in s.unacked && s.unacked[m].consumer != consumer)
            && (forall m :: m in after.unacked ==> after.unacked[m] == s.unacked[m])
            && (forall m :: after.redelivered[m] == s.redelivered[m] + if m in order then 1 else 0)
            && (forall m :: after.orphans[m] == s.orphans[m] +
                              if m in order && s.unacked[m].stage.Delivered? then 1 else 0)
            && after.rows == s.rows && after.acked == s.acked && after.dead == s.dead
  {
    var s := Run(actions);
    Snoc(actions, Lose(consumer, order));
    DistinctIsSet(order, HeldBy(s, consumer));
  }

  lemma {:induction false} DistinctIsSet(order: seq<MessageId>, held: set<MessageId>)
    requires forall m :: m in order <==> m in held
    requires forall i, j :: 0 <= i < j < |order| ==> order[i] != order[j]
    ensures multiset(order) == multiset(held)
  {
    if order == [] {
      assert held == {};
    } else {
      var n := |order| - 1;
      var m, most := order[n], order[..n];
      assert order == most + [m];
      forall k
        ensures k in most <==> k in held - {m}
      {
        if k in most {
          var i :| 0 <= i < n && most[i] == k;
          assert order[i] == k;
        }
      }
      DistinctIsSet(most, held - {m});
      assert held == (held - {m}) + {m};
    }
  }

  lemma OrphanIsRouted(actions: seq<Action>, m: MessageId)
    requires m in Run(actions).orphans
    ensures m < |Run(actions).bodies|
  {
    RunInv(actions);
  }

  lemma LateStep(s: System, m: MessageId, a: Answer)
    requires m < |s.bodies| && m in s.orphans && Honest(a)
    ensures Step(s, Orphan(m, a)) == s.(orphans := s.orphans - multiset{m}, rows := s.rows + Written(m, s.bodies[m], a))
  {
    WriteExactly(s, m, a);
  }

  /** A write that comes late leaves its row, once. */
  lemma LateWriteEnds(actions: seq<Action>, m: MessageId, a: Answer)
    requires m in Run(actions).orphans && Honest(a)
    ensures var s := Run(actions);
            && m < |s.bodies|
            && Run(actions + [Orphan(m, a)]) ==
               s.(orphans := s.orphans - multiset{m}, rows := s.rows + Written(m, s.bodies[m], a))
  {
    OrphanIsRouted(actions, m);
    Snoc(actions, Orphan(m, a));
    LateStep(Run(actions), m, a);
  }
}
