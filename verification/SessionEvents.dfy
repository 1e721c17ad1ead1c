/** What each event does to the live tokens, over every run. */
module SessionEvents {
  import opened Options
  import opened SessionStore
  import opened SessionRecency
  import opened SessionHandler
  import opened SessionTheorems

  lemma RunSnoc(cap: nat, events: seq<Event>, e: Event)
    ensures RunSystem(cap, events + [e]) == Step(RunSystem(cap, events), cap, e)
  {
    assert (events + [e])[..|events|] == events;
  }

  /** Live, without naming the query. */
  lemma LiveExactly(s: System, t: Token)
    ensures Live(s, t) <==> exists r :: r in s.st.rows && r.token == HashToken(t)
  {
    TakenIsStored(s.st.rows, t);
  }

  // ---------------------------------------------------------------- login

  /** The sessions of a user that have not expired and were created after `now`. */
  function NewerSessions(s: System, user: UserId, now: Time, dbNow: Time): Table {
    set r | && r in s.st.rows && r.userId == user && r.createdAt > now
            && (r.expiresAt.None? || dbNow <= r.expiresAt.value)
  }

  lemma NewSessionPrecededBy(s: System, user: UserId, now: Time, dbNow: Time, row: Row)
    requires TableOk(s.st) && row.userId == user && row.createdAt == now && row.id == s.st.nextId
    requires row.expiresAt.Some? && dbNow <= row.expiresAt.value
    ensures Preceding(OfUser(Pruned(s.st.rows + {row}, user, dbNow), user), row) == NewerSessions(s, user, now, dbNow)
  {
  }

  /** A login's token is live afterwards if and only if it is not signed in the past, by the lifetime
      of seven days, and its user has fewer sessions that are newer, by their clock, than the cap. */
  lemma LoginIsLiveExactly(maxSessions: int, events: seq<Event>, user: UserId, now: Time, dbNow: Time)
    ensures var cap := SessionCap(maxSessions);
            var s := RunSystem(cap, events);
            Live(RunSystem(cap, events + [Login(user, now, dbNow)]), |s.issued|)
            <==> dbNow <= now + 604_800
                 && |NewerSessions(s, user, now, dbNow)| < if maxSessions > 0 then maxSessions else 5
  {
    var cap := SessionCap(maxSessions);
    var s := RunSystem(cap, events);
    RunInv(cap, events);
    RunSnoc(cap, events, Login(user, now, dbNow));
    var after := RunSystem(cap, events + [Login(user, now, dbNow)]);
    var row := Row(s.st.nextId, user, HashToken(|s.issued|), now, Some(now + 604_800));
    forall r | r in s.st.rows
      ensures r.token != HashToken(|s.issued|)
    {
      assert RowOk(s.issued, r);
    }
    TakenIsStored(s.st.rows, |s.issued|);
    TakenIsStored(after.st.rows, |s.issued|);
    assert row == Stored(s.st.nextId, Minted(user, |s.issued|, now));
    if dbNow <= now + 604_800 {
      NewSessionPrecededBy(s, user, now, dbNow, row);
    }
    assert Live(after, |s.issued|) <==> row in after.st.rows;
  }

  /** So with clocks that do not go back every login starts a live session. */
  lemma LoginIsLive(maxSessions: int, events: seq<Event>, user: UserId, now: Time, dbNow: Time)
    requires dbNow <= now + 604_800
    requires forall r :: r in RunSystem(SessionCap(maxSessions), events).st.rows ==>
                           r.userId == user ==> r.createdAt <= now
    ensures var cap := SessionCap(maxSessions);
            Live(RunSystem(cap, events + [Login(user, now, dbNow)]), |RunSystem(cap, events).issued|)
  {
    LoginIsLiveExactly(maxSessions, events, user, now, dbNow);
    assert NewerSessions(RunSystem(SessionCap(maxSessions), events), user, now, dbNow) == {};
  }

  /** A login ends no other user's session, and starts no other. */
  lemma LoginKeepsOthers(maxSessions: int, events: seq<Event>, user: UserId, now: Time, dbNow: Time, t: Token)
    requires t < |RunSystem(SessionCap(maxSessions), events).issued|
    ensures var cap := SessionCap(maxSessions);
            var s, after := RunSystem(cap, events), RunSystem(cap, events + [Login(user, now, dbNow)]);
            && (Live(after, t) ==> Live(s, t))
            && (s.issued[t].user != user ==> (Live(after, t) <==> Live(s, t)))
            && after.issued == s.issued + [Issue(user, None)]
  {
    var cap := SessionCap(maxSessions);
    var s := RunSystem(cap, events);
    RunInv(cap, events);
    RunSnoc(cap, events, Login(user, now, dbNow));
    var after := RunSystem(cap, events + [Login(user, now, dbNow)]);
    CreateContract(s.st, Minted(user, |s.issued|, now), cap, dbNow);
    TakenIsStored(s.st.rows, t);
    TakenIsStored(after.st.rows, t);
    if r :| r in s.st.rows && r.token == HashToken(t) {
      assert RowOk(s.issued, r);
      assert r.userId != user ==> r in after.st.rows;
    }
  }

  // ---------------------------------------------------------------- refresh

  /** A refresh passes its lookup if and only if its token is valid and live; it is then about that
      token and the user it was issued to. */
  lemma LookupExactly(maxSessions: int, events: seq<Event>, id: RefreshId, token: Token, valid: bool)
    requires id !in RunSystem(SessionCap(maxSessions), events).refreshes
    ensures var cap := SessionCap(maxSessions);
            var s, after := RunSystem(cap, events), RunSystem(cap, events + [Lookup(id, token, valid)]);
            && after.st == s.st && after.issued == s.issued
            && (id in after.refreshes <==> valid && Live(s, token))
            && (id in after.refreshes ==>
                  && token < |s.issued|
                  && after.refreshes == s.refreshes[id := Pending(token, s.issued[token].user)])
  {
    var cap := SessionCap(maxSessions);
    var s := RunSystem(cap, events);
    RunInv(cap, events);
    RunSnoc(cap, events, Lookup(id, token, valid));
    if r :| r in Matching(s.st.rows, token) {
      assert RowOk(s.issued, r);
    }
  }

  // ---------------------------------------------------------------- logout and revocation

  /** Logging out of a session ends that one, if it is the user's, and no other. */
  lemma LogoutExactly(maxSessions: int, events: seq<Event>, user: UserId, token: Token, t: Token)
    ensures var cap := SessionCap(maxSessions);
            var s, after := RunSystem(cap, events), RunSystem(cap, events + [Logout(user, token)]);
            && (Live(s, t) ==> t < |s.issued|)
            && (Live(after, t) <==> Live(s, t) && !(t == token && s.issued[t].user == user))
  {
    var cap := SessionCap(maxSessions);
    var s := RunSystem(cap, events);
    RunInv(cap, events);
    RunSnoc(cap, events, Logout(user, token));
    LiveRows(s, RunSystem(cap, events + [Logout(user, token)]), t);
  }

  /** Revoking a user's sessions ends all of them, and no one else's. */
  lemma RevokeExactly(maxSessions: int, events: seq<Event>, user: UserId, t: Token)
    ensures var cap := SessionCap(maxSessions);
            var s, after := RunSystem(cap, events), RunSystem(cap, events + [Revoke(user)]);
            && (Live(s, t) ==> t < |s.issued|)
            && (Live(after, t) <==> Live(s, t) && s.issued[t].user != user)
  {
    var cap := SessionCap(maxSessions);
    var s := RunSystem(cap, events);
    RunInv(cap, events);
    RunSnoc(cap, events, Revoke(user));
    LiveRows(s, RunSystem(cap, events + [Revoke(user)]), t);
  }

  lemma LiveRows(s: System, after: System, t: Token)
    requires RowsOk(s) && after.st.rows <= s.st.rows
    ensures Live(s, t) ==> t < |s.issued|
    ensures Live(after, t) <==> exists r :: (&& r in after.st.rows && r.token == HashToken(t)
                                             && t < |s.issued| && r.userId == s.issued[t].user)
    ensures Live(s, t) <==> exists r :: (&& r in s.st.rows && r.token == HashToken(t)
                                         && t < |s.issued| && r.userId == s.issued[t].user)
  {
    TakenIsStored(s.st.rows, t);
    TakenIsStored(after.st.rows, t);
    assert forall r :: r in s.st.rows ==> RowOk(s.issued, r);
  }

  // ---------------------------------------------------------------- what is stored

  /** Every stored session expires seven days after it was created. */
  lemma {:induction false} SevenDays(cap: nat, events: seq<Event>, r: Row)
    requires r in RunSystem(cap, events).st.rows
    ensures r.expiresAt == Some(r.createdAt + 604_800)
  {
    var n := |events| - 1;
    if r in RunSystem(cap, events[..n]).st.rows {
      SevenDays(cap, events[..n], r);
    } else {
      assert r == Stored(r.id, Minted(r.userId, r.token.of, r.createdAt));
    }
  }
}
