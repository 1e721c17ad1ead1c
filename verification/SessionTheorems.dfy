/** What is promised of sessions, for every interleaving of logins, refreshes, logouts and
    revocations: a linear lineage, revocation that is final, and the cap. */
module SessionTheorems {
  import opened Options
  import opened SessionStore
  import opened SessionRecency
  import opened SessionHandler

  // ---------------------------------------------------------------- the invariant

  predicate IssueOk(issued: seq<Issue>, t: Token)
    requires t < |issued|
  {
    issued[t].parent.Some? ==> issued[t].parent.value < t && issued[issued[t].parent.value].user == issued[t].user
  }

  predicate RowOk(issued: seq<Issue>, r: Row) {
    r.token.of < |issued| && r.userId == issued[r.token.of].user
  }

  predicate PendingOk(issued: seq<Issue>, p: Pending) {
    p.token < |issued| && p.user == issued[p.token].user
  }

  /** What is stored, or about to be rotated, is about issued tokens and their users. */
  ghost predicate RowsOk(s: System) {
    && TableOk(s.st)
    && (forall t :: 0 <= t < |s.issued| ==> IssueOk(s.issued, t))
    && (forall r :: r in s.st.rows ==> RowOk(s.issued, r))
    && (forall id :: id in s.refreshes ==> PendingOk(s.issued, s.refreshes[id]))
    && (forall t :: t in s.revoked ==> t < |s.issued|)
    && (forall t :: t in s.rotated ==> t < |s.issued|)
  }

  function RootOf(issued: seq<Issue>, t: Token): Option<Token> {
    if t < |issued| then Some(Root(issued, t)) else None
  }

  predicate SameLogin(issued: seq<Issue>, t: Token, u: Token) {
    RootOf(issued, t) == RootOf(issued, u)
  }

  /** At most one live token descends from each login. */
  ghost predicate LineageOk(s: System) {
    forall q, r :: q in s.st.rows && r in s.st.rows && SameLogin(s.issued, q.token.of, r.token.of) ==> q == r
  }

  /** A rotated token was rotated once and is not stored any more. */
  ghost predicate RotatedOk(s: System) {
    && (forall t :: t in s.rotated ==> s.rotated[t] == 1)
    && (forall r :: r in s.st.rows ==> r.token.of !in s.rotated)
  }

  /** No live token shares its login with a revoked one. */
  ghost predicate RevocationOk(s: System) {
    forall r, t :: r in s.st.rows && t in s.revoked ==> !SameLogin(s.issued, r.token.of, t)
  }

  ghost predicate CapOk(s: System, cap: nat) {
    forall user :: |OfUser(s.st.rows, user)| <= cap
  }

  ghost predicate Inv(s: System, cap: nat) {
    RowsOk(s) && LineageOk(s) && RotatedOk(s) && RevocationOk(s) && CapOk(s, cap)
  }

  // ---------------------------------------------------------------- one step keeps it

  lemma RootsKept(issued: seq<Issue>, i: Issue)
    ensures forall t :: 0 <= t < |issued| ==> RootOf(issued + [i], t) == RootOf(issued, t)
  {
    forall t | 0 <= t < |issued|
      ensures RootOf(issued + [i], t) == RootOf(issued, t)
    {
      RootGrows(issued, [i], t);
    }
  }

  lemma {:induction false} RootIsIssued(issued: seq<Issue>, t: Token)
    requires t < |issued| && forall u :: 0 <= u < |issued| ==> IssueOk(issued, u)
    ensures Root(issued, t) <= t && issued[Root(issued, t)].user == issued[t].user
  {
    assert IssueOk(issued, t);
    if issued[t].parent.Some? {
      RootIsIssued(issued, issued[t].parent.value);
    }
  }

  /** Signing one more token changes nothing about the others. */
  lemma IssueKeepsRows(s: System, i: Issue, after: System)
    requires RowsOk(s) && after == s.(issued := s.issued + [i])
    requires i.parent.Some? ==> i.parent.value < |s.issued| && s.issued[i.parent.value].user == i.user
    ensures RowsOk(after)
  {
    forall t | 0 <= t < |after.issued|
      ensures IssueOk(after.issued, t)
    {
      if t < |s.issued| {
        assert IssueOk(s.issued, t);
      }
    }
    forall r | r in after.st.rows
      ensures RowOk(after.issued, r)
    {
      assert RowOk(s.issued, r);
    }
    forall id | id in after.refreshes
      ensures PendingOk(after.issued, after.refreshes[id])
    {
      assert PendingOk(s.issued, s.refreshes[id]);
    }
  }

  lemma IssueInv(s: System, cap: nat, i: Issue)
    requires Inv(s, cap)
    requires i.parent.Some? ==> i.parent.value < |s.issued| && s.issued[i.parent.value].user == i.user
    ensures Inv(s.(issued := s.issued + [i]), cap)
  {
    var after := s.(issued := s.issued + [i]);
    IssueKeepsRows(s, i, after);
    RootsKept(s.issued, i);
    forall q, r | q in after.st.rows && r in after.st.rows && SameLogin(after.issued, q.token.of, r.token.of)
      ensures q == r
    {
      assert RowOk(s.issued, q) && RowOk(s.issued, r);
      assert SameLogin(s.issued, q.token.of, r.token.of);
    }
    forall r, t | r in after.st.rows && t in after.revoked
      ensures !SameLogin(after.issued, r.token.of, t)
    {
      assert RowOk(s.issued, r);
      assert !SameLogin(s.issued, r.token.of, t);
    }
  }

  lemma OfUserShrinks(rows: Table, fewer: Table, cap: nat)
    requires fewer <= rows && forall user :: |OfUser(rows, user)| <= cap
    ensures forall user :: |OfUser(fewer, user)| <= cap
  {
    forall user
      ensures |OfUser(fewer, user)| <= cap
    {
      SubsetSize(OfUser(fewer, user), OfUser(rows, user));
    }
  }

  /** Deleting rows keeps everything. */
  lemma DeleteInv(s: System, cap: nat, rows: Table)
    requires Inv(s, cap) && rows <= s.st.rows
    ensures Inv(s.(st := s.st.(rows := rows)), cap)
  {
    OfUserShrinks(s.st.rows, rows, cap);
  }

  /** Storing the token signed last, whose login has no other live token and is not revoked. */
  lemma StoreInv(s: System, cap: nat, after: System, row: Row)
    requires Inv(s, cap) && after == s.(st := Store(s.st.rows + {row}, s.st.nextId + 1))
    requires row.id == s.st.nextId && RowOk(s.issued, row)
    requires row.token.of !in s.rotated
    requires forall r :: r in s.st.rows ==> r.token != row.token && !SameLogin(s.issued, r.token.of, row.token.of)
    requires forall t :: t in s.revoked ==> !SameLogin(s.issued, row.token.of, t)
    requires CapOk(after, cap)
    ensures Inv(after, cap)
  {
    forall q, r | q in after.st.rows && r in after.st.rows && q != r
      ensures !SameLogin(after.issued, q.token.of, r.token.of)
    {
      assert q != row ==> !SameLogin(s.issued, q.token.of, row.token.of);
      assert r != row ==> !SameLogin(s.issued, r.token.of, row.token.of);
    }
  }

  /** A new token is its own login's root, which nothing else shares. */
  lemma FreshRoot(issued: seq<Issue>, user: UserId)
    requires forall u :: 0 <= u < |issued| ==> IssueOk(issued, u)
    ensures var grown := issued + [Issue(user, None)];
            forall t :: 0 <= t < |issued| ==> !SameLogin(grown, t, |issued|) && !SameLogin(grown, |issued|, t)
  {
    var grown := issued + [Issue(user, None)];
    RootsKept(issued, Issue(user, None));
    forall t | 0 <= t < |issued|
      ensures !SameLogin(grown, t, |issued|) && !SameLogin(grown, |issued|, t)
    {
      RootIsIssued(issued, t);
      assert RootOf(grown, t) == RootOf(issued, t);
    }
  }

  lemma LoginInv(s: System, cap: nat, user: UserId, now: Time, dbNow: Time)
    requires Inv(s, cap) && 0 < cap
    ensures Inv(LoginStep(s, cap, user, now, dbNow), cap)
  {
    var i := Issue(user, None);
    var signed := s.(issued := s.issued + [i]);
    IssueInv(s, cap, i);
    FreshRoot(s.issued, user);
    var ns := Minted(user, |s.issued|, now);
    var after := LoginStep(s, cap, user, now, dbNow);
    forall r | r in s.st.rows
      ensures r.token != HashToken(ns.token) && !SameLogin(signed.issued, r.token.of, ns.token)
    {
      assert RowOk(s.issued, r);
    }
    assert Matching(s.st.rows, ns.token) == {};
    CreateContract(s.st, ns, cap, dbNow);
    // without the cap first, then the rows that stay
    var row := Stored(s.st.nextId, ns);
    forall u
      ensures |OfUser(after.st.rows, u)| <= cap
    {
      if u != user {
        assert OfUser(after.st.rows, u) == OfUser(s.st.rows, u);
      }
    }
    LoginKeeps(signed, cap, after, row);
  }

  lemma LoginKeeps(signed: System, cap: nat, after: System, row: Row)
    requires Inv(signed, cap) && row.id == signed.st.nextId && RowOk(signed.issued, row)
    requires row.token.of !in signed.rotated
    requires forall r :: r in signed.st.rows ==>
               r.token != row.token && !SameLogin(signed.issued, r.token.of, row.token.of)
    requires forall t :: t in signed.revoked ==> !SameLogin(signed.issued, row.token.of, t)
    requires after == signed.(st := after.st) && after.st.nextId == signed.st.nextId + 1
    requires after.st.rows <= signed.st.rows + {row} && CapOk(after, cap)
    ensures Inv(after, cap)
  {
    var others := after.st.rows - {row};
    DeleteInv(signed, cap, others);
    var kept := signed.(st := signed.st.(rows := others));
    if row in after.st.rows {
      assert after.st.rows == others + {row};
      StoreInv(kept, cap, after, row);
    } else {
      assert after.st.rows == others;
    }
  }

  /** The presented token's row is gone and the token marked as rotated. */
  lemma SpendInv(s: System, cap: nat, after: System, id: RefreshId, r: Row)
    requires Inv(s, cap) && r in s.st.rows
    requires after == s.(st := s.st.(rows := s.st.rows - {r}), refreshes := s.refreshes - {id},
                         rotated := s.rotated + multiset{r.token.of})
    ensures Inv(after, cap)
  {
    DeleteInv(s, cap, after.st.rows);
    assert RowOk(s.issued, r);
    forall q | q in after.st.rows
      ensures q.token.of !in after.rotated
    {
      assert q.token != r.token;
    }
  }

  lemma SwapKeepsCap(rows: Table, cap: nat, r: Row, row: Row)
    requires r in rows && r.userId == row.userId
    requires forall user :: |OfUser(rows, user)| <= cap
    ensures forall user :: |OfUser(rows - {r} + {row}, user)| <= cap
  {
    forall user
      ensures |OfUser(rows - {r} + {row}, user)| <= cap
    {
      if user == r.userId {
        assert OfUser(rows - {r} + {row}, user) == OfUser(rows, user) - {r} + {row};
      } else {
        assert OfUser(rows - {r} + {row}, user) == OfUser(rows, user);
      }
    }
  }

  /** The token signed for a rotation inherits the login of the token it replaces, which no other
      live token has. */
  lemma SuccessorIsAlone(s: System, cap: nat, p: Pending, r: Row)
    requires Inv(s, cap) && r in s.st.rows && r.token == HashToken(p.token) && p.token < |s.issued|
    ensures var grown := s.issued + [Issue(p.user, Some(p.token))];
            && (forall q :: q in s.st.rows - {r} ==>
                  q.token != HashToken(|s.issued|) && !SameLogin(grown, q.token.of, |s.issued|))
            && (forall t :: t in s.revoked ==> !SameLogin(grown, |s.issued|, t))
            && |s.issued| !in s.rotated
  {
    var grown := s.issued + [Issue(p.user, Some(p.token))];
    RootsKept(s.issued, Issue(p.user, Some(p.token)));
    assert RootOf(grown, |s.issued|) == RootOf(s.issued, p.token);
    forall q | q in s.st.rows - {r}
      ensures q.token != HashToken(|s.issued|) && !SameLogin(grown, q.token.of, |s.issued|)
    {
      assert RowOk(s.issued, q);
      assert !SameLogin(s.issued, q.token.of, r.token.of);
    }
    forall t | t in s.revoked
      ensures !SameLogin(grown, |s.issued|, t)
    {
      assert !SameLogin(s.issued, r.token.of, t);
    }
  }

  /** A successful rotation: the presented token was live, and its row is what the new one
      replaces. */
  lemma RotateInv(s: System, cap: nat, after: System, id: RefreshId, row: Row, r: Row)
    requires Inv(s, cap) && id in s.refreshes
    requires r in s.st.rows && r.token == HashToken(s.refreshes[id].token)
    requires row.id == s.st.nextId && row.token == HashToken(|s.issued|) && row.userId == s.refreshes[id].user
    requires var p := s.refreshes[id];
             && after.st == Store(s.st.rows - {r} + {row}, s.st.nextId + 1)
             && after == s.(st := after.st, refreshes := s.refreshes - {id},
                            issued := s.issued + [Issue(p.user, Some(p.token))],
                            rotated := s.rotated + multiset{p.token})
    ensures Inv(after, cap)
  {
    var p := s.refreshes[id];
    assert PendingOk(s.issued, p) && RowOk(s.issued, r);
    var spent := s.(st := s.st.(rows := s.st.rows - {r}), refreshes := s.refreshes - {id}, rotated := after.rotated);
    SpendInv(s, cap, spent, id, r);
    IssueInv(spent, cap, Issue(p.user, Some(p.token)));
    SuccessorIsAlone(s, cap, p, r);
    SwapKeepsCap(s.st.rows, cap, r, row);
    StoreInv(spent.(issued := after.issued), cap, after, row);
  }

  lemma RotationInv(s: System, cap: nat, id: RefreshId, now: Time)
    requires Inv(s, cap) && id in s.refreshes
    ensures Inv(RotationStep(s, id, now), cap)
  {
    var p := s.refreshes[id];
    var next := Minted(p.user, |s.issued|, now);
    var after := RotationStep(s, id, now);
    assert PendingOk(s.issued, p);
    RotateContract(s.st, p.token, next);
    forall r | r in s.st.rows
      ensures r.token != HashToken(next.token)
    {
      assert RowOk(s.issued, r);
    }
    assert Matching(s.st.rows - Matching(s.st.rows, p.token), next.token) == {};
    if RotateIn(s.st, p.token, next).1.Done? {
      var r :| r in s.st.rows && r.token == HashToken(p.token)
        && after.st.rows == s.st.rows - {r} + {Stored(s.st.nextId, next)};
      RotateInv(s, cap, after, id, Stored(s.st.nextId, next), r);
    } else {
      IssueInv(s, cap, Issue(p.user, None));
    }
  }

  lemma RevokeInv(s: System, cap: nat, user: UserId)
    requires Inv(s, cap)
    ensures Inv(Step(s, cap, Revoke(user)), cap)
  {
    var after := Step(s, cap, Revoke(user));
    DeleteInv(s, cap, after.st.rows);
    forall r, t | r in after.st.rows && t in after.revoked
      ensures !SameLogin(after.issued, r.token.of, t)
    {
      assert RowOk(s.issued, r);
      if t !in s.revoked {
        RootIsIssued(s.issued, t);
        RootIsIssued(s.issued, r.token.of);
      }
    }
  }

  lemma StepInv(s: System, cap: nat, e: Event)
    requires Inv(s, cap) && 0 < cap
    ensures Inv(Step(s, cap, e), cap)
  {
    match e
    case Login(user, now, dbNow) => LoginInv(s, cap, user, now, dbNow);
    case Lookup(id, token, valid) =>
    case Rotation(id, now) =>
      if id in s.refreshes {
        RotationInv(s, cap, id, now);
      }
    case Logout(user, token) => DeleteInv(s, cap, DeleteSessionIn(s.st, user, token).rows);
    case Revoke(user) => RevokeInv(s, cap, user);
  }

  lemma {:induction false} RunInv(cap: nat, events: seq<Event>)
    requires 0 < cap
    ensures Inv(RunSystem(cap, events), cap)
  {
    if events == [] {
      assert forall user :: OfUser({}, user) == {};
    } else {
      RunInv(cap, events[..|events| - 1]);
      StepInv(RunSystem(cap, events[..|events| - 1]), cap, events[|events| - 1]);
    }
  }

  // ---------------------------------------------------------------- theorems

  /** No reachable state gives a user more live sessions than the cap. */
  lemma AtMostCapSessions(maxSessions: int, events: seq<Event>, user: UserId)
    ensures |OfUser(RunSystem(SessionCap(maxSessions), events).st.rows, user)|
            <= if maxSessions > 0 then maxSessions else 5
  {
    RunInv(SessionCap(maxSessions), events);
  }

  /** Over a whole run each refresh token is rotated successfully at most once, and then it is dead;
      of all the tokens that descend from one login at most one is live. */
  lemma LinearLineage(maxSessions: int, events: seq<Event>, t: Token, u: Token)
    ensures var s := RunSystem(SessionCap(maxSessions), events);
            && s.rotated[t] <= 1
            && (t in s.rotated ==> !Live(s, t))
            && (Live(s, t) ==> t < |s.issued|)
            && (Live(s, t) && Live(s, u) && SameLogin(s.issued, t, u) ==> t == u)
  {
    var cap := SessionCap(maxSessions);
    RunInv(cap, events);
    var s := RunSystem(cap, events);
    if q :| q in Matching(s.st.rows, t) {
      assert RowOk(s.issued, q);
      if Live(s, u) {
        var r :| r in Matching(s.st.rows, u);
        assert RowOk(s.issued, r);
        assert SameLogin(s.issued, q.token.of, r.token.of) <==> SameLogin(s.issued, t, u);
      }
    }
  }

  lemma SwapLive(rows: Table, r: Row, row: Row)
    requires r in rows && r.token != row.token
    requires forall q :: q in rows && q.token == r.token ==> q == r
    ensures var after := rows - {r} + {row};
            && Taken(after, row.token.of) && !Taken(after, r.token.of)
            && forall t :: t != r.token.of && t != row.token.of ==> (Taken(after, t) <==> Taken(rows, t))
  {
    var after := rows - {r} + {row};
    assert row in Matching(after, row.token.of);
    assert Matching(after, r.token.of) == {};
    forall t | t != r.token.of && t != row.token.of
      ensures Matching(after, t) == Matching(rows, t)
    {
    }
  }

  /** A refresh succeeds if and only if its token is still live when it rotates, however long ago
      it passed the lookup; the token is then dead and its only live successor is the new one. */
  lemma RotationWins(maxSessions: int, events: seq<Event>, id: RefreshId, now: Time)
    requires id in RunSystem(SessionCap(maxSessions), events).refreshes
    ensures var s := RunSystem(SessionCap(maxSessions), events);
            var p := s.refreshes[id];
            var after := Step(s, SessionCap(maxSessions), Rotation(id, now));
            if Live(s, p.token) then
              && after.rotated == s.rotated + multiset{p.token}
              && after.issued == s.issued + [Issue(p.user, Some(p.token))]
              && Live(after, |s.issued|) && !Live(after, p.token)
              && (forall t :: t != p.token && t != |s.issued| ==> (Live(after, t) <==> Live(s, t)))
            else after.st.rows == s.st.rows && after.rotated == s.rotated
  {
    var cap := SessionCap(maxSessions);
    RunInv(cap, events);
    var s := RunSystem(cap, events);
    var p := s.refreshes[id];
    var after := Step(s, cap, Rotation(id, now));
    var next := Minted(p.user, |s.issued|, now);
    assert PendingOk(s.issued, p);
    RotateContract(s.st, p.token, next);
    assert forall r :: r in s.st.rows ==> RowOk(s.issued, r);
    assert Matching(s.st.rows - Matching(s.st.rows, p.token), next.token) == {};
    MatchingIsOne(s.st, p.token);
    if Live(s, p.token) {
      var r :| r in Matching(s.st.rows, p.token);
      var row := Stored(s.st.nextId, next);
      assert Matching(s.st.rows, p.token) == {r};
      assert after.st.rows == s.st.rows - {r} + {row};
      SwapLive(s.st.rows, r, row);
    } else {
      forall r | r in s.st.rows
        ensures r.token != HashToken(p.token)
      {
        assert r !in Matching(s.st.rows, p.token);
      }
    }
  }

  lemma StepGrows(s: System, cap: nat, e: Event)
    ensures s.revoked <= Step(s, cap, e).revoked
    ensures s.issued <= Step(s, cap, e).issued
  {
  }

  lemma RunSplit(cap: nat, before: seq<Event>, later: seq<Event>)
    requires later != []
    ensures RunSystem(cap, before + later) ==
            Step(RunSystem(cap, before + later[..|later| - 1]), cap, later[|later| - 1])
  {
    assert (before + later)[..|before + later| - 1] == before + later[..|later| - 1];
  }

  lemma {:induction false} RevokedStays(cap: nat, before: seq<Event>, later: seq<Event>)
    ensures RunSystem(cap, before).revoked <= RunSystem(cap, before + later).revoked
    ensures RunSystem(cap, before).issued <= RunSystem(cap, before + later).issued
  {
    if later == [] {
      assert before + later == before;
    } else {
      var n := |later| - 1;
      RevokedStays(cap, before, later[..n]);
      RunSplit(cap, before, later);
      StepGrows(RunSystem(cap, before + later[..n]), cap, later[n]);
    }
  }

  /** Revocation is final: once all sessions of a user are revoked, no token issued to the user
      before, nor any descendant of one, is ever live again; nor does a refresh of such a token
      that had already passed its lookup succeed. */
  lemma RevocationIsFinal(maxSessions: int, before: seq<Event>, user: UserId, later: seq<Event>, a: Token, t: Token)
    requires var s := RunSystem(SessionCap(maxSessions), before); a < |s.issued| && s.issued[a].user == user
    requires var s := RunSystem(SessionCap(maxSessions), before + [Revoke(user)] + later);
             t < |s.issued| && Descends(s.issued, t, a)
    ensures var s := RunSystem(SessionCap(maxSessions), before + [Revoke(user)] + later);
            && !Live(s, t)
            && forall id, now :: id in s.refreshes && s.refreshes[id].token == t ==>
                 var after := Step(s, SessionCap(maxSessions), Rotation(id, now));
                 after.st.rows == s.st.rows && after.rotated == s.rotated
  {
    var cap := SessionCap(maxSessions);
    var upTo := before + [Revoke(user)];
    var s := RunSystem(cap, upTo + later);
    assert upTo[..|upTo| - 1] == before;
    assert a in RunSystem(cap, upTo).revoked;
    RevokedStays(cap, upTo, later);
    RunInv(cap, upTo + later);
    RootOfDescendant(s.issued, t, a);
    if r :| r in Matching(s.st.rows, t) {
      assert SameLogin(s.issued, r.token.of, a);
    }
    forall id, now | id in s.refreshes && s.refreshes[id].token == t
      ensures var after := Step(s, cap, Rotation(id, now)); after.st.rows == s.st.rows && after.rotated == s.rotated
    {
      RotationWins(maxSessions, upTo + later, id, now);
    }
  }

  // ---------------------------------------------------------------- every end of a session is final

  /** No live token descends from the login of a. */
  ghost predicate LoginOver(s: System, a: Token) {
    a < |s.issued| && forall r :: r in s.st.rows ==> !SameLogin(s.issued, r.token.of, a)
  }

  lemma IssueKeepsOver(s: System, a: Token, i: Issue)
    requires RowsOk(s) && LoginOver(s, a)
    ensures LoginOver(s.(issued := s.issued + [i]), a)
  {
    RootsKept(s.issued, i);
    forall r | r in s.st.rows
      ensures !SameLogin(s.issued + [i], r.token.of, a)
    {
      assert RowOk(s.issued, r) && !SameLogin(s.issued, r.token.of, a);
    }
  }

  /** Another login is another root. */
  lemma LoginKeepsOver(s: System, cap: nat, a: Token, user: UserId, now: Time, dbNow: Time)
    requires RowsOk(s) && LoginOver(s, a)
    ensures LoginOver(LoginStep(s, cap, user, now, dbNow), a)
  {
    var after := LoginStep(s, cap, user, now, dbNow);
    IssueKeepsOver(s, a, Issue(user, None));
    FreshRoot(s.issued, user);
    forall r | r in after.st.rows
      ensures !SameLogin(after.issued, r.token.of, a)
    {
      assert r in s.st.rows || r.token.of == |s.issued|;
    }
  }

  /** A rotation passes on the login of a token that was live. */
  lemma RotationKeepsOver(s: System, a: Token, id: RefreshId, now: Time)
    requires RowsOk(s) && LoginOver(s, a) && id in s.refreshes
    ensures LoginOver(RotationStep(s, id, now), a)
  {
    var p := s.refreshes[id];
    var after := RotationStep(s, id, now);
    var i := after.issued[|s.issued|];
    assert after.issued == s.issued + [i] && PendingOk(s.issued, p);
    IssueKeepsOver(s, a, i);
    RotateContract(s.st, p.token, Minted(p.user, |s.issued|, now));
    if i.parent.Some? {
      var r :| r in s.st.rows && r.token == HashToken(p.token);
      assert !SameLogin(s.issued, r.token.of, a);
      RootsKept(s.issued, i);
      assert RootOf(after.issued, |s.issued|) == RootOf(s.issued, p.token);
    }
    forall q | q in after.st.rows
      ensures !SameLogin(after.issued, q.token.of, a)
    {
      assert q in s.st.rows || (i.parent.Some? && q.token.of == |s.issued|);
    }
  }

  lemma StepKeepsOver(s: System, cap: nat, a: Token, e: Event)
    requires RowsOk(s) && LoginOver(s, a)
    ensures LoginOver(Step(s, cap, e), a)
  {
    match e
    case Login(user, now, dbNow) => LoginKeepsOver(s, cap, a, user, now, dbNow);
    case Lookup(id, token, valid) =>
    case Rotation(id, now) =>
      if id in s.refreshes {
        RotationKeepsOver(s, a, id, now);
      }
    case Logout(user, token) =>
    case Revoke(user) =>
  }

  /** Once no live token descends from a login none ever does again: whether the session was logged
      out, revoked, evicted by the cap or pruned. */
  lemma {:induction false} OverStaysOver(maxSessions: int, before: seq<Event>, later: seq<Event>, a: Token)
    requires LoginOver(RunSystem(SessionCap(maxSessions), before), a)
    ensures LoginOver(RunSystem(SessionCap(maxSessions), before + later), a)
  {
    var cap := SessionCap(maxSessions);
    if later == [] {
      assert before + later == before;
    } else {
      var n := |later| - 1;
      OverStaysOver(maxSessions, before, later[..n], a);
      RunInv(cap, before + later[..n]);
      RunSplit(cap, before, later);
      StepKeepsOver(RunSystem(cap, before + later[..n]), cap, a, later[n]);
    }
  }

  /** Then no token of that login is live, and no refresh of one succeeds, even past its lookup. */
  lemma OverIsFinal(maxSessions: int, before: seq<Event>, later: seq<Event>, a: Token, t: Token)
    requires LoginOver(RunSystem(SessionCap(maxSessions), before), a)
    requires SameLogin(RunSystem(SessionCap(maxSessions), before + later).issued, t, a)
    ensures var s := RunSystem(SessionCap(maxSessions), before + later);
            && !Live(s, t)
            && forall id, now :: id in s.refreshes && s.refreshes[id].token == t ==>
                 var after := Step(s, SessionCap(maxSessions), Rotation(id, now));
                 after.st.rows == s.st.rows && after.rotated == s.rotated
  {
    var cap := SessionCap(maxSessions);
    var s := RunSystem(cap, before + later);
    OverStaysOver(maxSessions, before, later, a);
    forall r | r in s.st.rows
      ensures r.token != HashToken(t)
    {
      assert !SameLogin(s.issued, r.token.of, a);
    }
    assert Matching(s.st.rows, t) == {};
    forall id, now | id in s.refreshes && s.refreshes[id].token == t
      ensures var after := Step(s, cap, Rotation(id, now)); after.st.rows == s.st.rows && after.rotated == s.rotated
    {
      RotationWins(maxSessions, before + later, id, now);
    }
  }

  /** Logging out of one device is as final: it ends the login of the token presented, which has no
      other live token. */
  lemma LogoutEndsLogin(maxSessions: int, before: seq<Event>, user: UserId, token: Token)
    requires var s := RunSystem(SessionCap(maxSessions), before);
             Live(s, token) && token < |s.issued| && s.issued[token].user == user
    ensures LoginOver(RunSystem(SessionCap(maxSessions), before + [Logout(user, token)]), token)
  {
    var cap := SessionCap(maxSessions);
    var s := RunSystem(cap, before);
    RunInv(cap, before);
    assert (before + [Logout(user, token)])[..|before|] == before;
    var q :| q in Matching(s.st.rows, token);
    assert RowOk(s.issued, q);
    forall r | r in DeleteSessionIn(s.st, user, token).rows
      ensures !SameLogin(s.issued, r.token.of, token)
    {
      assert r != q;
    }
  }
}
