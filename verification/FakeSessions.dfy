/** fakeSessions as it is: the list with its own id counter, which a refused insert does not
    advance, and with deletions that stop at the first match. It is the recency list up to ids. */
module FakeSessions {
  import opened Options
  import opened SessionStore
  import opened SessionRecency

  datatype Fake = Fake(rows: Recency, last: nat)

  function InsertLocked(f: Fake, s: NewSession): (Fake, Outcome) {
    if Holds(f.rows, s.token) then (f, DuplicateToken)
    else (Fake(f.rows + [Stored(f.last + 1, s)], f.last + 1), Done)
  }

  /** The list without its first row that carries the token and, where a user is given, is theirs. */
  function FirstOut(l: Recency, user: Option<UserId>, token: Token): Recency {
    if l == [] then []
    else if Goes(l[0], user, Some(token)) then l[1..]
    else [l[0]] + FirstOut(l[1..], user, token)
  }

  function Create(f: Fake, s: NewSession, maxSessions: int): (Fake, Outcome) {
    var (g, o) := InsertLocked(f, s);
    if o.Done? then (g.(rows := ListCap(g.rows, s.userId, maxSessions)), o) else (g, o)
  }

  function Rotate(f: Fake, oldToken: Token, next: NewSession): (Fake, Outcome) {
    if !Holds(f.rows, oldToken) then (f, TokenNotFound)
    else InsertLocked(f.(rows := FirstOut(f.rows, None, oldToken)), next)
  }

  function Step(f: Fake, op: Op, maxSessions: int): Fake {
    match op
    case OpCreate(s, _) => Create(f, s, maxSessions).0
    case OpRotate(oldToken, s) => Rotate(f, oldToken, s).0
    case OpDeleteSession(user, token) => f.(rows := FirstOut(f.rows, Some(user), token))
    case OpDeleteByUser(user) => f.(rows := Without(f.rows, Some(user), None))
  }

  function RunFake(ops: seq<Op>, maxSessions: int): Fake {
    if ops == [] then Fake([], 0)
    else Step(RunFake(ops[..|ops| - 1], maxSessions), ops[|ops| - 1], maxSessions)
  }

  // ---------------------------------------------------------------- tokens stay unique

  ghost predicate Unique(l: Recency) {
    forall i, j :: 0 <= i < j < |l| ==> l[i].token != l[j].token
  }

  lemma UniqueTail(l: Recency)
    requires Unique(l) && l != []
    ensures Unique(l[1..]) && forall r :: r in l[1..] ==> r.token != l[0].token
  {
  }

  lemma UniqueCons(x: Row, t: Recency)
    requires Unique(t) && forall r :: r in t ==> r.token != x.token
    ensures Unique([x] + t)
  {
  }

  lemma {:induction false} DropFirstUnique(l: Recency, user: UserId, extra: nat)
    requires Unique(l)
    ensures Unique(DropFirst(l, user, extra))
    ensures forall r :: r in DropFirst(l, user, extra) ==> r in l
  {
    if l != [] {
      UniqueTail(l);
      if l[0].userId == user && extra > 0 {
        DropFirstUnique(l[1..], user, extra - 1);
      } else {
        DropFirstUnique(l[1..], user, extra);
        UniqueCons(l[0], DropFirst(l[1..], user, extra));
      }
    }
  }

  lemma {:induction false} WithoutUnique(l: Recency, user: Option<UserId>, token: Option<Token>)
    requires Unique(l)
    ensures Unique(Without(l, user, token))
    ensures forall r :: r in Without(l, user, token) ==> r in l
  {
    if l != [] {
      UniqueTail(l);
      WithoutUnique(l[1..], user, token);
      if !Goes(l[0], user, token) {
        UniqueCons(l[0], Without(l[1..], user, token));
      }
    }
  }

  lemma {:induction false} NoneToDrop(l: Recency, user: Option<UserId>, token: Token)
    requires !Holds(l, token)
    ensures Without(l, user, Some(token)) == l
  {
    if l != [] {
      assert l[0] in l;
      assert forall r :: r in l[1..] ==> r in l;
      NoneToDrop(l[1..], user, token);
    }
  }

  /** Where tokens are unique, the first match is the only one. */
  lemma {:induction false} FirstIsOnly(l: Recency, user: Option<UserId>, token: Token)
    requires Unique(l)
    ensures FirstOut(l, user, token) == Without(l, user, Some(token))
  {
    if l != [] {
      UniqueTail(l);
      if Goes(l[0], user, Some(token)) {
        NoneToDrop(l[1..], user, token);
      } else {
        FirstIsOnly(l[1..], user, token);
      }
    }
  }

  lemma AppendUnique(l: Recency, id: nat, s: NewSession)
    requires Unique(l) && !Holds(l, s.token)
    ensures Unique(l + [Stored(id, s)])
  {
    assert forall i :: 0 <= i < |l| ==> l[i] in l;
  }

  lemma ApplyUnique(l: Recency, op: Op, id: nat, maxSessions: int)
    requires Unique(l)
    ensures Unique(ApplyList(l, op, id, maxSessions))
  {
    match op
    case OpCreate(s, _) =>
      if !Holds(l, s.token) {
        AppendUnique(l, id, s);
        var all := l + [Stored(id, s)];
        var mine := CountUser(all, s.userId);
        if 0 < maxSessions < mine {
          DropFirstUnique(all, s.userId, mine - maxSessions);
        }
      }
    case OpRotate(oldToken, s) =>
      WithoutUnique(l, None, Some(oldToken));
      var rest := Without(l, None, Some(oldToken));
      if !Holds(rest, s.token) {
        AppendUnique(rest, id, s);
      }
    case OpDeleteSession(user, token) => WithoutUnique(l, Some(user), Some(token));
    case OpDeleteByUser(user) => WithoutUnique(l, Some(user), None);
  }

  // ---------------------------------------------------------------- the same list up to ids

  predicate SameRow(q: Row, r: Row) {
    q.(id := 0) == r.(id := 0)
  }

  ghost predicate SameList(a: Recency, b: Recency) {
    |a| == |b| && forall i :: 0 <= i < |a| ==> SameRow(a[i], b[i])
  }

  lemma SameTail(a: Recency, b: Recency)
    requires SameList(a, b) && a != []
    ensures SameRow(a[0], b[0]) && SameList(a[1..], b[1..])
  {
  }

  lemma SameCons(x: Row, y: Row, a: Recency, b: Recency)
    requires SameRow(x, y) && SameList(a, b)
    ensures SameList([x] + a, [y] + b)
  {
  }

  lemma SameHolds(a: Recency, b: Recency, token: Token)
    requires SameList(a, b)
    ensures Holds(a, token) <==> Holds(b, token)
  {
    if r :| r in a && r.token == HashToken(token) {
      var i :| 0 <= i < |a| && a[i] == r;
      assert SameRow(a[i], b[i]) && b[i] in b;
    }
    if r :| r in b && r.token == HashToken(token) {
      var i :| 0 <= i < |b| && b[i] == r;
      assert SameRow(a[i], b[i]) && a[i] in a;
    }
  }

  lemma {:induction false} SameCount(a: Recency, b: Recency, user: UserId)
    requires SameList(a, b)
    ensures CountUser(a, user) == CountUser(b, user)
  {
    if a != [] {
      SameTail(a, b);
      SameCount(a[1..], b[1..], user);
    }
  }

  lemma {:induction false} SameDropFirst(a: Recency, b: Recency, user: UserId, extra: nat)
    requires SameList(a, b)
    ensures SameList(DropFirst(a, user, extra), DropFirst(b, user, extra))
  {
    if a != [] {
      SameTail(a, b);
      if a[0].userId == user && extra > 0 {
        SameDropFirst(a[1..], b[1..], user, extra - 1);
      } else {
        SameDropFirst(a[1..], b[1..], user, extra);
        SameCons(a[0], b[0], DropFirst(a[1..], user, extra), DropFirst(b[1..], user, extra));
      }
    }
  }

  lemma {:induction false} SameWithout(a: Recency, b: Recency, user: Option<UserId>, token: Option<Token>)
    requires SameList(a, b)
    ensures SameList(Without(a, user, token), Without(b, user, token))
  {
    if a != [] {
      SameTail(a, b);
      SameWithout(a[1..], b[1..], user, token);
      if !Goes(a[0], user, token) {
        SameCons(a[0], b[0], Without(a[1..], user, token), Without(b[1..], user, token));
      }
    }
  }

  lemma SameAppend(a: Recency, b: Recency, i: nat, j: nat, s: NewSession)
    requires SameList(a, b)
    ensures SameList(a + [Stored(i, s)], b + [Stored(j, s)])
  {
  }

  lemma SameCap(a: Recency, b: Recency, user: UserId, maxSessions: int)
    requires SameList(a, b)
    ensures SameList(ListCap(a, user, maxSessions), ListCap(b, user, maxSessions))
  {
    SameCount(a, b, user);
    var mine := CountUser(a, user);
    if 0 < maxSessions < mine {
      SameDropFirst(a, b, user, mine - maxSessions);
    }
  }

  lemma SameStep(l: Recency, f: Fake, op: Op, id: nat, maxSessions: int)
    requires SameList(l, f.rows) && Unique(f.rows)
    ensures SameList(ApplyList(l, op, id, maxSessions), Step(f, op, maxSessions).rows)
  {
    match op
    case OpCreate(s, _) =>
      SameHolds(l, f.rows, s.token);
      SameAppend(l, f.rows, id, f.last + 1, s);
      SameCap(l + [Stored(id, s)], f.rows + [Stored(f.last + 1, s)], s.userId, maxSessions);
    case OpRotate(oldToken, s) =>
      SameHolds(l, f.rows, oldToken);
      FirstIsOnly(f.rows, None, oldToken);
      SameWithout(l, f.rows, None, Some(oldToken));
      var a, b := Without(l, None, Some(oldToken)), FirstOut(f.rows, None, oldToken);
      SameHolds(a, b, s.token);
      SameAppend(a, b, id, f.last + 1, s);
    case OpDeleteSession(user, token) =>
      FirstIsOnly(f.rows, Some(user), token);
      SameWithout(l, f.rows, Some(user), Some(token));
    case OpDeleteByUser(user) => SameWithout(l, f.rows, Some(user), None);
  }

  lemma SameUnique(a: Recency, b: Recency)
    requires SameList(a, b) && Unique(a)
    ensures Unique(b)
  {
    forall i, j | 0 <= i < j < |b|
      ensures b[i].token != b[j].token
    {
      assert SameRow(a[i], b[i]) && SameRow(a[j], b[j]);
    }
  }

  /** After every sequence of operations fakeSessions holds the rows of the recency list, in the same
      order, up to ids; and no token twice. */
  lemma {:induction false} FakeIsList(ops: seq<Op>, maxSessions: int)
    ensures Unique(RunList(ops, maxSessions))
    ensures SameList(RunList(ops, maxSessions), RunFake(ops, maxSessions).rows)
  {
    if ops != [] {
      var n := |ops| - 1;
      FakeIsList(ops[..n], maxSessions);
      var l, id := RunList(ops[..n], maxSessions), Run(ops[..n], maxSessions).nextId;
      SameUnique(l, RunFake(ops[..n], maxSessions).rows);
      ApplyUnique(l, ops[n], id, maxSessions);
      SameStep(l, RunFake(ops[..n], maxSessions), ops[n], id, maxSessions);
    }
  }

  /** The refinement for fakeSessions: after a run of regular operations whose creation times do not
      go back, exactly the same tokens are live in the table and in fakeSessions. */
  lemma SameLiveTokens(ops: seq<Op>, maxSessions: int, token: Token)
    requires RunInTime(ops, maxSessions) && RegularRun(ops, maxSessions)
    ensures Taken(Run(ops, maxSessions).rows, token) <==> Holds(RunFake(ops, maxSessions).rows, token)
  {
    RecencyRefinement(ops, maxSessions);
    FakeIsList(ops, maxSessions);
    HoldsIsTaken(RunList(ops, maxSessions), token);
    SameHolds(RunList(ops, maxSessions), RunFake(ops, maxSessions).rows, token);
  }
}
