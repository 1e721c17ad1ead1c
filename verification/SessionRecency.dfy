/** The cap on sessions, and the refinement: the table that evicts by
    `created_at DESC, id DESC LIMIT k` behaves as the append-ordered list the tests of auth-service
    put in its place (`fakeSessions`). */
module SessionRecency {
  import opened Options
  import opened SessionStore

  ghost predicate DistinctIds(rows: Table) {
    forall q, r :: q in rows && r in rows && q.id == r.id ==> q == r
  }

  // ---------------------------------------------------------------- LIMIT k

  /** The row no other row of a non-empty set precedes, and the one that precedes none. */
  lemma {:induction false} Extremes(rows: Table) returns (newest: Row, oldest: Row)
    requires rows != {} && DistinctIds(rows)
    ensures newest in rows && forall r :: r in rows && r != newest ==> Newer(newest, r)
    ensures oldest in rows && forall r :: r in rows && r != oldest ==> Newer(r, oldest)
    decreases |rows|
  {
    var x :| x in rows;
    var rest := rows - {x};
    if rest == {} {
      assert rows == {x};
      newest, oldest := x, x;
    } else {
      var n, o := Extremes(rest);
      assert Newer(n, x) || Newer(x, n);
      assert Newer(o, x) || Newer(x, o);
      newest := if Newer(x, n) then x else n;
      oldest := if Newer(o, x) then x else o;
      forall r | r in rows
        ensures (r != newest ==> Newer(newest, r)) && (r != oldest ==> Newer(r, oldest))
      {
        assert r == x || r in rest;
      }
    }
  }

  function Top(rows: Table, k: nat): Table {
    set r | r in rows && |Preceding(rows, r)| < k
  }

  lemma SubsetSize<T>(a: set<T>, b: set<T>)
    requires a <= b
    ensures |a| <= |b|
  {
    if a != {} {
      var x :| x in a;
      SubsetSize(a - {x}, b - {x});
    }
  }

  /** The rows with fewer than k predecessors are the k first ones: at most k, exactly k unless
      that is all of them, and each before every row left out. */
  lemma TopIsLimit(rows: Table, k: nat)
    requires DistinctIds(rows)
    ensures |Top(rows, k)| == if |rows| <= k then |rows| else k
    ensures forall q, r :: q in Top(rows, k) && r in rows - Top(rows, k) ==> Newer(q, r)
  {
    var top := Top(rows, k);
    if top != {} {
      var _, last := Extremes(top);
      assert top - {last} <= Preceding(rows, last);
      SubsetSize(top - {last}, Preceding(rows, last));
      assert |top| <= k;
    }
    SubsetSize(top, rows);
    var out := rows - top;
    if out != {} {
      var first, _ := Extremes(out);
      forall q | q in Preceding(rows, first)
        ensures q in top
      {
        assert q !in out;
      }
      SubsetSize(Preceding(rows, first), top);
    } else {
      assert top == rows;
    }
    forall q, r | q in top && r in out
      ensures Newer(q, r)
    {
      assert q != r;
      if Newer(r, q) {
        assert Preceding(rows, r) <= Preceding(rows, q);
        SubsetSize(Preceding(rows, r), Preceding(rows, q));
      }
    }
  }

  lemma CappedIsTop(rows: Table, user: UserId, k: nat)
    ensures OfUser(Capped(rows, user, k), user) == Top(OfUser(rows, user), k)
    ensures Capped(rows, user, k) - OfUser(Capped(rows, user, k), user) == rows - OfUser(rows, user)
  {
  }

  // ---------------------------------------------------------------- every reachable table

  /** What a run of the repository always keeps: ids and tokens are unique. */
  ghost predicate TableOk(st: Store) {
    && (forall r :: r in st.rows ==> r.id < st.nextId)
    && DistinctIds(st.rows)
    && (forall q, r :: q in st.rows && r in st.rows && q.token == r.token ==> q == r)
  }

  lemma MatchingIsOne(st: Store, token: Token)
    requires TableOk(st)
    ensures |Matching(st.rows, token)| <= 1
    ensures forall r :: r in st.rows && r.token == HashToken(token) ==> Matching(st.rows, token) == {r}
  {
    if r :| r in Matching(st.rows, token) {
      assert Matching(st.rows, token) == {r};
    }
  }

  lemma TableShrinks(st: Store, after: Store)
    requires TableOk(st) && after.rows <= st.rows && st.nextId <= after.nextId
    ensures TableOk(after)
  {
  }

  lemma TableGrows(st: Store, rows: Table, s: NewSession)
    requires TableOk(st) && rows <= st.rows && !Taken(rows, s.token)
    ensures TableOk(Store(rows + {Stored(st.nextId, s)}, st.nextId + 1))
  {
    forall r | r in rows
      ensures r.token != HashToken(s.token)
    {
      assert r !in Matching(rows, s.token);
    }
  }

  lemma CreateKeepsTable(st: Store, s: NewSession, maxSessions: int, dbNow: Time)
    requires TableOk(st)
    ensures TableOk(CreateIn(st, s, maxSessions, dbNow).0)
  {
    if !Taken(st.rows, s.token) {
      TableGrows(st, st.rows, s);
      TableShrinks(Store(st.rows + {Stored(st.nextId, s)}, st.nextId + 1), CreateIn(st, s, maxSessions, dbNow).0);
    }
  }

  lemma RotateKeepsTable(st: Store, oldToken: Token, next: NewSession)
    requires TableOk(st)
    ensures TableOk(RotateIn(st, oldToken, next).0)
  {
    var rest := st.rows - Matching(st.rows, oldToken);
    if !Taken(rest, next.token) {
      TableGrows(st, rest, next);
    }
  }

  /** The sessions a user has once a new one is stored and the expired ones are gone. */
  function Unexpired(st: Store, s: NewSession, dbNow: Time): Table {
    set r | r in st.rows + {Stored(st.nextId, s)} && r.userId == s.userId && !Expired(r, dbNow)
  }

  /** Create never touches another user's sessions; a refused one touches nothing; a successful one
      leaves the user the newest of the unexpired sessions, as many as the cap allows. */
  lemma CreateContract(st: Store, s: NewSession, maxSessions: int, dbNow: Time)
    requires TableOk(st)
    ensures var (after, o) := CreateIn(st, s, maxSessions, dbNow);
            && (o.DuplicateToken? <==> exists r :: r in st.rows && r.token == HashToken(s.token))
            && (!o.Done? ==> after.rows == st.rows)
            && (forall r: Row :: r.userId != s.userId ==> (r in after.rows <==> r in st.rows))
            && (o.Done? ==>
                  var mine, live := OfUser(after.rows, s.userId), Unexpired(st, s, dbNow);
                  && mine <= live
                  && |mine| == (if 0 < maxSessions < |live| then maxSessions else |live|)
                  && forall q, r :: q in mine && r in live - mine ==> Newer(q, r))
  {
    if r :| r in st.rows && r.token == HashToken(s.token) {
      assert r in Matching(st.rows, s.token);
    } else {
      assert Matching(st.rows, s.token) == {};
      var pruned := Pruned(st.rows + {Stored(st.nextId, s)}, s.userId, dbNow);
      var live := Unexpired(st, s, dbNow);
      assert OfUser(pruned, s.userId) == live;
      if 0 < maxSessions {
        CappedIsTop(pruned, s.userId, maxSessions);
        TopIsLimit(live, maxSessions);
      }
    }
  }

  /** The sessions of a user that are newer than r: created later or, at the same time, stored later. */
  function NewerOf(rows: Table, user: UserId, r: Row): Table {
    set q | && q in rows && q.userId == user
            && (q.createdAt > r.createdAt || (q.createdAt == r.createdAt && q.id > r.id))
  }

  lemma FewerThanAll(rows: Table, user: UserId, r: Row)
    requires r in OfUser(rows, user)
    ensures |NewerOf(rows, user, r)| < |OfUser(rows, user)|
  {
    SubsetSize(NewerOf(rows, user, r), OfUser(rows, user) - {r});
  }

  lemma AllAreNewer(rows: Table, user: UserId, live: Table, r: Row)
    requires OfUser(rows, user) <= live && r in live - OfUser(rows, user)
    requires forall q :: q in OfUser(rows, user) ==> Newer(q, r)
    ensures NewerOf(rows, user, r) == OfUser(rows, user) && |OfUser(rows, user)| < |live|
  {
    SubsetSize(OfUser(rows, user), live - {r});
  }

  /** The same with clocks and order spelled out. An expired session of the user always goes. One
      that never expires, or not before now, goes if and only if it is beyond the cap: when at least
      maxSessions newer ones stay. The new session is stored as it was given. */
  lemma CreateKeepsExactly(st: Store, s: NewSession, maxSessions: int, dbNow: Time)
    requires TableOk(st) && CreateIn(st, s, maxSessions, dbNow).1.Done?
    ensures var after := CreateIn(st, s, maxSessions, dbNow).0;
            var all := st.rows + {Row(st.nextId, s.userId, HashToken(s.token), s.createdAt, s.expiresAt)};
            && after.rows <= all && after.nextId == st.nextId + 1
            && forall r :: r in all ==>
                 if r.userId != s.userId then
                   r in after.rows
                 else if r.expiresAt.Some? && r.expiresAt.value < dbNow then
                   r !in after.rows
                 else
                   (r !in after.rows <==> 0 < maxSessions <= |NewerOf(after.rows, s.userId, r)|)
  {
    CreateContract(st, s, maxSessions, dbNow);
    var after := CreateIn(st, s, maxSessions, dbNow).0;
    var mine, live := OfUser(after.rows, s.userId), Unexpired(st, s, dbNow);
    forall r | r in live
      ensures r !in after.rows <==> 0 < maxSessions <= |NewerOf(after.rows, s.userId, r)|
    {
      if r in mine {
        FewerThanAll(after.rows, s.userId, r);
      } else {
        AllAreNewer(after.rows, s.userId, live, r);
      }
    }
  }

  /** Rotate replaces one session by another and leaves every other one alone. */
  lemma RotateContract(st: Store, oldToken: Token, next: NewSession)
    requires TableOk(st)
    ensures var (after, o) := RotateIn(st, oldToken, next);
            && (o.TokenNotFound? <==> forall r :: r in st.rows ==> r.token != HashToken(oldToken))
            && (o.DuplicateToken? <==>
                  && (exists r :: r in st.rows && r.token == HashToken(oldToken))
                  && oldToken != next.token
                  && (exists q :: q in st.rows && q.token == HashToken(next.token)))
            && (!o.Done? ==> after.rows == st.rows)
            && (o.Done? ==>
                  exists r :: (&& r in st.rows && r.token == HashToken(oldToken) && r !in after.rows
                               && after.rows == st.rows - {r} + {Stored(st.nextId, next)}))
  {
    MatchingIsOne(st, oldToken);
    if r :| r in st.rows && r.token == HashToken(oldToken) {
      assert r in Matching(st.rows, oldToken);
      if q :| q in st.rows && q.token == HashToken(next.token) && oldToken != next.token {
        assert q in Matching(st.rows - {r}, next.token);
      } else {
        assert Matching(st.rows - {r}, next.token) == {};
      }
    } else {
      assert Matching(st.rows, oldToken) == {};
    }
  }

  // ---------------------------------------------------------------- the recency list

  /** fakeSessions keeps its rows in the order they were appended. */
  type Recency = seq<Row>

  function CountUser(l: Recency, user: UserId): (n: nat)
    ensures n <= |l|
  {
    if l == [] then 0 else (if l[0].userId == user then 1 else 0) + CountUser(l[1..], user)
  }

  function DropFirst(l: Recency, user: UserId, extra: nat): Recency {
    if l == [] then []
    else if l[0].userId == user && extra > 0 then DropFirst(l[1..], user, extra - 1)
    else [l[0]] + DropFirst(l[1..], user, extra)
  }

  predicate Holds(l: Recency, token: Token) {
    exists r :: r in l && r.token == HashToken(token)
  }

  function Without(l: Recency, user: Option<UserId>, token: Option<Token>): Recency {
    if l == [] then []
    else if (user.None? || l[0].userId == user.value) && (token.None? || l[0].token == HashToken(token.value)) then
      Without(l[1..], user, token)
    else [l[0]] + Without(l[1..], user, token)
  }

  function ListCap(l: Recency, user: UserId, maxSessions: int): Recency {
    var mine := CountUser(l, user);
    if 0 < maxSessions < mine then DropFirst(l, user, mine - maxSessions) else l
  }

  function ListCreate(l: Recency, row: Row, token: Token, maxSessions: int): (Recency, Outcome) {
    if Holds(l, token) then (l, DuplicateToken)
    else (ListCap(l + [row], row.userId, maxSessions), Done)
  }

  function ListRotate(l: Recency, oldToken: Token, row: Row, token: Token): (Recency, Outcome) {
    if !Holds(l, oldToken) then (l, TokenNotFound)
    else
      var rest := Without(l, None, Some(oldToken));
      if Holds(rest, token) then (rest, DuplicateToken) else (rest + [row], Done)
  }

  /** In the order of the ids, which per user is also the order of the creation times. */
  ghost predicate Ordered(l: Recency) {
    && (forall i, j :: 0 <= i < j < |l| ==> l[i].id < l[j].id)
    && (forall i, j :: 0 <= i < j < |l| && l[i].userId == l[j].userId ==> l[i].createdAt <= l[j].createdAt)
  }

  lemma OrderedTail(l: Recency)
    requires Ordered(l) && l != []
    ensures Ordered(l[1..]) && l[0] !in l[1..]
    ensures forall r :: r in l[1..] ==> l[0].id < r.id && (r.userId == l[0].userId ==> l[0].createdAt <= r.createdAt)
  {
  }

  lemma OrderedCons(r: Row, l: Recency)
    requires Ordered(l)
    requires forall q :: q in l ==> r.id < q.id && (q.userId == r.userId ==> r.createdAt <= q.createdAt)
    ensures Ordered([r] + l)
  {
  }

  function Rows(l: Recency): Table {
    set r | r in l
  }

  lemma RowsCons(x: Row, t: Recency)
    ensures Rows([x] + t) == {x} + Rows(t)
  {
    forall r
      ensures r in [x] + t <==> r == x || r in t
    {
      if r in t {
        var i :| 0 <= i < |t| && t[i] == r;
        assert ([x] + t)[i + 1] == r;
      }
    }
    assert ([x] + t)[0] == x;
  }

  lemma OfUserPlus(rows: Table, x: Row, user: UserId)
    ensures OfUser({x} + rows, user) == OfUser(rows, user) + if x.userId == user then {x} else {}
  {
  }

  /** An ordered list has no row twice, so counting entries counts rows. */
  lemma {:induction false} UserRowsCount(l: Recency, user: UserId)
    requires Ordered(l)
    ensures |OfUser(Rows(l), user)| == CountUser(l, user)
  {
    if l != [] {
      var x, t := l[0], l[1..];
      assert l == [x] + t;
      OrderedTail(l);
      UserRowsCount(t, user);
      RowsCons(x, t);
      OfUserPlus(Rows(t), x, user);
      assert x !in OfUser(Rows(t), user);
    }
  }

  /** A row not in the table, which all others of its user precede. */
  ghost predicate Oldest(x: Row, rows: Table) {
    x !in rows && forall r :: r in rows && r.userId == x.userId ==> Newer(r, x)
  }

  lemma FirstIsOldest(x: Row, t: Recency)
    requires Ordered([x] + t)
    ensures Ordered(t) && Oldest(x, Rows(t))
  {
    OrderedTail([x] + t);
    assert ([x] + t)[1..] == t;
  }

  lemma PrecedingPlusOldest(rows: Table, x: Row, user: UserId, r: Row)
    requires Oldest(x, rows) && r in rows && r.userId == user
    ensures Preceding(OfUser({x} + rows, user), r) == Preceding(OfUser(rows, user), r)
  {
    OfUserPlus(rows, x, user);
    if x.userId == user {
      assert Newer(r, x);
    }
  }

  lemma AllPrecedeOldest(rows: Table, x: Row)
    requires Oldest(x, rows)
    ensures Preceding(OfUser({x} + rows, x.userId), x) == OfUser(rows, x.userId)
  {
    OfUserPlus(rows, x, x.userId);
  }

  /** One more row, older than the user's others: what LIMIT k keeps of them is unchanged, and it
      stays if and only if the user has fewer than k others. */
  lemma CapPlusOldest(rows: Table, x: Row, user: UserId, k: nat)
    requires Oldest(x, rows)
    ensures Capped({x} + rows, user, k) ==
            Capped(rows, user, k) + (if x.userId != user || |OfUser(rows, user)| < k then {x} else {})
  {
    if x.userId == user {
      AllPrecedeOldest(rows, x);
    }
    forall r | r in rows
      ensures r in Capped({x} + rows, user, k) <==> r in Capped(rows, user, k)
    {
      if r.userId == user {
        PrecedingPlusOldest(rows, x, user, r);
      }
    }
  }

  lemma CapCons(x: Row, t: Recency, user: UserId, k: nat)
    requires Ordered([x] + t)
    ensures Capped(Rows([x] + t), user, k) ==
            Capped(Rows(t), user, k) + (if x.userId != user || CountUser(t, user) < k then {x} else {})
  {
    FirstIsOldest(x, t);
    RowsCons(x, t);
    UserRowsCount(t, user);
    CapPlusOldest(Rows(t), x, user, k);
  }

  lemma DropFirstStep(x: Row, t: Recency, user: UserId, extra: nat)
    ensures CountUser([x] + t, user) == CountUser(t, user) + if x.userId == user then 1 else 0
    ensures DropFirst([x] + t, user, extra) ==
            if x.userId == user && extra > 0 then DropFirst(t, user, extra - 1) else [x] + DropFirst(t, user, extra)
  {
    assert ([x] + t)[1..] == t;
  }

  lemma CapConsOf(x: Row, t: Recency, user: UserId, k: nat, kept: Recency)
    requires Ordered([x] + t) && Rows(kept) == Capped(Rows(t), user, k)
    ensures Capped(Rows([x] + t), user, k) ==
            if x.userId != user || CountUser(t, user) < k then Rows([x] + kept) else Rows(kept)
  {
    CapCons(x, t, user, k);
    RowsCons(x, kept);
  }

  /** Of an ordered list, LIMIT k keeps what dropping the first `extra` of the user's rows keeps,
      when that is how many the user has beyond k. */
  lemma {:induction false} CapIsDropFirst(l: Recency, user: UserId, extra: nat, k: nat)
    requires Ordered(l)
    requires if extra == 0 then CountUser(l, user) <= k else CountUser(l, user) == k + extra
    ensures Rows(DropFirst(l, user, extra)) == Capped(Rows(l), user, k)
  {
    if l != [] {
      var x, t := l[0], l[1..];
      assert l == [x] + t;
      FirstIsOldest(x, t);
      DropFirstStep(x, t, user, extra);
      var fewer := if x.userId == user && extra > 0 then extra - 1 else extra;
      CapIsDropFirst(t, user, fewer, k);
      CapConsOf(x, t, user, k, DropFirst(t, user, fewer));
    }
  }

  lemma {:induction false} DropFirstOrdered(l: Recency, user: UserId, extra: nat)
    requires Ordered(l)
    ensures Ordered(DropFirst(l, user, extra))
    ensures forall r :: r in DropFirst(l, user, extra) ==> r in l
  {
    if l != [] {
      OrderedTail(l);
      if l[0].userId == user && extra > 0 {
        DropFirstOrdered(l[1..], user, extra - 1);
      } else {
        DropFirstOrdered(l[1..], user, extra);
        OrderedCons(l[0], DropFirst(l[1..], user, extra));
      }
    }
  }

  predicate Goes(r: Row, user: Option<UserId>, token: Option<Token>) {
    && (user.None? || r.userId == user.value)
    && (token.None? || r.token == HashToken(token.value))
  }

  lemma {:induction false} WithoutOrdered(l: Recency, user: Option<UserId>, token: Option<Token>)
    requires Ordered(l)
    ensures Ordered(Without(l, user, token))
    ensures forall r :: r in Without(l, user, token) <==> r in l && !Goes(r, user, token)
  {
    if l != [] {
      OrderedTail(l);
      WithoutOrdered(l[1..], user, token);
      if !Goes(l[0], user, token) {
        OrderedCons(l[0], Without(l[1..], user, token));
      }
    }
  }

  /** Creation times that never go back, per user. */
  predicate InTime(rows: Table, s: NewSession) {
    forall r :: r in rows && r.userId == s.userId ==> r.createdAt <= s.createdAt
  }

  lemma Appended(l: Recency, st: Store, s: NewSession)
    requires Ordered(l) && Rows(l) <= st.rows && TableOk(st) && InTime(Rows(l), s)
    ensures Ordered(l + [Stored(st.nextId, s)])
    ensures Rows(l + [Stored(st.nextId, s)]) == Rows(l) + {Stored(st.nextId, s)}
  {
    forall i | 0 <= i < |l|
      ensures l[i].id < st.nextId && (l[i].userId == s.userId ==> l[i].createdAt <= s.createdAt)
    {
      assert l[i] in Rows(l);
    }
  }

  lemma HoldsIsTaken(l: Recency, token: Token)
    ensures Holds(l, token) <==> Taken(Rows(l), token)
  {
    if r :| r in l && r.token == HashToken(token) {
      assert r in Matching(Rows(l), token);
    }
    if r :| r in Matching(Rows(l), token) {
      assert r in l;
    }
  }

  lemma {:induction false} DropNone(l: Recency, user: UserId)
    ensures DropFirst(l, user, 0) == l
  {
    if l != [] {
      DropNone(l[1..], user);
    }
  }

  lemma CapKeepsAll(l: Recency, user: UserId, k: nat)
    requires Ordered(l) && CountUser(l, user) <= k
    ensures Capped(Rows(l), user, k) == Rows(l)
  {
    CapIsDropFirst(l, user, 0, k);
    DropNone(l, user);
  }

  lemma ListCapOrdered(l: Recency, user: UserId, maxSessions: int)
    requires Ordered(l)
    ensures Ordered(ListCap(l, user, maxSessions))
  {
    var mine := CountUser(l, user);
    if 0 < maxSessions < mine {
      DropFirstOrdered(l, user, mine - maxSessions);
    }
  }

  lemma ListCapRows(l: Recency, user: UserId, k: nat)
    requires Ordered(l) && 0 < k
    ensures Rows(ListCap(l, user, k)) == Capped(Rows(l), user, k)
  {
    var mine := CountUser(l, user);
    if k < mine {
      CapIsDropFirst(l, user, mine - k, k);
    } else {
      CapKeepsAll(l, user, k);
    }
  }

  lemma CapRefines(l: Recency, user: UserId, maxSessions: int)
    requires Ordered(l)
    ensures Ordered(ListCap(l, user, maxSessions))
    ensures Rows(ListCap(l, user, maxSessions)) ==
            if maxSessions <= 0 then Rows(l) else Capped(Rows(l), user, maxSessions)
  {
    ListCapOrdered(l, user, maxSessions);
    if 0 < maxSessions {
      ListCapRows(l, user, maxSessions);
    }
  }

  /** Pruning the expired rows before the cap or not is the same when the cap keeps none of them. */
  lemma CapAfterPrune(rows: Table, user: UserId, k: nat, dbNow: Time)
    requires DistinctIds(rows)
    requires forall r :: r in Capped(rows, user, k) && r.userId == user ==> !Expired(r, dbNow)
    ensures Capped(Pruned(rows, user, dbNow), user, k) == Capped(rows, user, k)
  {
    var mine, top := OfUser(rows, user), Top(OfUser(rows, user), k);
    var live := OfUser(Pruned(rows, user, dbNow), user);
    CappedIsTop(rows, user, k);
    TopIsLimit(mine, k);
    forall r | r in live
      ensures |Preceding(live, r)| < k <==> |Preceding(mine, r)| < k
    {
      SubsetSize(Preceding(live, r), Preceding(mine, r));
      if r !in top {
        assert top <= Preceding(live, r);
        SubsetSize(top, Preceding(live, r));
        SubsetSize(top, mine - {r});
      }
    }
    forall r | r in top
      ensures r in live
    {
      assert r in Capped(rows, user, k);
    }
  }

  /** What the list's cap would keep once the new session is in. */
  function Kept(st: Store, s: NewSession, maxSessions: int): Table {
    var rows := st.rows + {Stored(st.nextId, s)};
    if maxSessions <= 0 then rows else Capped(rows, s.userId, maxSessions)
  }

  predicate NoneExpired(rows: Table, user: UserId, dbNow: Time) {
    forall r :: r in rows && r.userId == user ==> !Expired(r, dbNow)
  }

  /** Create on the table has the outcome of Create on the list, when creation times do not go back;
      and it leaves the same rows if and only if it is refused, or no row of the user that the
      list's cap keeps, the new one included, has expired: the list knows no expiry. */
  lemma CreateRefines(l: Recency, st: Store, s: NewSession, maxSessions: int, dbNow: Time)
    requires TableOk(st) && Ordered(l) && Rows(l) == st.rows && InTime(st.rows, s)
    ensures var (after, o) := CreateIn(st, s, maxSessions, dbNow);
            var (l', o') := ListCreate(l, Stored(st.nextId, s), s.token, maxSessions);
            && o == o' && Ordered(l')
            && (Rows(l') == after.rows <==>
                  Taken(st.rows, s.token) || NoneExpired(Kept(st, s, maxSessions), s.userId, dbNow))
  {
    HoldsIsTaken(l, s.token);
    Appended(l, st, s);
    if !Taken(st.rows, s.token) {
      var row := Stored(st.nextId, s);
      var rows := st.rows + {row};
      CapRefines(l + [row], s.userId, maxSessions);
      assert Rows(ListCap(l + [row], s.userId, maxSessions)) == Kept(st, s, maxSessions);
      PruneShows(st, s, maxSessions, dbNow);
    }
  }

  lemma PruneShows(st: Store, s: NewSession, maxSessions: int, dbNow: Time)
    requires TableOk(st) && !Taken(st.rows, s.token)
    ensures CreateIn(st, s, maxSessions, dbNow).0.rows == Kept(st, s, maxSessions)
            <==> NoneExpired(Kept(st, s, maxSessions), s.userId, dbNow)
  {
    var rows := st.rows + {Stored(st.nextId, s)};
    var after := CreateIn(st, s, maxSessions, dbNow).0.rows;
    assert forall r :: r in after && r.userId == s.userId ==> !Expired(r, dbNow);
    if NoneExpired(Kept(st, s, maxSessions), s.userId, dbNow) {
      if maxSessions <= 0 {
        assert Pruned(rows, s.userId, dbNow) == rows;
      } else {
        CapAfterPrune(rows, s.userId, maxSessions, dbNow);
      }
    }
  }

  /** For instance: a user with one expired session logs in again. */
  lemma ExpiryShows()
    ensures var row := Row(0, 1, HashToken(0), 0, Some(5));
            var st, s := Store({row}, 1), NewSession(1, 1, 10, None);
            && TableOk(st) && Ordered([row]) && Rows([row]) == st.rows && InTime(st.rows, s)
            && row !in CreateIn(st, s, 5, 10).0.rows
            && row in ListCreate([row], Stored(1, s), s.token, 5).0
  {
    var row := Row(0, 1, HashToken(0), 0, Some(5));
    var st, s := Store({row}, 1), NewSession(1, 1, 10, None);
    assert row in [row];
    assert Matching(st.rows, 1) == {};
    HoldsIsTaken([row], 1);
    assert row in [row] + [Stored(1, s)];
  }

  /** A rotation that brings the token of another session. */
  predicate Clashes(rows: Table, oldToken: Token, token: Token) {
    Taken(rows, oldToken) && oldToken != token && Taken(rows, token)
  }

  lemma TakenIsStored(rows: Table, token: Token)
    ensures Taken(rows, token) <==> exists r :: r in rows && r.token == HashToken(token)
  {
    if r :| r in rows && r.token == HashToken(token) {
      assert r in Matching(rows, token);
    }
    if r :| r in Matching(rows, token) {
      assert r in rows;
    }
  }

  lemma ClashIsDuplicate(st: Store, oldToken: Token, next: NewSession)
    requires TableOk(st)
    ensures RotateIn(st, oldToken, next).1.DuplicateToken? <==> Clashes(st.rows, oldToken, next.token)
  {
    RotateContract(st, oldToken, next);
    TakenIsStored(st.rows, oldToken);
    TakenIsStored(st.rows, next.token);
  }

  /** Rotate on the table has the outcome of Rotate on the list, and leaves the same rows unless the
      new token is another session's: then the transaction rolls back, while the list has lost the
      old session. */
  lemma RotateRefines(l: Recency, st: Store, oldToken: Token, next: NewSession)
    requires TableOk(st) && Ordered(l) && Rows(l) == st.rows && InTime(st.rows, next)
    ensures var (after, o) := RotateIn(st, oldToken, next);
            var (l', o') := ListRotate(l, oldToken, Stored(st.nextId, next), next.token);
            && o == o' && Ordered(l')
            && (Rows(l') == after.rows <==> !Clashes(st.rows, oldToken, next.token))
  {
    ClashIsDuplicate(st, oldToken, next);
    var rest := Without(l, None, Some(oldToken));
    HoldsIsTaken(l, oldToken);
    HoldsIsTaken(rest, next.token);
    WithoutOrdered(l, None, Some(oldToken));
    MatchingIsOne(st, oldToken);
    var gone := Matching(st.rows, oldToken);
    assert Rows(rest) == st.rows - gone;
    Appended(rest, st, next);
    if r :| r in gone {
      assert gone == {r};
    }
  }

  /** For instance: the token of one session replaced by that of another. */
  lemma DuplicateShows()
    ensures var one, two := Row(0, 1, HashToken(0), 0, None), Row(1, 1, HashToken(1), 0, None);
            var st, next := Store({one, two}, 2), NewSession(1, 1, 0, None);
            && TableOk(st) && Ordered([one, two]) && Rows([one, two]) == st.rows && InTime(st.rows, next)
            && Clashes(st.rows, 0, next.token)
  {
    var one, two := Row(0, 1, HashToken(0), 0, None), Row(1, 1, HashToken(1), 0, None);
    var rows := {one, two};
    assert [one, two][0] == one && [one, two][1] == two;
    assert Matching(rows, 0) == {one};
    assert two in Matching(rows, 1);
  }

  lemma DeletesRefine(l: Recency, st: Store, user: UserId, token: Token)
    requires Ordered(l) && Rows(l) == st.rows
    ensures var one := Without(l, Some(user), Some(token));
            Ordered(one) && Rows(one) == DeleteSessionIn(st, user, token).rows
    ensures var all := Without(l, Some(user), None);
            Ordered(all) && Rows(all) == DeleteByUserIn(st, user).rows
  {
    WithoutOrdered(l, Some(user), Some(token));
    WithoutOrdered(l, Some(user), None);
  }

  // ---------------------------------------------------------------- whole runs

  datatype Op =
    | OpCreate(s: NewSession, dbNow: Time)
    | OpRotate(oldToken: Token, s: NewSession)
    | OpDeleteSession(user: UserId, token: Token)
    | OpDeleteByUser(user: UserId)

  function Apply(st: Store, op: Op, maxSessions: int): Store {
    match op
    case OpCreate(s, dbNow) => CreateIn(st, s, maxSessions, dbNow).0
    case OpRotate(oldToken, s) => RotateIn(st, oldToken, s).0
    case OpDeleteSession(user, token) => DeleteSessionIn(st, user, token)
    case OpDeleteByUser(user) => DeleteByUserIn(st, user)
  }

  /** The same operation on the list; `id` is the id the table gives a new row. */
  function ApplyList(l: Recency, op: Op, id: nat, maxSessions: int): Recency {
    match op
    case OpCreate(s, _) => ListCreate(l, Stored(id, s), s.token, maxSessions).0
    case OpRotate(oldToken, s) => ListRotate(l, oldToken, Stored(id, s), s.token).0
    case OpDeleteSession(user, token) => Without(l, Some(user), Some(token))
    case OpDeleteByUser(user) => Without(l, Some(user), None)
  }

  function Run(ops: seq<Op>, maxSessions: int): Store {
    if ops == [] then Store({}, 0) else Apply(Run(ops[..|ops| - 1], maxSessions), ops[|ops| - 1], maxSessions)
  }

  function RunList(ops: seq<Op>, maxSessions: int): Recency {
    if ops == [] then []
    else
      var n := |ops| - 1;
      ApplyList(RunList(ops[..n], maxSessions), ops[n], Run(ops[..n], maxSessions).nextId, maxSessions)
  }

  /** New rows are not created before the user's others. */
  predicate OpInTime(st: Store, op: Op) {
    match op
    case OpCreate(s, _) => InTime(st.rows, s)
    case OpRotate(_, s) => InTime(st.rows, s)
    case _ => true
  }

  /** A login that is not refused finds no expired row among those the cap keeps, and a rotation
      does not bring the token of another session. */
  predicate Regular(st: Store, op: Op, maxSessions: int) {
    match op
    case OpCreate(s, dbNow) => Taken(st.rows, s.token) || NoneExpired(Kept(st, s, maxSessions), s.userId, dbNow)
    case OpRotate(oldToken, s) => !Clashes(st.rows, oldToken, s.token)
    case _ => true
  }

  predicate RunInTime(ops: seq<Op>, maxSessions: int) {
    ops != [] ==>
      && RunInTime(ops[..|ops| - 1], maxSessions)
      && OpInTime(Run(ops[..|ops| - 1], maxSessions), ops[|ops| - 1])
  }

  predicate RegularRun(ops: seq<Op>, maxSessions: int) {
    ops != [] ==>
      && RegularRun(ops[..|ops| - 1], maxSessions)
      && Regular(Run(ops[..|ops| - 1], maxSessions), ops[|ops| - 1], maxSessions)
  }

  lemma {:induction false} RunOk(ops: seq<Op>, maxSessions: int)
    ensures TableOk(Run(ops, maxSessions))
  {
    if ops != [] {
      var n := |ops| - 1;
      RunOk(ops[..n], maxSessions);
      var st := Run(ops[..n], maxSessions);
      match ops[n]
      case OpCreate(s, dbNow) => CreateKeepsTable(st, s, maxSessions, dbNow);
      case OpRotate(oldToken, s) => RotateKeepsTable(st, oldToken, s);
      case OpDeleteSession(user, token) =>
      case OpDeleteByUser(user) =>
    }
  }

  lemma ApplyRefines(l: Recency, st: Store, op: Op, maxSessions: int)
    requires TableOk(st) && Ordered(l) && Rows(l) == st.rows && OpInTime(st, op)
    ensures Ordered(ApplyList(l, op, st.nextId, maxSessions))
    ensures Rows(ApplyList(l, op, st.nextId, maxSessions)) == Apply(st, op, maxSessions).rows
            <==> Regular(st, op, maxSessions)
  {
    match op
    case OpCreate(s, dbNow) =>
      CreateRefines(l, st, s, maxSessions, dbNow);
      HoldsIsTaken(l, s.token);
    case OpRotate(oldToken, s) => RotateRefines(l, st, oldToken, s);
    case OpDeleteSession(user, token) => DeletesRefine(l, st, user, token);
    case OpDeleteByUser(user) => DeletesRefine(l, st, user, 0);
  }

  /** The table holds exactly the rows of the list, after every operation of a run. */
  predicate AgreeThroughout(ops: seq<Op>, maxSessions: int) {
    && Rows(RunList(ops, maxSessions)) == Run(ops, maxSessions).rows
    && (ops != [] ==> AgreeThroughout(ops[..|ops| - 1], maxSessions))
  }

  /** The recency refinement: with creation times that do not go back, the table holds the rows of
      the list throughout a run, and the list is in creation order, if and only if every operation
      is regular. */
  lemma {:induction false} RecencyRefinement(ops: seq<Op>, maxSessions: int)
    requires RunInTime(ops, maxSessions)
    ensures AgreeThroughout(ops, maxSessions) <==> RegularRun(ops, maxSessions)
    ensures RegularRun(ops, maxSessions) ==> Ordered(RunList(ops, maxSessions))
  {
    if ops != [] {
      var n := |ops| - 1;
      RecencyRefinement(ops[..n], maxSessions);
      if RegularRun(ops[..n], maxSessions) {
        RunOk(ops[..n], maxSessions);
        ApplyRefines(RunList(ops[..n], maxSessions), Run(ops[..n], maxSessions), ops[n], maxSessions);
      }
    }
  }
}
