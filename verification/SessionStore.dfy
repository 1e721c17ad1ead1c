/** The refresh-token sessions of auth-service: the table of refresh_token_repository.go, the
    session half of the HTTP handler, and the recency list the repository's own tests use as a
    stand-in for the table. Every repository method is one transaction, hence one atomic step. */
module SessionStore {
  import opened Options

  type UserId = nat
  type Token = nat   // the n-th token ever signed
  type Time = int

  /** What the table stores instead of a token. SHA-256 is taken to be injective. */
  datatype Digest = Sha256(of: Token)

  function HashToken(token: Token): Digest {
    Sha256(token)
  }

  datatype Row = Row(id: nat, userId: UserId, token: Digest, createdAt: Time, expiresAt: Option<Time>)

  type Table = set<Row>

  /** What a caller asks to be stored. */
  datatype NewSession = NewSession(userId: UserId, token: Token, createdAt: Time, expiresAt: Option<Time>)

  function Stored(id: nat, s: NewSession): Row {
    Row(id, s.userId, HashToken(s.token), s.createdAt, s.expiresAt)
  }

  datatype Outcome = Done | TokenNotFound | DuplicateToken

  // ---------------------------------------------------------------- the SQL statements

  function Matching(rows: Table, token: Token): Table {
    set r | r in rows && r.token == HashToken(token)
  }

  /** The unique constraint on the token column would refuse this insert. */
  predicate Taken(rows: Table, token: Token) {
    Matching(rows, token) != {}
  }

  /** ORDER BY created_at DESC, id DESC: q comes before r. */
  predicate Newer(q: Row, r: Row) {
    q.createdAt > r.createdAt || (q.createdAt == r.createdAt && q.id > r.id)
  }

  function OfUser(rows: Table, user: UserId): Table {
    set r | r in rows && r.userId == user
  }

  function Preceding(rows: Table, r: Row): Table {
    set q | q in rows && Newer(q, r)
  }

  predicate Expired(r: Row, now: Time) {
    r.expiresAt.Some? && r.expiresAt.value < now
  }

  function Pruned(rows: Table, user: UserId, dbNow: Time): Table {
    set r | r in rows && !(r.userId == user && Expired(r, dbNow))
  }

  /** Deletes the user's rows that are not among the first `k` in that order. */
  function Capped(rows: Table, user: UserId, k: nat): Table {
    set r | r in rows && (r.userId != user || |Preceding(OfUser(rows, user), r)| < k)
  }

  // ---------------------------------------------------------------- the repository methods

  datatype Store = Store(rows: Table, nextId: nat)

  /** Create: insert, prune the expired, then cap. A refused insert still consumes an id. */
  function CreateIn(st: Store, s: NewSession, maxSessions: int, dbNow: Time): (Store, Outcome) {
    if Taken(st.rows, s.token) then (st.(nextId := st.nextId + 1), DuplicateToken)
    else
      var inserted := st.rows + {Stored(st.nextId, s)};
      var pruned := Pruned(inserted, s.userId, dbNow);
      (Store(if maxSessions <= 0 then pruned else Capped(pruned, s.userId, maxSessions), st.nextId + 1), Done)
  }

  function RotateIn(st: Store, oldToken: Token, next: NewSession): (Store, Outcome) {
    var gone := Matching(st.rows, oldToken);
    if |gone| != 1 then (st, TokenNotFound)
    else if Taken(st.rows - gone, next.token) then (st.(nextId := st.nextId + 1), DuplicateToken)
    else (Store(st.rows - gone + {Stored(st.nextId, next)}, st.nextId + 1), Done)
  }

  function DeleteSessionIn(st: Store, user: UserId, token: Token): Store {
    st.(rows := set r | r in st.rows && !(r.userId == user && r.token == HashToken(token)))
  }

  function DeleteByUserIn(st: Store, user: UserId): Store {
    st.(rows := set r | r in st.rows && r.userId != user)
  }

  class RefreshTokenRepository {
    var rows: Table
    var nextId: nat

    ghost function View(): Store
      reads this
    {
      Store(rows, nextId)
    }

    constructor ()
      ensures View() == Store({}, 0)
    {
      rows, nextId := {}, 0;
    }

    method Find(token: Token) returns (found: Option<Row>)
      ensures found.Some? ==> found.value in Matching(rows, token)
      ensures found.None? <==> Matching(rows, token) == {}
    {
      if r :| r in rows && r.token == HashToken(token) {
        assert r in Matching(rows, token);
        return Some(r);
      }
      return None;
    }

    method Create(s: NewSession, maxSessions: int, dbNow: Time) returns (o: Outcome)
      modifies this
      ensures (View(), o) == CreateIn(old(View()), s, maxSessions, dbNow)
    {
      var id := nextId;
      nextId := nextId + 1;
      if Matching(rows, s.token) != {} {
        return DuplicateToken;
      }
      rows := rows + {Stored(id, s)};
      rows := set r | r in rows && !(r.userId == s.userId && Expired(r, dbNow));
      if maxSessions <= 0 {
        return Done;
      }
      var mine := OfUser(rows, s.userId);
      rows := set r | r in rows && (r.userId != s.userId || |Preceding(mine, r)| < maxSessions);
      return Done;
    }

    method Rotate(oldToken: Token, next: NewSession) returns (o: Outcome)
      modifies this
      ensures (View(), o) == RotateIn(old(View()), oldToken, next)
    {
      ghost var before := View();
      var gone := Matching(rows, oldToken);
      rows := rows - gone;
      if |gone| != 1 {
        rows := rows + gone;  // roll back
        assert rows == before.rows;
        return TokenNotFound;
      }
      var id := nextId;
      nextId := nextId + 1;
      if Matching(rows, next.token) != {} {
        rows := rows + gone;
        assert rows == before.rows;
        return DuplicateToken;
      }
      rows := rows + {Stored(id, next)};
      return Done;
    }

    method DeleteSession(user: UserId, token: Token)
      modifies this
      ensures View() == DeleteSessionIn(old(View()), user, token)
      ensures forall r :: r in rows <==> r in old(rows) && (r.userId != user || r.token != HashToken(token))
    {
      rows := set r | r in rows && !(r.userId == user && r.token == HashToken(token));
    }

    method DeleteByUser(user: UserId)
      modifies this
      ensures View() == DeleteByUserIn(old(View()), user)
      ensures forall r :: r in rows <==> r in old(rows) && r.userId != user
    {
      rows := set r | r in rows && r.userId != user;
    }
  }
}
