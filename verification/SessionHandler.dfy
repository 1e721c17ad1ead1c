/** Sessions as the HTTP handler drives them: login, refresh, logout and password change. A
    Refresh is two steps, the lookup and the rotation, and anything may happen in between. */
module SessionHandler {
  import opened Options
  import opened SessionStore
  import opened SessionRecency

  const DEFAULT_MAX_SESSIONS := 5
  const REFRESH_TOKEN_TTL: Time := 7 * 24 * 3600

  function SessionCap(maxSessions: int): nat {
    if maxSessions > 0 then maxSessions else DEFAULT_MAX_SESSIONS
  }

  datatype Reply = Success(refreshToken: Token) | Unauthorized | InternalError

  /** The checks of Refresh before it rotates: the session is stored, the JWT is valid (`claims` is
      the user it names) and both are about the same user. */
  predicate Accepts(st: Store, token: Token, claims: Option<UserId>) {
    claims.Some? && exists r :: r in Matching(st.rows, token) && r.userId == claims.value
  }

  function Minted(user: UserId, token: Token, now: Time): NewSession {
    NewSession(user, token, now, Some(now + REFRESH_TOKEN_TTL))
  }

  function ReplyTo(o: Outcome, token: Token): Reply {
    match o
    case Done => Success(token)
    case TokenNotFound => Unauthorized
    case DuplicateToken => InternalError
  }

  class AuthHandler {
    const repo: RefreshTokenRepository
    const maxSessions: int

    constructor (repo: RefreshTokenRepository, maxSessions: int)
      ensures this.repo == repo && this.maxSessions == maxSessions
    {
      this.repo := repo;
      this.maxSessions := maxSessions;
    }

    /** issueSession: a failed insert is a failed login. */
    method IssueSession(user: UserId, minted: Token, now: Time, dbNow: Time) returns (r: Reply)
      modifies repo
      ensures var s := NewSession(user, minted, now, Some(now + 604_800));
              var (after, o) := CreateIn(old(repo.View()), s, if maxSessions > 0 then maxSessions else 5, dbNow);
              repo.View() == after && r == if o.Done? then Success(minted) else InternalError
    {
      var cap := if maxSessions > 0 then maxSessions else DEFAULT_MAX_SESSIONS;
      var o := repo.Create(NewSession(user, minted, now, Some(now + REFRESH_TOKEN_TTL)), cap, dbNow);
      r := if o.Done? then Success(minted) else InternalError;
    }

    /** The first half of Refresh. */
    method Lookup(token: Token, claims: Option<UserId>) returns (ok: bool)
      requires TableOk(repo.View())
      ensures ok <==> Accepts(repo.View(), token, claims)
      ensures ok <==> (&& claims.Some?
                       && exists r :: r in repo.rows && r.token == HashToken(token) && r.userId == claims.value)
    {
      var found := repo.Find(token);
      if found.None? {
        return false;
      }
      MatchingIsOne(repo.View(), token);
      assert Matching(repo.View().rows, token) == {found.value};
      if claims.None? {
        return false;
      }
      return found.value.userId == claims.value;
    }

    /** The second half: rotateSession and the reply. */
    method RotateSession(token: Token, user: UserId, minted: Token, now: Time) returns (r: Reply)
      modifies repo
      ensures var (after, o) := RotateIn(old(repo.View()), token, NewSession(user, minted, now, Some(now + 604_800)));
              && repo.View() == after
              && r == if o.Done? then Success(minted) else if o.TokenNotFound? then Unauthorized else InternalError
    {
      var o := repo.Rotate(token, NewSession(user, minted, now, Some(now + REFRESH_TOKEN_TTL)));
      if o.TokenNotFound? {
        return Unauthorized;
      }
      if !o.Done? {
        return InternalError;
      }
      return Success(minted);
    }

    /** Refresh with nothing in between its two halves. The session presented must be stored and its
        token name the user it is stored for; then it is replaced by a new one. */
    method Refresh(token: Token, claims: Option<UserId>, minted: Token, now: Time) returns (r: Reply)
      requires TableOk(repo.View())
      modifies repo
      ensures var rows := old(repo.rows);
              if claims.None? || forall q :: q in rows && q.token == HashToken(token) ==> q.userId != claims.value then
                r == Unauthorized && repo.View() == old(repo.View())
              else if minted != token && exists q :: q in rows && q.token == HashToken(minted) then
                r == InternalError && repo.rows == rows
              else
                && r == Success(minted)
                && exists q :: (&& q in rows && q.token == HashToken(token)
                                && repo.rows == rows - {q} + {Row(old(repo.nextId), claims.value, HashToken(minted),
                                                                  now, Some(now + 604_800))})
    {
      var ok := Lookup(token, claims);
      if !ok {
        return Unauthorized;
      }
      RotateContract(repo.View(), token, NewSession(claims.value, minted, now, Some(now + 604_800)));
      r := RotateSession(token, claims.value, minted, now);
    }

    /** Logout ends one session when a token is given, and all of the user's otherwise. */
    method Logout(user: UserId, token: Option<Token>)
      modifies repo
      ensures repo.View() == if token.Some? then DeleteSessionIn(old(repo.View()), user, token.value)
                             else DeleteByUserIn(old(repo.View()), user)
    {
      if token != None {
        repo.DeleteSession(user, token.value);
      } else {
        repo.DeleteByUser(user);
      }
    }

    /** The revocation in ChangePassword. */
    method RevokeAll(user: UserId)
      modifies repo
      ensures repo.View() == DeleteByUserIn(old(repo.View()), user)
    {
      repo.DeleteByUser(user);
    }
  }

  // ---------------------------------------------------------------- the interleaved system

  /** Who a token was signed for, and which token it replaced, if it was not a login's. */
  datatype Issue = Issue(user: UserId, parent: Option<Token>)

  type RefreshId = nat

  datatype Pending = Pending(token: Token, user: UserId)

  datatype System = System(
    st: Store,
    refreshes: map<RefreshId, Pending>,  // Refresh calls between their lookup and their rotation
    // history
    issued: seq<Issue>,                  // issued[t] is about token t
    rotated: multiset<Token>,            // one occurrence for each successful rotation of a token
    revoked: set<Token>)                 // tokens issued to a user before a DeleteByUser of that user

  /** `valid` is whether jwt.Parse accepts the token at that moment. */
  datatype Event =
    | Login(user: UserId, now: Time, dbNow: Time)
    | Lookup(id: RefreshId, token: Token, valid: bool)
    | Rotation(id: RefreshId, now: Time)
    | Logout(user: UserId, token: Token)
    | Revoke(user: UserId)

  function TokensOf(issued: seq<Issue>, user: UserId): set<Token> {
    set t: Token | 0 <= t < |issued| && issued[t].user == user
  }

  function LoginStep(s: System, cap: nat, user: UserId, now: Time, dbNow: Time): System {
    s.(st := CreateIn(s.st, Minted(user, |s.issued|, now), cap, dbNow).0,
       issued := s.issued + [Issue(user, None)])
  }

  /** The claims of a JWT this service signed are those it was issued with. */
  function LookupStep(s: System, id: RefreshId, token: Token, valid: bool): System {
    if id !in s.refreshes && valid && token < |s.issued| && Accepts(s.st, token, Some(s.issued[token].user)) then
      s.(refreshes := s.refreshes[id := Pending(token, s.issued[token].user)])
    else s
  }

  function RotationStep(s: System, id: RefreshId, now: Time): System
    requires id in s.refreshes
  {
    var p := s.refreshes[id];
    var (after, o) := RotateIn(s.st, p.token, Minted(p.user, |s.issued|, now));
    s.(st := after,
       refreshes := s.refreshes - {id},
       issued := s.issued + [Issue(p.user, if o.Done? then Some(p.token) else None)],
       rotated := if o.Done? then s.rotated + multiset{p.token} else s.rotated)
  }

  function Step(s: System, cap: nat, e: Event): System {
    match e
    case Login(user, now, dbNow) => LoginStep(s, cap, user, now, dbNow)
    case Lookup(id, token, valid) => LookupStep(s, id, token, valid)
    case Rotation(id, now) => if id in s.refreshes then RotationStep(s, id, now) else s
    case Logout(user, token) => s.(st := DeleteSessionIn(s.st, user, token))
    case Revoke(user) =>
      s.(st := DeleteByUserIn(s.st, user), revoked := s.revoked + TokensOf(s.issued, user))
  }

  const EMPTY := System(Store({}, 0), map[], [], multiset{}, {})

  /** Every run: any number of users, devices and concurrent requests. */
  function RunSystem(cap: nat, events: seq<Event>): System {
    if events == [] then EMPTY
    else Step(RunSystem(cap, events[..|events| - 1]), cap, events[|events| - 1])
  }

  predicate Live(s: System, t: Token) {
    Taken(s.st.rows, t)
  }

  // ---------------------------------------------------------------- lineage

  /** The login a token descends from. A parent is always an earlier token. */
  function Root(issued: seq<Issue>, t: Token): Token
    requires t < |issued|
  {
    match issued[t].parent
    case None => t
    case Some(p) => if p < t then Root(issued, p) else t
  }

  predicate Descends(issued: seq<Issue>, t: Token, a: Token)
    requires t < |issued|
  {
    t == a ||
    match issued[t].parent
    case None => false
    case Some(p) => p < t && Descends(issued, p, a)
  }

  lemma {:induction false} RootGrows(issued: seq<Issue>, more: seq<Issue>, t: Token)
    requires t < |issued|
    ensures Root(issued + more, t) == Root(issued, t)
  {
    if issued[t].parent.Some? && issued[t].parent.value < t {
      RootGrows(issued, more, issued[t].parent.value);
    }
  }

  lemma {:induction false} RootOfDescendant(issued: seq<Issue>, t: Token, a: Token)
    requires t < |issued| && Descends(issued, t, a)
    ensures a <= t && Root(issued, t) == Root(issued, a)
  {
    if t != a {
      RootOfDescendant(issued, issued[t].parent.value, a);
    }
  }
}
