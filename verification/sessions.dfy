/** The session store (internal/auth/session.go) as functions on its two views.

    A session is written under its token and, when it has one, under its client
    address. The functions below are what the methods of SessionService do; the
    lemmas say how the two views stay in agreement. */
module Sessions {
  import opened Prelude
  import opened Cells

  datatype Session = Session(
    token: string, userId: nat, email: string, provider: string,
    groups: seq<string>, clientIP: string, issuedAt: int, expires: int)

  /** session:<token> and auth:<client address>. */
  datatype Book = Book(sessions: Cells<Session>, addresses: Cells<Session>)

  /** A lifetime as NewSessionService leaves it: never zero or less. */
  type Lifetime = t: int | 0 < t witness 1

  const DISCONNECT_GRACE: int := 120
  const DEFAULT_LIFETIME: Lifetime := 8 * 60 * 60

  /** What was configured, or eight hours. */
  function LifetimeOf(ttl: int): (life: Lifetime)
    ensures life == 8 * 60 * 60 || life == ttl
    ensures 0 < ttl ==> life == ttl
  {
    if ttl <= 0 then DEFAULT_LIFETIME else ttl
  }

  /** What fetch accepts: a live key whose recorded expiry has not passed. */
  function Fetch(cells: Cells<Session>, key: string, now: int): Option<Session> {
    if Live(cells, key, now) && now <= cells[key].value.expires then Some(cells[key].value) else None
  }

  function Get(b: Book, now: int, token: string): Option<Session> {
    Fetch(b.sessions, token, now)
  }

  function GetByClientIP(b: Book, now: int, clientIP: string): Option<Session> {
    Fetch(b.addresses, clientIP, now)
  }

  function Stamp(draft: Session, token: string, now: int, ttl: Lifetime): Session {
    draft.(token := token, issuedAt := now, expires := now + ttl)
  }

  function Create(b: Book, now: int, ttl: Lifetime, draft: Session, token: string): Book {
    var s := Stamp(draft, token, now, ttl);
    Book(Put(b.sessions, token, s, now, ttl),
         if s.clientIP == "" then b.addresses else Put(b.addresses, s.clientIP, s, now, ttl))
  }

  function Revoke(b: Book, now: int, token: string): Book {
    var s := Get(b, now, token);
    Book(Drop(b.sessions, token),
         if s.Some? && s.value.clientIP != "" then Drop(b.addresses, s.value.clientIP) else b.addresses)
  }

  function RevokeByClientIP(b: Book, now: int, clientIP: string): Book {
    match GetByClientIP(b, now, clientIP)
    case None => b
    case Some(s) => Revoke(b, now, s.token)
  }

  /** Both keys of the session at an address get the same new time to live. */
  function Retime(b: Book, now: int, clientIP: string, token: string, ttl: int): Book {
    Book(SetExpiry(b.sessions, token, now, ttl), SetExpiry(b.addresses, clientIP, now, ttl))
  }

  function Disconnected(b: Book, now: int, clientIP: string): Book {
    match GetByClientIP(b, now, clientIP)
    case None => b
    case Some(s) => Retime(b, now, clientIP, s.token, DISCONNECT_GRACE)
  }

  function Reconnected(b: Book, now: int, clientIP: string): Book {
    match GetByClientIP(b, now, clientIP)
    case None => b
    case Some(s) => Retime(b, now, clientIP, s.token, s.expires - now)
  }

  // ---- the cross-key invariant ----

  /** Every entry is filed under its own token or address and carries a deadline;
      and a session that an address leads to is also stored, with the same
      deadline, under its token. Only readable sessions are covered: revoking a
      session whose expiry has passed leaves its address entry behind. */
  ghost predicate Agree(b: Book, now: int) {
    && (forall t :: t in b.sessions ==> b.sessions[t].value.token == t && b.sessions[t].deadline.Some?)
    && (forall ip :: ip in b.addresses ==>
          ip != "" && b.addresses[ip].value.clientIP == ip && b.addresses[ip].deadline.Some?)
    && (forall ip :: GetByClientIP(b, now, ip).Some? ==>
          var t := b.addresses[ip].value.token; t in b.sessions && b.sessions[t] == b.addresses[ip])
  }

  lemma AgreeAdvances(b: Book, now: int, later: int)
    requires Agree(b, now) && now <= later
    ensures Agree(b, later)
  {
  }

  lemma CreateAgrees(b: Book, now: int, ttl: Lifetime, draft: Session, token: string)
    requires Agree(b, now) && token !in b.sessions
    ensures Agree(Create(b, now, ttl, draft, token), now)
  {
    var b' := Create(b, now, ttl, draft, token);
    forall ip | GetByClientIP(b', now, ip).Some?
      ensures var t := b'.addresses[ip].value.token; t in b'.sessions && b'.sessions[t] == b'.addresses[ip]
    {
      if ip != draft.clientIP { assert GetByClientIP(b, now, ip).Some?; }
    }
  }

  lemma RevokeAgrees(b: Book, now: int, token: string)
    requires Agree(b, now)
    ensures Agree(Revoke(b, now, token), now)
  {
  }

  lemma RevokeByClientIPAgrees(b: Book, now: int, clientIP: string)
    requires Agree(b, now)
    ensures Agree(RevokeByClientIP(b, now, clientIP), now)
  {
  }

  lemma RetimeAgrees(b: Book, now: int, clientIP: string, ttl: int)
    requires Agree(b, now) && GetByClientIP(b, now, clientIP).Some?
    ensures Agree(Retime(b, now, clientIP, b.addresses[clientIP].value.token, ttl), now)
  {
  }
}
