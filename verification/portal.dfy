/** The portal's view of who is signed in, and its logout (internal/web/auth.go). */
module Portal {
  import opened Prelude
  import opened Cells
  import opened Sessions
  import opened Login
  import opened Keys
  import opened AuthService
  import opened System
  import Interleaving
  import Expiry = Lifetime

  /** sessionFor: the cookie first, then the address; an absent cookie is "". */
  function SessionFor(b: Book, now: int, cookie: string, clientIP: string): Option<Session> {
    if cookie != "" && Get(b, now, cookie).Some? then Get(b, now, cookie)
    else GetByClientIP(b, now, clientIP)
  }

  function Logout(b: Book, now: int, cookie: string, clientIP: string): Book {
    RevokeByClientIP(if cookie == "" then b else Revoke(b, now, cookie), now, clientIP)
  }

  /** After a logout the caller has no session, now or later, under either key, also
      when the cookie and the address belonged to two different sessions. The
      cookie's session is closed; so is the one at the address, unless the cookie's
      carried that address too. */
  lemma LogoutClearsBothViews(b: Book, now: int, cookie: string, clientIP: string, later: int)
    requires Agree(b, now) && now <= later
    ensures var b' := Logout(b, now, cookie, clientIP);
            && Agree(b', now)
            && SessionFor(b', later, cookie, clientIP).None?
            && (cookie != "" ==> Get(b', later, cookie).None?)
            && (GetByClientIP(b, now, clientIP).Some? ==>
                  Get(b', later, b.addresses[clientIP].value.token).None?
                  || (cookie != "" && Get(b, now, cookie).Some? && b.sessions[cookie].value.clientIP == clientIP))
  {
    var b1 := if cookie == "" then b else Revoke(b, now, cookie);
    if cookie != "" { RevokeAgrees(b, now, cookie); }
    RevokeByClientIPAgrees(b1, now, clientIP);
    Expiry.RevokeByClientIPCloses(b1, now, clientIP, later);
  }

  /** The session that the address led to can no longer be found by its token exactly
      when the cookie does not name another session for that address: revoking that
      other one unbinds the address before anything looks at what it led to. */
  lemma LogoutClosesTheAddressIff(b: Book, now: int, cookie: string, clientIP: string, s: Session)
    requires Agree(b, now) && GetByClientIP(b, now, clientIP) == Some(s)
    ensures Get(Logout(b, now, cookie, clientIP), now, s.token).None? <==>
            !(cookie != "" && cookie != s.token
              && Get(b, now, cookie).Some? && Get(b, now, cookie).value.clientIP == clientIP)
  {
  }

  /** Two people are given one address in turn, and the elder's browser logs out
      there: the younger's session survives, found by its token and not by address. */
  lemma {:induction false} LogoutLeavesTheYounger(ttl: Lifetime, elder: Session, younger: Session, t: string, u: string)
    requires elder.clientIP == younger.clientIP != "" && t != "" && t != u
    ensures var es := [History.Created(ttl, elder, t), History.Created(ttl, younger, u)];
            var d, s := History.Run(es, 2), Stamp(younger, u, 0, ttl);
            var b' := Logout(d.book, d.now, t, younger.clientIP);
            && GetByClientIP(d.book, d.now, younger.clientIP) == Some(s)
            && Get(b', d.now, t).None? && GetByClientIP(b', d.now, younger.clientIP).None?
            && Get(b', d.now, u) == Some(s)
  {
    var es := [History.Created(ttl, elder, t), History.Created(ttl, younger, u)];
    assert History.Run(es, 1) == History.Step(History.OPENING, es[0]);
    assert History.Run(es, 2) == History.Step(History.Run(es, 1), es[1]);
  }

  /** After any run of the server at all. */
  lemma {:induction false} LogoutInEveryRun(cfg: Config, ops: seq<Op>, n: nat, cookie: string, clientIP: string, later: int)
    requires DrawsDistinct(ops) && n <= |ops| && Run(cfg, ops, n).ks.now <= later
    ensures var ks := Run(cfg, ops, n).ks;
            SessionFor(Logout(ks.book, ks.now, cookie, clientIP), later, cookie, clientIP).None?
  {
    hide Run, SessionFor, Logout;
    BookAgrees(cfg, ops, n);
    LogoutClearsBothViews(Run(cfg, ops, n).ks.book, Run(cfg, ops, n).ks.now, cookie, clientIP, later);
  }

  /** The invariant is needed: on a book whose address leads to a session that is
      not stored under its token, the logout changes nothing. */
  lemma LogoutNeedsAgreement(s: Session, now: int)
    requires s.clientIP != "" && now <= s.expires
    ensures var b := Book(map[], map[s.clientIP := Entry(s, None)]);
            !Agree(b, now) && SessionFor(Logout(b, now, "", s.clientIP), now, "", s.clientIP) == Some(s)
  {
  }

  /** Operations that interleave can reach such a book: a logout then leaves whoever
      is at the address signed in there. */
  lemma {:induction false} LogoutAfterInterleaving()
    ensures var f := Interleaving.Run(Interleaving.REVIVAL, 7);
            && Interleaving.Consistent(f) && !Agree(f.book, f.now)
            && SessionFor(Logout(f.book, f.now, "", "10.8.0.6"), f.now, "", "10.8.0.6") == Some(Interleaving.YOUNGER)
  {
    hide Interleaving.Consistent, Interleaving.Run;
    Interleaving.UnreadRevokeIsNotFinal();
    Interleaving.RunConsistent(Interleaving.REVIVAL, 7);
    Interleaving.RevivalLapses();
  }

  /** AuthHandler: the portal in front of one service. */
  class AuthHandler {
    const auth: Service

    constructor (auth: Service)
      ensures this.auth == auth
    {
      this.auth := auth;
    }

    method CurrentSession(cookie: string, clientIP: string) returns (r: Option<Session>)
      requires auth.Valid()
      ensures r == SessionFor(auth.Keyspace().book, auth.rdb.now, cookie, clientIP)
    {
      hide View;
      if cookie != "" {
        var found := auth.FindSession(cookie);
        if found.Ok? { return Some(found.value); }
      }
      var bound := auth.SessionForClientIP(clientIP);
      return if bound.Ok? then Some(bound.value) else None;
    }

    method SignOut(cookie: string, clientIP: string)
      requires auth.Valid()
      modifies auth.rdb
      ensures auth.Valid() && auth.rdb.now == old(auth.rdb.now)
      ensures auth.Keyspace() ==
              old(auth.Keyspace()).(book := Logout(old(auth.Keyspace()).book, auth.rdb.now, cookie, clientIP))
    {
      hide View;
      if cookie != "" { auth.Logout(cookie); }
      auth.LogoutClientIP(clientIP);
    }
  }
}
