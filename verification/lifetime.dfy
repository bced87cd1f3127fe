/** How long a session can be read, and what a revocation leaves behind. */
module Lifetime {
  import opened Prelude
  import opened Cells
  import opened Sessions
  import opened SessionHistory

  /** A disconnect at t with nothing after it: both lookups return the session
      exactly until the grace period or the session itself is over. */
  lemma ReadableAfterDisconnect(b: Book, t: int, ip: string, s: Session, later: int)
    requires Agree(b, t) && GetByClientIP(b, t, ip) == Some(s) && t <= later
    ensures var b' := Disconnected(b, t, ip);
            var expected := if later < t + 2 * 60 && later <= s.expires then Some(s) else None;
            GetByClientIP(b', later, ip) == expected && Get(b', later, s.token) == expected
  {
  }

  /** "A disconnect shortens the session" holds exactly when at least the grace
      period was left; otherwise it moves the deadline out. */
  lemma DisconnectShortensIff(b: Book, t: int, ip: string)
    requires Agree(b, t) && GetByClientIP(b, t, ip).Some?
    ensures var token, b' := b.addresses[ip].value.token, Disconnected(b, t, ip);
            && Ttl(b'.addresses, ip, t) == Ttl(b'.sessions, token, t) == DISCONNECT_GRACE
            && (Ttl(b'.addresses, ip, t) <= Ttl(b.addresses, ip, t) <==> DISCONNECT_GRACE <= Ttl(b.addresses, ip, t))
  {
  }

  /** A session with ten seconds to live is given a deadline beyond its own expiry. */
  lemma DisconnectCanOutliveTheSession(draft: Session)
    requires draft.clientIP != ""
    ensures var b := Create(OPENING.book, 0, 10, draft, "t");
            var b' := Disconnected(b, 0, draft.clientIP);
            && Agree(b, 0) && GetByClientIP(b, 0, draft.clientIP).Some?
            && b'.addresses[draft.clientIP].deadline == Some(DISCONNECT_GRACE)
            && b'.addresses[draft.clientIP].value.expires == 10
  {
  }

  /** Whatever disconnects and reconnects a run contains, neither lookup returns a
      session after the expiry it was issued with. */
  lemma {:induction false} NeverReadPastExpiry(es: seq<Event>, n: nat, key: string, s: Session)
    requires TokensDistinct(es) && n <= |es|
    requires GetByClientIP(Run(es, n).book, Now(es, n), key) == Some(s) || Get(Run(es, n).book, Now(es, n), key) == Some(s)
    ensures exists i :: 0 <= i < n && es[i].Created? && s == Issued(es, i) && Now(es, n) <= Now(es, i) + es[i].ttl
  {
    if GetByClientIP(Run(es, n).book, Now(es, n), key) == Some(s) {
      LookupByAddress(es, n, key, s);
      var i :| 0 <= i < n && Standing(es, i, n, key) && s == Issued(es, i);
      assert Now(es, n) <= Now(es, i) + es[i].ttl;
    } else {
      LookupByToken(es, n, key, s);
      var i :| 0 <= i < n && TokenStanding(es, i, n) && s == Issued(es, i) && s.token == key;
      assert Now(es, n) <= Now(es, i) + es[i].ttl;
    }
  }

  /** One spell on the tunnel followed by one off it. */
  datatype Trip = Trip(connected: nat, away: nat)

  function Travel(d: Desk, ip: string, trip: Trip): Desk {
    var left := Step(Step(d, Advance(trip.connected)), WentAway(ip));
    Step(Step(left, Advance(trip.away)), CameBack(ip))
  }

  function Commute(d: Desk, ip: string, trips: seq<Trip>): Desk
    decreases |trips|
  {
    if trips == [] then d else Commute(Travel(d, ip, trips[0]), ip, trips[1..])
  }

  /** The session s is bound to the address with its whole life ahead of it. */
  ghost predicate FullLife(d: Desk, ip: string, s: Session) {
    && Agree(d.book, d.now)
    && GetByClientIP(d.book, d.now, ip) == Some(s)
    && Get(d.book, d.now, s.token) == Some(s)
    && d.book.addresses[ip].deadline == d.book.sessions[s.token].deadline == Some(s.expires)
  }

  lemma {:induction false} CommuteTakesTime(d: Desk, ip: string, trips: seq<Trip>)
    ensures d.now <= Commute(d, ip, trips).now
    decreases |trips|
  {
    if trips != [] { CommuteTakesTime(Travel(d, ip, trips[0]), ip, trips[1..]); }
  }

  lemma TravelAgrees(d: Desk, ip: string, trip: Trip)
    requires Agree(d.book, d.now)
    ensures Agree(Travel(d, ip, trip).book, Travel(d, ip, trip).now)
  {
    hide Agree, Step;
    var d1 := Step(d, Advance(trip.connected));
    var d2 := Step(d1, WentAway(ip));
    var d3 := Step(d2, Advance(trip.away));
    StepAgrees(d, Advance(trip.connected));
    StepAgrees(d1, WentAway(ip));
    StepAgrees(d2, Advance(trip.away));
    StepAgrees(d3, CameBack(ip));
  }

  lemma TravelRestores(d: Desk, ip: string, s: Session, trip: Trip)
    requires FullLife(d, ip, s) && Travel(d, ip, trip).now < s.expires
    ensures trip.away < DISCONNECT_GRACE ==> FullLife(Travel(d, ip, trip), ip, s)
    ensures DISCONNECT_GRACE <= trip.away ==> GetByClientIP(Travel(d, ip, trip).book, Travel(d, ip, trip).now, ip).None?
  {
    TravelAgrees(d, ip, trip);
  }

  lemma {:induction false} LostIsLost(d: Desk, ip: string, trips: seq<Trip>)
    requires GetByClientIP(d.book, d.now, ip).None?
    ensures GetByClientIP(Commute(d, ip, trips).book, Commute(d, ip, trips).now, ip).None?
    decreases |trips|
  {
    if trips != [] { LostIsLost(Travel(d, ip, trips[0]), ip, trips[1..]); }
  }

  /** Any chain of disconnects and reconnects that ends before the session's
      expiry restores that expiry in full exactly when every gap was shorter than
      the grace period; after a longer gap the session cannot be read at all. */
  lemma {:induction false} CommuteRestoresIff(d: Desk, ip: string, s: Session, trips: seq<Trip>)
    requires FullLife(d, ip, s) && Commute(d, ip, trips).now < s.expires
    ensures FullLife(Commute(d, ip, trips), ip, s) <==> forall trip :: trip in trips ==> trip.away < 2 * 60
    ensures FullLife(Commute(d, ip, trips), ip, s) <==>
            GetByClientIP(Commute(d, ip, trips).book, Commute(d, ip, trips).now, ip).Some?
    decreases |trips|
  {
    if trips != [] {
      var d', rest := Travel(d, ip, trips[0]), trips[1..];
      CommuteTakesTime(d', ip, rest);
      TravelRestores(d, ip, s, trips[0]);
      assert trips == [trips[0]] + rest;
      if trips[0].away < DISCONNECT_GRACE {
        CommuteRestoresIff(d', ip, s, rest);
      } else {
        LostIsLost(d', ip, rest);
        assert trips[0] in trips;
      }
    }
  }

  // ---- revocation ----

  /** Everything a revocation of a readable session touches and everything it
      does not. The alias it removes may already lead to a newer session: that
      one loses its address and keeps its token. */
  lemma RevokeFrame(b: Book, now: int, s: Session, later: int)
    requires Agree(b, now) && Get(b, now, s.token) == Some(s) && now <= later
    ensures var b' := Revoke(b, now, s.token);
            && Get(b', later, s.token).None? && GetByClientIP(b', later, s.clientIP).None?
            && (forall t :: t != s.token ==> Get(b', later, t) == Get(b, later, t))
            && (forall ip :: ip != s.clientIP ==> GetByClientIP(b', later, ip) == GetByClientIP(b, later, ip))
  {
  }

  /** "Revoke removes a session": no other session loses a lookup by address exactly
      when the address of the revoked one leads nowhere or to that very session. */
  lemma RevokeSparesOthersIff(b: Book, now: int, s: Session)
    requires Agree(b, now) && Get(b, now, s.token) == Some(s)
    ensures (forall ip, other :: GetByClientIP(b, now, ip) == Some(other) && other != s ==>
               GetByClientIP(Revoke(b, now, s.token), now, ip) == Some(other))
            <==> GetByClientIP(b, now, s.clientIP).None? || GetByClientIP(b, now, s.clientIP) == Some(s)
  {
  }

  /** Two people are given one address in turn. Signing the elder out takes the
      younger's address away, and leaves the younger's token. */
  lemma {:induction false} RevokingTheElderUnbindsTheYounger(ttl: Lifetime, elder: Session, younger: Session, t: string, u: string)
    requires elder.clientIP == younger.clientIP != "" && t != u
    ensures var es := [Created(ttl, elder, t), Created(ttl, younger, u), Revoked(t)];
            var d, d', s := Run(es, 2), Run(es, 3), Stamp(younger, u, 0, ttl);
            && TokensDistinct(es)
            && GetByClientIP(d.book, d.now, younger.clientIP) == Some(s)
            && GetByClientIP(d'.book, d'.now, younger.clientIP).None?
            && Get(d'.book, d'.now, u) == Some(s)
  {
    var es := [Created(ttl, elder, t), Created(ttl, younger, u), Revoked(t)];
    assert Run(es, 1) == Step(OPENING, es[0]);
    assert Run(es, 2) == Step(Run(es, 1), es[1]);
    assert Run(es, 3) == Step(Run(es, 2), es[2]);
  }

  /** Revocation by address needs the cross-key invariant; with it, the address
      and the token it led to are both closed for good. */
  lemma RevokeByClientIPCloses(b: Book, now: int, ip: string, later: int)
    requires Agree(b, now) && now <= later
    ensures var b' := RevokeByClientIP(b, now, ip);
            && GetByClientIP(b', later, ip).None?
            && (GetByClientIP(b, now, ip).Some? ==> Get(b', later, b.addresses[ip].value.token).None?)
  {
  }

  /** On any book at all, revocation by address closes the address exactly when
      there was nothing to close or the session it leads to can be read by its
      token and names that address. */
  lemma RevokeByClientIPClosesIff(b: Book, now: int, ip: string)
    ensures GetByClientIP(RevokeByClientIP(b, now, ip), now, ip).None? <==>
            || GetByClientIP(b, now, ip).None?
            || (var stored := Get(b, now, b.addresses[ip].value.token);
                ip != "" && stored.Some? && stored.value.clientIP == ip)
  {
  }
}
