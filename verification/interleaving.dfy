/** The session store with every operation split into its reads and its
    transaction, and the pieces of different operations interleaved freely. */
module Interleaving {
  import opened Prelude
  import opened Cells
  import opened Sessions

  /** What an operation remembers between two of its pieces. */
  datatype Pending =
    | WillLook(token: string)
    | WillRevoke(token: string, seen: Option<Session>)
    | WillShorten(clientIP: string, token: string)
    | WillRestore(clientIP: string, token: string)

  datatype Action =
    | Advance(seconds: nat)
    /** The transaction of Create; the session was stamped earlier. */
    | CommitCreate(session: Session, ttl: Lifetime)
    /** The read of Revoke. */
    | ReadForRevoke(thread: nat, token: string)
    /** The read of RevokeByClientIP, and then that of the Revoke it calls. */
    | ReadForRevokeByClientIP(thread: nat, clientIP: string)
    | LookForRevoke(thread: nat)
    /** The read of Disconnected, and that of Reconnected. */
    | ReadForDisconnected(thread: nat, clientIP: string)
    | ReadForReconnected(thread: nat, clientIP: string)
    | CommitRevoke(thread: nat)
    | CommitDisconnected(thread: nat)
    /** The restored life was computed when the transaction was built. */
    | CommitReconnected(thread: nat, remaining: int)

  /** issued is not in the store: it remembers which session each token names. */
  datatype Floor = Floor(now: int, book: Book, pending: map<nat, Pending>, issued: map<string, Session>)

  const OPENING: Floor := Floor(0, Book(map[], map[]), map[], map[])

  function Act(f: Floor, a: Action): Floor {
    match a
    case Advance(seconds) => f.(now := f.now + seconds)
    case CommitCreate(s, ttl) =>
      f.(issued := f.issued[s.token := s],
         book := Book(Put(f.book.sessions, s.token, s, f.now, ttl),
                      if s.clientIP == "" then f.book.addresses
                      else Put(f.book.addresses, s.clientIP, s, f.now, ttl)))
    case ReadForRevoke(i, token) => f.(pending := f.pending[i := WillRevoke(token, Get(f.book, f.now, token))])
    case ReadForRevokeByClientIP(i, ip) =>
      (match GetByClientIP(f.book, f.now, ip)
       case None => f
       case Some(s) => f.(pending := f.pending[i := WillLook(s.token)]))
    case LookForRevoke(i) =>
      if i in f.pending && f.pending[i].WillLook? then
        var token := f.pending[i].token;
        f.(pending := f.pending[i := WillRevoke(token, Get(f.book, f.now, token))])
      else f
    case ReadForDisconnected(i, ip) =>
      (match GetByClientIP(f.book, f.now, ip)
       case None => f
       case Some(s) => f.(pending := f.pending[i := WillShorten(ip, s.token)]))
    case ReadForReconnected(i, ip) =>
      (match GetByClientIP(f.book, f.now, ip)
       case None => f
       case Some(s) => f.(pending := f.pending[i := WillRestore(ip, s.token)]))
    case CommitRevoke(i) =>
      if i in f.pending && f.pending[i].WillRevoke? then
        var p := f.pending[i];
        f.(pending := f.pending - {i},
           book := Book(Drop(f.book.sessions, p.token),
                        if p.seen.Some? && p.seen.value.clientIP != "" then Drop(f.book.addresses, p.seen.value.clientIP)
                        else f.book.addresses))
      else f
    case CommitDisconnected(i) =>
      if i in f.pending && f.pending[i].WillShorten? then
        var p := f.pending[i];
        f.(pending := f.pending - {i}, book := Retime(f.book, f.now, p.clientIP, p.token, DISCONNECT_GRACE))
      else f
    case CommitReconnected(i, remaining) =>
      if i in f.pending && f.pending[i].WillRestore? then
        var p := f.pending[i];
        f.(pending := f.pending - {i}, book := Retime(f.book, f.now, p.clientIP, p.token, remaining))
      else f
  }

  function Run(acts: seq<Action>, n: nat): Floor
    requires n <= |acts|
  {
    if n == 0 then OPENING else Act(Run(acts, n - 1), acts[n - 1])
  }

  // ---- uninterrupted, the pieces are the whole operations ----

  lemma WholeCreate(f: Floor, ttl: Lifetime, draft: Session, token: string)
    ensures Act(f, CommitCreate(Stamp(draft, token, f.now, ttl), ttl)).book == Create(f.book, f.now, ttl, draft, token)
  {
  }

  lemma WholeRevoke(f: Floor, i: nat, token: string)
    ensures Act(Act(f, ReadForRevoke(i, token)), CommitRevoke(i)).book == Revoke(f.book, f.now, token)
  {
  }

  lemma WholeRevokeByClientIP(f: Floor, i: nat, ip: string)
    requires i !in f.pending
    ensures Act(Act(Act(f, ReadForRevokeByClientIP(i, ip)), LookForRevoke(i)), CommitRevoke(i)).book ==
            RevokeByClientIP(f.book, f.now, ip)
  {
  }

  lemma WholeDisconnected(f: Floor, i: nat, ip: string)
    requires i !in f.pending
    ensures Act(Act(f, ReadForDisconnected(i, ip)), CommitDisconnected(i)).book == Disconnected(f.book, f.now, ip)
  {
  }

  lemma WholeReconnected(f: Floor, i: nat, ip: string)
    requires i !in f.pending
    ensures var found := GetByClientIP(f.book, f.now, ip);
            var remaining := if found.Some? then found.value.expires - f.now else 0;
            Act(Act(f, ReadForReconnected(i, ip)), CommitReconnected(i, remaining)).book == Reconnected(f.book, f.now, ip)
  {
  }

  /** No two sessions share a token. */
  ghost predicate TokensDistinct(acts: seq<Action>) {
    forall i, j :: 0 <= i < j < |acts| && acts[i].CommitCreate? && acts[j].CommitCreate? ==>
      acts[i].session.token != acts[j].session.token
  }

  /** Every copy of a session, in the store or remembered by an operation, is the
      one its token was issued for, filed under its own token or address. */
  ghost predicate Consistent(f: Floor) {
    && (forall t :: t in f.issued ==> f.issued[t].token == t)
    && (forall t :: t in f.book.sessions ==> t in f.issued && f.book.sessions[t].value == f.issued[t])
    && (forall ip :: ip in f.book.addresses ==>
          var s := f.book.addresses[ip].value;
          s.clientIP == ip && ip != "" && s.token in f.issued && s == f.issued[s.token])
    && (forall i :: i in f.pending && f.pending[i].WillRevoke? && f.pending[i].seen.Some? ==>
          var p := f.pending[i]; p.token in f.issued && p.seen.value == f.issued[p.token])
  }

  /** Apart from the transaction of Create, nothing adds an entry to the store,
      changes the session in one, or makes one readable. */
  ghost predicate AddsNothing(f: Floor, f': Floor) {
    && (forall t :: t in f'.book.sessions ==> t in f.book.sessions && f'.book.sessions[t].value == f.book.sessions[t].value)
    && (forall ip :: ip in f'.book.addresses ==>
          ip in f.book.addresses && f'.book.addresses[ip].value == f.book.addresses[ip].value)
    && (forall ip :: GetByClientIP(f'.book, f'.now, ip).Some? ==> GetByClientIP(f.book, f.now, ip).Some?)
  }

  lemma ActAddsNothing(f: Floor, a: Action)
    requires !a.CommitCreate?
    ensures AddsNothing(f, Act(f, a))
  {
  }

  /** What an operation remembers of a revocation is what it read. */
  lemma ActRemembers(f: Floor, a: Action, i: nat)
    requires i in Act(f, a).pending && Act(f, a).pending[i].WillRevoke?
    ensures var p := Act(f, a).pending[i];
            (i in f.pending && f.pending[i] == p) || p.seen == Get(f.book, f.now, p.token)
  {
  }

  lemma CreateConsistent(f: Floor, a: Action)
    requires Consistent(f) && a.CommitCreate? && a.session.token !in f.issued
    ensures Consistent(Act(f, a))
  {
  }

  lemma ActConsistent(f: Floor, a: Action)
    requires Consistent(f) && (a.CommitCreate? ==> a.session.token !in f.issued)
    ensures Consistent(Act(f, a))
  {
    if a.CommitCreate? {
      CreateConsistent(f, a);
    } else {
      hide Act;
      ActIssues(f, a);
      ActAddsNothing(f, a);
      var f' := Act(f, a);
      forall i | i in f'.pending && f'.pending[i].WillRevoke? && f'.pending[i].seen.Some?
        ensures f'.pending[i].token in f'.issued && f'.pending[i].seen.value == f'.issued[f'.pending[i].token]
      {
        ActRemembers(f, a, i);
      }
    }
  }

  lemma ActIssues(f: Floor, a: Action)
    ensures Act(f, a).issued == if a.CommitCreate? then f.issued[a.session.token := a.session] else f.issued
  {
  }

  /** Only the transaction of Create issues a token. */
  lemma {:induction false} RunConsistent(acts: seq<Action>, n: nat)
    requires n <= |acts| && TokensDistinct(acts)
    ensures Consistent(Run(acts, n))
    ensures forall t :: t in Run(acts, n).issued <==>
              exists i :: 0 <= i < n && acts[i].CommitCreate? && acts[i].session.token == t
  {
    if n > 0 {
      hide Consistent, Act;
      RunConsistent(acts, n - 1);
      var f, a := Run(acts, n - 1), acts[n - 1];
      assert a.CommitCreate? ==> a.session.token !in f.issued;
      ActConsistent(f, a);
      ActIssues(f, a);
      if a.CommitCreate? {
        forall t | t in Run(acts, n).issued
          ensures exists i :: 0 <= i < n && acts[i].CommitCreate? && acts[i].session.token == t
        {
          if t in f.issued {
            var i :| 0 <= i < n - 1 && acts[i].CommitCreate? && acts[i].session.token == t;
            assert acts[i].CommitCreate?;
          } else {
            assert acts[n - 1].session.token == t;
          }
        }
      } else {
        assert Run(acts, n).issued == f.issued;
      }
    }
  }

  // ---- what a revocation leaves ----

  /** The token was issued, and no entry of the store carries it any more. */
  ghost predicate Gone(f: Floor, token: string) {
    && token in f.issued
    && token !in f.book.sessions
    && forall ip :: ip in f.book.addresses ==> f.book.addresses[ip].value.token != token
  }

  /** Some address leads to the token. */
  ghost predicate LeadsTo(f: Floor, token: string) {
    exists ip :: GetByClientIP(f.book, f.now, ip).Some? && GetByClientIP(f.book, f.now, ip).value.token == token
  }

  /** Some lookup, by a token or by an address, returns the token. */
  ghost predicate Returned(f: Floor, token: string) {
    LeadsTo(f, token) || exists key :: Get(f.book, f.now, key).Some? && Get(f.book, f.now, key).value.token == token
  }

  /** The token was issued and is not on file, and no address leads to it. */
  ghost predicate Closed(f: Floor, token: string) {
    token in f.issued && token !in f.book.sessions && !LeadsTo(f, token)
  }

  lemma GoneStays(f: Floor, a: Action, token: string)
    requires Consistent(f) && Gone(f, token) && !(a.CommitCreate? && a.session.token == token)
    ensures Gone(Act(f, a), token)
  {
    if !a.CommitCreate? {
      hide Act;
      ActIssues(f, a);
      ActAddsNothing(f, a);
    }
  }

  /** An address entry that cannot be read is never read again, whatever operations
      in flight do to its deadline. */
  lemma ClosedStays(f: Floor, a: Action, token: string)
    requires Consistent(f) && Closed(f, token) && !(a.CommitCreate? && a.session.token == token)
    ensures Closed(Act(f, a), token)
  {
    var f' := Act(f, a);
    if a.CommitCreate? {
      forall ip | GetByClientIP(f'.book, f'.now, ip).Some? ensures GetByClientIP(f'.book, f'.now, ip).value.token != token {
        assert ip != a.session.clientIP ==> GetByClientIP(f'.book, f'.now, ip) == GetByClientIP(f.book, f.now, ip);
      }
    } else {
      hide Act;
      ActIssues(f, a);
      ActAddsNothing(f, a);
      forall ip | GetByClientIP(f'.book, f'.now, ip).Some? ensures GetByClientIP(f'.book, f'.now, ip).value.token != token {
        assert GetByClientIP(f'.book, f'.now, ip) == GetByClientIP(f.book, f.now, ip);
      }
    }
  }

  lemma ClosedIsNotReturned(f: Floor, token: string)
    requires Consistent(f) && Closed(f, token)
    ensures !Returned(f, token)
  {
  }

  /** Step k is the transaction of a revocation of this token. */
  predicate CommitsRevoke(acts: seq<Action>, k: nat, token: string)
    requires k < |acts|
  {
    && acts[k].CommitRevoke?
    && var f, i := Run(acts, k), acts[k].thread;
       i in f.pending && f.pending[i].WillRevoke? && f.pending[i].token == token
  }

  /** The transaction of a revocation leaves no entry of its token exactly when the
      session had been read, or no address carried the token anyway. */
  lemma CommitRevokeGoneIff(f: Floor, i: nat)
    requires Consistent(f) && i in f.pending && f.pending[i].WillRevoke? && f.pending[i].token in f.issued
    ensures var token := f.pending[i].token;
            Gone(Act(f, CommitRevoke(i)), token) <==>
              || f.pending[i].seen.Some?
              || forall ip :: ip in f.book.addresses ==> f.book.addresses[ip].value.token != token
  {
    if f.pending[i].seen.None? { assert Act(f, CommitRevoke(i)).book.addresses == f.book.addresses; }
  }

  lemma CommitRevokeClosedIff(f: Floor, i: nat)
    requires Consistent(f) && i in f.pending && f.pending[i].WillRevoke? && f.pending[i].token in f.issued
    ensures var token, f' := f.pending[i].token, Act(f, CommitRevoke(i));
            && (Closed(f', token) <==> f.pending[i].seen.Some? || !LeadsTo(f, token))
            && (!Closed(f', token) ==> Returned(f', token))
  {
    var token, f' := f.pending[i].token, Act(f, CommitRevoke(i));
    CommitRevokeGoneIff(f, i);
    if f.pending[i].seen.None? {
      assert f'.book.addresses == f.book.addresses;
      assert LeadsTo(f', token) <==> LeadsTo(f, token) by {
        assert forall ip :: GetByClientIP(f'.book, f'.now, ip) == GetByClientIP(f.book, f.now, ip);
      }
    }
  }

  lemma {:induction false} ClosedForGood(acts: seq<Action>, m: nat, n: nat, token: string)
    requires TokensDistinct(acts) && m <= n <= |acts| && Closed(Run(acts, m), token)
    ensures Closed(Run(acts, n), token)
    decreases n
  {
    if m < n {
      hide Act, Consistent;
      ClosedForGood(acts, m, n - 1, token);
      RunConsistent(acts, n - 1);
      var i :| 0 <= i < n - 1 && acts[i].CommitCreate? && acts[i].session.token == token;
      ClosedStays(Run(acts, n - 1), acts[n - 1], token);
    }
  }

  /** Revocation is final: once the transaction of a Revoke that had read the
      session is in, no entry carries the token, and no later lookup returns it. */
  lemma {:induction false} RevocationIsFinal(acts: seq<Action>, k: nat, n: nat, token: string)
    requires TokensDistinct(acts) && k < n <= |acts| && CommitsRevoke(acts, k, token)
    requires Run(acts, k).pending[acts[k].thread].seen.Some?
    ensures Gone(Run(acts, n), token) && !Returned(Run(acts, n), token)
    decreases n
  {
    hide Act, Consistent, LeadsTo, Returned;
    RunConsistent(acts, n - 1);
    if n == k + 1 {
      SeenIsIssued(Run(acts, k), acts[k].thread);
      CommitRevokeGoneIff(Run(acts, k), acts[k].thread);
    } else {
      RevocationIsFinal(acts, k, n - 1, token);
      var i :| 0 <= i < n - 1 && acts[i].CommitCreate? && acts[i].session.token == token;
      GoneStays(Run(acts, n - 1), acts[n - 1], token);
    }
    RunConsistent(acts, n);
    GoneIsClosed(Run(acts, n), token);
    ClosedIsNotReturned(Run(acts, n), token);
  }

  lemma SeenIsIssued(f: Floor, i: nat)
    requires Consistent(f) && i in f.pending && f.pending[i].WillRevoke? && f.pending[i].seen.Some?
    ensures f.pending[i].token in f.issued
  {
  }

  lemma GoneIsClosed(f: Floor, token: string)
    requires Gone(f, token)
    ensures Closed(f, token)
  {
  }

  /** Exactly when a revocation is final, in a run interleaved at will: no lookup
      after its transaction returns the token, exactly when it had read the session
      or no address led to the token at that moment. */
  lemma {:induction false} RevocationIsFinalIff(acts: seq<Action>, k: nat, token: string)
    requires TokensDistinct(acts) && k < |acts| && CommitsRevoke(acts, k, token) && token in Run(acts, k).issued
    ensures (forall n :: k < n <= |acts| ==> !Returned(Run(acts, n), token)) <==>
            Run(acts, k).pending[acts[k].thread].seen.Some? || !LeadsTo(Run(acts, k), token)
  {
    hide Act, Consistent, LeadsTo, Returned, Closed;
    RunConsistent(acts, k);
    CommitRevokeClosedIff(Run(acts, k), acts[k].thread);
    assert acts[k] == CommitRevoke(acts[k].thread);
    assert Run(acts, k + 1) == Act(Run(acts, k), acts[k]);
    if !Closed(Run(acts, k + 1), token) { assert Returned(Run(acts, k + 1), token); }
    if Closed(Run(acts, k + 1), token) {
      forall n | k < n <= |acts| ensures !Returned(Run(acts, n), token) {
        ClosedForGood(acts, k + 1, n, token);
        RunConsistent(acts, n);
        ClosedIsNotReturned(Run(acts, n), token);
      }
    }
  }

  // ---- why the Revoke must have read the session ----

  const ELDER: Session := Session("elder", 1, "e@x.org", "otp", [], "10.8.0.6", 0, 28800)
  const YOUNGER: Session := Session("younger", 2, "y@x.org", "otp", [], "10.8.0.6", 0, 28800)

  /** A reconnect that read the elder session commits after a younger one took
      the address and was disconnected: it revives the address entry alone. */
  const REVIVAL: seq<Action> := [
    CommitCreate(ELDER, 28800), ReadForReconnected(0, "10.8.0.6"), CommitCreate(YOUNGER, 28800),
    ReadForDisconnected(1, "10.8.0.6"), CommitDisconnected(1), CommitReconnected(0, 28800),
    Advance(DISCONNECT_GRACE), ReadForRevoke(2, "younger"), CommitRevoke(2)]

  /** The younger session takes the address over from the elder. */
  lemma RevivalTakesOver()
    ensures var f := Run(REVIVAL, 3);
            && f.now == 0 && f.pending == map[0 := WillRestore("10.8.0.6", "elder")]
            && f.book.addresses == map["10.8.0.6" := Entry(YOUNGER, Some(28800))]
            && f.book.sessions == map["elder" := Entry(ELDER, Some(28800)), "younger" := Entry(YOUNGER, Some(28800))]
  {
    assert Run(REVIVAL, 1) == Act(OPENING, REVIVAL[0]);
    assert Run(REVIVAL, 2) == Act(Run(REVIVAL, 1), REVIVAL[1]);
    assert Run(REVIVAL, 3) == Act(Run(REVIVAL, 2), REVIVAL[2]);
  }

  /** Half way, it is at the address for its full life and on file for the grace
      period only. */
  lemma RevivalPartsTheKeys()
    ensures var f := Run(REVIVAL, 6);
            && f.now == 0
            && f.book.addresses == map["10.8.0.6" := Entry(YOUNGER, Some(28800))]
            && "younger" in f.book.sessions && f.book.sessions["younger"] == Entry(YOUNGER, Some(DISCONNECT_GRACE))
  {
    RevivalTakesOver();
    assert Run(REVIVAL, 4) == Act(Run(REVIVAL, 3), REVIVAL[3]);
    assert Run(REVIVAL, 5) == Act(Run(REVIVAL, 4), REVIVAL[4]);
    assert Run(REVIVAL, 6) == Act(Run(REVIVAL, 5), REVIVAL[5]);
  }

  /** A grace period later only the address can be read. */
  lemma RevivalLapses()
    ensures var f := Run(REVIVAL, 7);
            && f.now == DISCONNECT_GRACE && GetByClientIP(f.book, f.now, "10.8.0.6") == Some(YOUNGER)
            && "younger" in f.book.sessions && f.book.sessions["younger"] == Entry(YOUNGER, Some(DISCONNECT_GRACE))
  {
    RevivalPartsTheKeys();
    assert Run(REVIVAL, 7) == Act(Run(REVIVAL, 6), REVIVAL[6]);
  }

  /** Interleaved, the two keys of a session can part company, and then a Revoke
      that finds nothing under the token leaves the address open: the final Revoke
      of this run read no session, and its token is still found by address. */
  lemma UnreadRevokeIsNotFinal()
    ensures TokensDistinct(REVIVAL)
    ensures Run(REVIVAL, 8).pending[2] == WillRevoke("younger", None)
    ensures var f := Run(REVIVAL, 9); GetByClientIP(f.book, f.now, "10.8.0.6") == Some(YOUNGER)
  {
    RevivalPartsTheKeys();
    assert Run(REVIVAL, 7) == Act(Run(REVIVAL, 6), REVIVAL[6]);
    assert Run(REVIVAL, 8) == Act(Run(REVIVAL, 7), REVIVAL[7]);
    assert Run(REVIVAL, 9) == Act(Run(REVIVAL, 8), REVIVAL[8]);
  }
}
