/** What the session store answers, told from the history of its calls alone. */
module SessionHistory {
  import opened Prelude
  import opened Cells
  import opened Sessions

  datatype Event =
    | Advance(seconds: nat)
    | Created(ttl: Lifetime, draft: Session, token: string)
    | Revoked(token: string)
    | RevokedAt(clientIP: string)
    | WentAway(clientIP: string)
    | CameBack(clientIP: string)

  datatype Desk = Desk(now: int, book: Book)

  const OPENING: Desk := Desk(0, Book(map[], map[]))

  function Step(d: Desk, e: Event): Desk {
    match e
    case Advance(seconds) => d.(now := d.now + seconds)
    case Created(ttl, draft, token) => d.(book := Create(d.book, d.now, ttl, draft, token))
    case Revoked(token) => d.(book := Revoke(d.book, d.now, token))
    case RevokedAt(ip) => d.(book := RevokeByClientIP(d.book, d.now, ip))
    case WentAway(ip) => d.(book := Disconnected(d.book, d.now, ip))
    case CameBack(ip) => d.(book := Reconnected(d.book, d.now, ip))
  }

  /** The desk after the first n events. */
  function Run(es: seq<Event>, n: nat): Desk
    requires n <= |es|
  {
    if n == 0 then OPENING else Step(Run(es, n - 1), es[n - 1])
  }

  /** The clock, told from the events; the desk shows the same. */
  function Now(es: seq<Event>, n: nat): (t: int)
    requires n <= |es|
    ensures t == Run(es, n).now
  {
    if n == 0 then 0 else Now(es, n - 1) + (if es[n - 1].Advance? then es[n - 1].seconds else 0)
  }

  /** Tokens are 256 random bits: no two sessions share one. */
  ghost predicate TokensDistinct(es: seq<Event>) {
    forall i, j :: 0 <= i < j < |es| && es[i].Created? && es[j].Created? ==> es[i].token != es[j].token
  }

  // ---- the history side, with no store in sight ----

  predicate CreatesAt(e: Event, clientIP: string) {
    e.Created? && e.draft.clientIP == clientIP
  }

  /** The session that event i issued. */
  function Issued(es: seq<Event>, i: nat): Session
    requires i < |es| && es[i].Created?
  {
    Stamp(es[i].draft, es[i].token, Now(es, i), es[i].ttl)
  }

  /** When the session issued by event i at an address is due to lapse there, as of
      the first n events: its full life, cut to the grace period by a disconnect and
      restored by a reconnect. */
  function Due(es: seq<Event>, i: nat, n: nat, clientIP: string): int
    requires i < n <= |es| && es[i].Created?
    decreases n
  {
    if n == i + 1 then Issued(es, i).expires
    else if es[n - 1] == WentAway(clientIP) then Now(es, n - 1) + 2 * 60
    else if es[n - 1] == CameBack(clientIP) then Issued(es, i).expires
    else Due(es, i, n - 1, clientIP)
  }

  /** At some moment since event i the session's time had run out at its address. */
  ghost predicate Lapsed(es: seq<Event>, i: nat, n: nat, clientIP: string)
    requires i < n <= |es| && es[i].Created?
  {
    exists k :: i < k <= n && (Due(es, i, k, clientIP) <= Now(es, k) || Issued(es, i).expires < Now(es, k))
  }

  /** Event i issued the latest session for this address, nothing since has
      revoked a readable session carrying the address, and it has not lapsed. */
  ghost predicate Standing(es: seq<Event>, i: nat, n: nat, clientIP: string): (stands: bool)
    requires n <= |es|
    ensures stands ==> i < n && clientIP != "" && es[i].Created? && CreatesAt(es[i], clientIP)
    decreases n, 3
  {
    && i < n && clientIP != "" && CreatesAt(es[i], clientIP)
    && (forall j :: i < j < n ==> !CreatesAt(es[j], clientIP))
    && (forall j :: i < j < n ==> !Severs(es, j, clientIP))
    && !Lapsed(es, i, n, clientIP)
  }

  /** Event j revokes a readable session that carries this address. */
  ghost predicate Severs(es: seq<Event>, j: nat, clientIP: string)
    requires j < |es|
    decreases j, 5
  {
    exists k :: 0 <= k < j && CreatesAt(es[k], clientIP) && TokenStanding(es, k, j) && Revokes(es, k, j)
  }

  /** Event j names the session issued by event i, by its token or by an address it
      stands at, for revocation. */
  ghost predicate Revokes(es: seq<Event>, i: nat, j: nat)
    requires i < j < |es| && es[i].Created?
    decreases j, 4
  {
    match es[j]
    case Revoked(token) => token == es[i].token
    case RevokedAt(ip) => Standing(es, i, j, ip)
    case _ => false
  }

  /** As Due, for the key that carries the token: a disconnect or a reconnect moves
      it while the session stands at the address. */
  ghost function TokenDue(es: seq<Event>, i: nat, n: nat): int
    requires i < n <= |es| && es[i].Created?
    decreases n, 1
  {
    if n == i + 1 then Issued(es, i).expires
    else
      match es[n - 1]
      case WentAway(ip) =>
        if Standing(es, i, n - 1, ip) then Now(es, n - 1) + 2 * 60 else TokenDue(es, i, n - 1)
      case CameBack(ip) =>
        if Standing(es, i, n - 1, ip) then Issued(es, i).expires else TokenDue(es, i, n - 1)
      case _ => TokenDue(es, i, n - 1)
  }

  ghost predicate TokenLapsed(es: seq<Event>, i: nat, n: nat)
    requires i < n <= |es| && es[i].Created?
    decreases n, 2
  {
    exists k :: i < k <= n && (TokenDue(es, i, k) <= Now(es, k) || Issued(es, i).expires < Now(es, k))
  }

  /** The session issued by event i has neither been revoked nor lapsed. */
  ghost predicate TokenStanding(es: seq<Event>, i: nat, n: nat): (stands: bool)
    requires n <= |es|
    ensures stands ==> i < n && es[i].Created?
    decreases n, 3
  {
    && i < n && es[i].Created?
    && (forall j :: i < j < n ==> !Revokes(es, i, j))
    && !TokenLapsed(es, i, n)
  }

  // ---- the invariant of every run ----

  /** Tokens on file were issued by an earlier event. */
  ghost predicate TokensIssued(es: seq<Event>, n: nat)
    requires n <= |es|
  {
    forall t :: t in Run(es, n).book.sessions ==> exists i :: 0 <= i < n && es[i].Created? && es[i].token == t
  }

  lemma StepAgrees(d: Desk, e: Event)
    requires Agree(d.book, d.now) && (e.Created? ==> e.token !in d.book.sessions)
    ensures Agree(Step(d, e).book, Step(d, e).now)
  {
    hide Agree;
    match e {
      case Advance(seconds) => AgreeAdvances(d.book, d.now, d.now + seconds);
      case Created(ttl, draft, token) => CreateAgrees(d.book, d.now, ttl, draft, token);
      case Revoked(token) => RevokeAgrees(d.book, d.now, token);
      case RevokedAt(ip) => RevokeByClientIPAgrees(d.book, d.now, ip);
      case WentAway(ip) =>
        if GetByClientIP(d.book, d.now, ip).Some? { RetimeAgrees(d.book, d.now, ip, DISCONNECT_GRACE); }
      case CameBack(ip) =>
        if GetByClientIP(d.book, d.now, ip).Some? {
          RetimeAgrees(d.book, d.now, ip, d.book.addresses[ip].value.expires - d.now);
        }
    }
  }

  /** Only a Created event puts a new token on file. */
  lemma StepIssues(d: Desk, e: Event, t: string)
    requires t in Step(d, e).book.sessions
    ensures t in d.book.sessions || (e.Created? && e.token == t)
  {
  }

  lemma {:induction false} RunAgrees(es: seq<Event>, n: nat)
    requires n <= |es| && TokensDistinct(es)
    ensures Agree(Run(es, n).book, Run(es, n).now)
    ensures TokensIssued(es, n)
  {
    if n == 0 {
    } else {
      RunAgrees(es, n - 1);
      var d, e := Run(es, n - 1), es[n - 1];
      assert Run(es, n) == Step(d, e);
      hide Agree, Step, Run;
      assert e.Created? ==> e.token !in d.book.sessions;
      StepAgrees(d, e);
      forall t | t in Step(d, e).book.sessions
        ensures exists i :: 0 <= i < n && es[i].Created? && es[i].token == t
      {
        StepIssues(d, e, t);
        if t in d.book.sessions {
          var i :| 0 <= i < n - 1 && es[i].Created? && es[i].token == t;
          assert es[i].Created?;
        } else {
          assert es[n - 1].Created? && es[n - 1].token == t;
        }
      }
    }
  }

  lemma {:induction false} TimeIsMonotone(es: seq<Event>, m: nat, n: nat)
    requires m <= n <= |es|
    ensures Now(es, m) <= Now(es, n)
    decreases n
  {
    if m < n { TimeIsMonotone(es, m, n - 1); }
  }

  // ---- one event, seen by one key ----

  /** The readable session that an event revokes, if there is one. */
  function RevokedBy(d: Desk, e: Event): Option<Session> {
    match e
    case Revoked(token) => Get(d.book, d.now, token)
    case RevokedAt(ip) => GetByClientIP(d.book, d.now, ip)
    case _ => None
  }

  /** The address a disconnect or a reconnect is about. */
  predicate Moves(d: Desk, e: Event, s: Session) {
    (e.WentAway? || e.CameBack?) && GetByClientIP(d.book, d.now, e.clientIP) == Some(s)
  }

  /** The deadline after such an event. */
  function Moved(d: Desk, e: Event, s: Session): int {
    if e.WentAway? then d.now + DISCONNECT_GRACE else s.expires
  }

  /** A readable entry of an address, after one event that issues nothing there. */
  lemma EntryStep(d: Desk, e: Event, ip: string, s: Session, due: int)
    requires Agree(d.book, d.now) && !CreatesAt(e, ip)
    requires GetByClientIP(d.book, d.now, ip) == Some(s) && d.book.addresses[ip] == Entry(s, Some(due))
    ensures var d' := Step(d, e);
            var due' := if (e.WentAway? || e.CameBack?) && e.clientIP == ip then Moved(d, e, s) else due;
            var severed := RevokedBy(d, e).Some? && RevokedBy(d, e).value.clientIP == ip;
            && (GetByClientIP(d'.book, d'.now, ip).Some? <==> !severed && d'.now < due' && d'.now <= s.expires)
            && (GetByClientIP(d'.book, d'.now, ip).Some? ==> d'.book.addresses[ip] == Entry(s, Some(due')))
  {
  }

  /** A readable entry of a token, after one event that issues nothing under it. */
  lemma TokenEntryStep(d: Desk, e: Event, s: Session, due: int)
    requires Agree(d.book, d.now) && (e.Created? ==> e.token != s.token)
    requires Get(d.book, d.now, s.token) == Some(s) && d.book.sessions[s.token] == Entry(s, Some(due))
    ensures var d' := Step(d, e);
            var due' := if Moves(d, e, s) then Moved(d, e, s) else due;
            && (Get(d'.book, d'.now, s.token).Some? <==> RevokedBy(d, e) != Some(s) && d'.now < due' && d'.now <= s.expires)
            && (Get(d'.book, d'.now, s.token).Some? ==> d'.book.sessions[s.token] == Entry(s, Some(due')))
  {
  }

  /** Nothing but a new session makes an unreadable key readable. */
  lemma StaysUnreadable(d: Desk, e: Event, key: string)
    ensures GetByClientIP(d.book, d.now, key).None? && (key == "" || !CreatesAt(e, key)) ==>
              GetByClientIP(Step(d, e).book, Step(d, e).now, key).None?
    ensures Get(d.book, d.now, key).None? && !(e.Created? && e.token == key) ==>
              Get(Step(d, e).book, Step(d, e).now, key).None?
  {
  }

  // ---- the store refines the history ----

  /** What the desk holds for an address that event i stands at, and for the token
      it issued. */
  ghost predicate Filed(es: seq<Event>, i: nat, n: nat, ip: string)
    requires i < n <= |es| && es[i].Created?
  {
    var b := Run(es, n).book;
    && GetByClientIP(b, Now(es, n), ip) == Some(Issued(es, i))
    && b.addresses[ip] == Entry(Issued(es, i), Some(Due(es, i, n, ip)))
  }

  ghost predicate TokenFiled(es: seq<Event>, i: nat, n: nat)
    requires i < n <= |es| && es[i].Created?
  {
    var b := Run(es, n).book;
    && Get(b, Now(es, n), es[i].token) == Some(Issued(es, i))
    && b.sessions[es[i].token] == Entry(Issued(es, i), Some(TokenDue(es, i, n)))
  }

  /** An address can be read exactly when some event stands at it, and holds what
      that event filed; and the same for a token. */
  ghost predicate AddressRefines(es: seq<Event>, n: nat, ip: string)
    requires n <= |es|
  {
    && (forall i :: 0 <= i < n && Standing(es, i, n, ip) ==> Filed(es, i, n, ip))
    && (GetByClientIP(Run(es, n).book, Now(es, n), ip).Some? ==> exists i :: 0 <= i < n && Standing(es, i, n, ip))
  }

  ghost predicate TokenRefines(es: seq<Event>, n: nat, t: string)
    requires n <= |es|
  {
    && (forall i :: 0 <= i < n && TokenStanding(es, i, n) && es[i].token == t ==> TokenFiled(es, i, n))
    && (Get(Run(es, n).book, Now(es, n), t).Some? ==>
          exists i :: 0 <= i < n && TokenStanding(es, i, n) && es[i].token == t)
  }

  ghost predicate Refines(es: seq<Event>, n: nat)
    requires n <= |es|
  {
    (forall ip :: AddressRefines(es, n, ip)) && (forall t :: TokenRefines(es, n, t))
  }

  /** The two standing predicates are what the two lookups answer. */
  lemma StandingIsFound(es: seq<Event>, i: nat, n: nat, ip: string)
    requires TokensDistinct(es) && i < n <= |es| && es[i].Created? && AddressRefines(es, n, ip)
    ensures Standing(es, i, n, ip) <==> GetByClientIP(Run(es, n).book, Now(es, n), ip) == Some(Issued(es, i))
  {
    hide Run, Standing, Now, Due;
    if GetByClientIP(Run(es, n).book, Now(es, n), ip) == Some(Issued(es, i)) {
      var k :| 0 <= k < n && Standing(es, k, n, ip);
      assert Filed(es, k, n, ip);
    }
  }

  lemma TokenStandingIsFound(es: seq<Event>, i: nat, n: nat)
    requires TokensDistinct(es) && i < n <= |es| && es[i].Created? && TokenRefines(es, n, es[i].token)
    ensures TokenStanding(es, i, n) <==> Get(Run(es, n).book, Now(es, n), es[i].token) == Some(Issued(es, i))
  {
    hide Run, TokenStanding, Now, TokenDue;
    if Get(Run(es, n).book, Now(es, n), es[i].token) == Some(Issued(es, i)) {
      var k :| 0 <= k < n && TokenStanding(es, k, n) && es[k].token == es[i].token;
      assert TokenFiled(es, k, n);
    }
  }

  /** A session found by address is found by its token, under the same deadline. */
  lemma FoundByBoth(es: seq<Event>, n: nat, ip: string)
    requires TokensDistinct(es) && n <= |es|
    ensures var b := Run(es, n).book;
            GetByClientIP(b, Now(es, n), ip).Some? ==>
              && b.addresses[ip].value.clientIP == ip
              && var t := b.addresses[ip].value.token;
                 && Get(b, Now(es, n), t) == GetByClientIP(b, Now(es, n), ip)
                 && b.sessions[t] == b.addresses[ip]
  {
    hide Run, Now;
    RunAgrees(es, n);
  }

  /** What an event revokes in the store is what the history says it does. */
  lemma RevokesIsRevokedBy(es: seq<Event>, i: nat, j: nat)
    requires TokensDistinct(es) && i < j < |es| && es[i].Created? && Refines(es, j)
    ensures RevokedBy(Run(es, j), es[j]) == Some(Issued(es, i)) <==> TokenStanding(es, i, j) && Revokes(es, i, j)
  {
    hide Run, Standing, TokenStanding, Now, AddressRefines, TokenRefines;
    TokenStandingIsFound(es, i, j);
    if es[j].RevokedAt? {
      StandingIsFound(es, i, j, es[j].clientIP);
      FoundByBoth(es, j, es[j].clientIP);
    }
    if es[j].Revoked? && RevokedBy(Run(es, j), es[j]) == Some(Issued(es, i)) { RunAgrees(es, j); }
  }

  lemma RevokedWasIssued(es: seq<Event>, j: nat)
    requires TokensDistinct(es) && j < |es| && Refines(es, j) && RevokedBy(Run(es, j), es[j]).Some?
    ensures exists k :: 0 <= k < j && es[k].Created? && RevokedBy(Run(es, j), es[j]) == Some(Issued(es, k))
  {
    hide Run, Standing, TokenStanding, Now, Due, TokenDue;
    if es[j].Revoked? {
      assert TokenRefines(es, j, es[j].token);
      var k :| 0 <= k < j && TokenStanding(es, k, j) && es[k].token == es[j].token;
      assert TokenFiled(es, k, j);
    } else {
      assert AddressRefines(es, j, es[j].clientIP);
      var k :| 0 <= k < j && Standing(es, k, j, es[j].clientIP);
      assert Filed(es, k, j, es[j].clientIP);
    }
  }

  lemma SeversIsRevokedBy(es: seq<Event>, j: nat, ip: string)
    requires TokensDistinct(es) && j < |es| && Refines(es, j)
    ensures var revoked := RevokedBy(Run(es, j), es[j]);
            Severs(es, j, ip) <==> revoked.Some? && revoked.value.clientIP == ip
  {
    hide Run, TokenStanding, Refines, RevokedBy, Revokes, Now;
    var revoked := RevokedBy(Run(es, j), es[j]);
    if Severs(es, j, ip) {
      var k :| 0 <= k < j && CreatesAt(es[k], ip) && TokenStanding(es, k, j) && Revokes(es, k, j);
      RevokesIsRevokedBy(es, k, j);
    }
    if revoked.Some? && revoked.value.clientIP == ip {
      RevokedWasIssued(es, j);
      var k :| 0 <= k < j && es[k].Created? && revoked == Some(Issued(es, k));
      RevokesIsRevokedBy(es, k, j);
      assert CreatesAt(es[k], ip);
    }
  }

  // ---- one event on ----

  lemma StandingLater(es: seq<Event>, i: nat, n: nat, ip: string)
    requires i + 1 < n <= |es|
    ensures Standing(es, i, n, ip) <==>
            && Standing(es, i, n - 1, ip)
            && !CreatesAt(es[n - 1], ip) && !Severs(es, n - 1, ip)
            && Now(es, n) < Due(es, i, n, ip) && Now(es, n) <= Issued(es, i).expires
  {
    hide Severs, Due, Now;
  }

  lemma TokenStandingLater(es: seq<Event>, i: nat, n: nat)
    requires i + 1 < n <= |es| && es[i].Created?
    ensures TokenStanding(es, i, n) <==>
            && TokenStanding(es, i, n - 1) && !Revokes(es, i, n - 1)
            && Now(es, n) < TokenDue(es, i, n) && Now(es, n) <= Issued(es, i).expires
  {
    hide Revokes, TokenDue, Now;
  }

  lemma StandingOnIssue(es: seq<Event>, n: nat)
    requires 0 < n <= |es| && es[n - 1].Created?
    ensures TokenStanding(es, n - 1, n) && TokenFiled(es, n - 1, n)
    ensures var ip := es[n - 1].draft.clientIP; ip != "" ==> Standing(es, n - 1, n, ip) && Filed(es, n - 1, n, ip)
  {
    hide Severs, Revokes;
    assert TokenDue(es, n - 1, n) == Issued(es, n - 1).expires;
    assert !TokenLapsed(es, n - 1, n);
  }

  lemma DueLater(es: seq<Event>, i: nat, n: nat, ip: string)
    requires i + 1 < n <= |es| && es[i].Created?
    ensures var d, e := Run(es, n - 1), es[n - 1];
            Due(es, i, n, ip) ==
              if (e.WentAway? || e.CameBack?) && e.clientIP == ip then Moved(d, e, Issued(es, i)) else Due(es, i, n - 1, ip)
  {
    hide Run;
  }

  /** The entry of a standing session is kept exactly while it stands. */
  lemma FiledStep(es: seq<Event>, i: nat, n: nat, ip: string)
    requires TokensDistinct(es) && i + 1 < n <= |es| && Refines(es, n - 1)
    requires Standing(es, i, n - 1, ip) && !CreatesAt(es[n - 1], ip)
    ensures Standing(es, i, n, ip) ==> Filed(es, i, n, ip)
    ensures GetByClientIP(Run(es, n).book, Now(es, n), ip).Some? ==> Standing(es, i, n, ip)
  {
    var d, e := Run(es, n - 1), es[n - 1];
    assert Run(es, n) == Step(d, e);
    assert AddressRefines(es, n - 1, ip);
    assert CreatesAt(es[i], ip);
    assert Filed(es, i, n - 1, ip);
    hide Run, Standing, Severs, Refines, AddressRefines, Step, Agree, RevokedBy, Due, Issued, Now, Moved;
    DueLater(es, i, n, ip);
    StandingLater(es, i, n, ip);
    SeversIsRevokedBy(es, n - 1, ip);
    RunAgrees(es, n - 1);
    EntryStep(d, e, ip, Issued(es, i), Due(es, i, n - 1, ip));
  }

  lemma TokenDueLater(es: seq<Event>, i: nat, n: nat)
    requires TokensDistinct(es) && i + 1 < n <= |es| && es[i].Created? && Refines(es, n - 1)
    ensures var d, e, s := Run(es, n - 1), es[n - 1], Issued(es, i);
            TokenDue(es, i, n) == if Moves(d, e, s) then Moved(d, e, s) else TokenDue(es, i, n - 1)
  {
    hide Run, Standing, AddressRefines, TokenRefines;
    if es[n - 1].WentAway? || es[n - 1].CameBack? { StandingIsFound(es, i, n - 1, es[n - 1].clientIP); }
  }

  lemma TokenFiledStep(es: seq<Event>, i: nat, n: nat)
    requires TokensDistinct(es) && i + 1 < n <= |es| && Refines(es, n - 1)
    requires TokenStanding(es, i, n - 1)
    ensures TokenStanding(es, i, n) ==> TokenFiled(es, i, n)
    ensures Get(Run(es, n).book, Now(es, n), es[i].token).Some? ==> TokenStanding(es, i, n)
  {
    var d, e, t := Run(es, n - 1), es[n - 1], es[i].token;
    assert Run(es, n) == Step(d, e);
    assert TokenRefines(es, n - 1, t);
    assert e.Created? ==> e.token != t;
    assert TokenFiled(es, i, n - 1);
    hide Run, TokenStanding, Standing, Revokes, Refines, Step, Agree, RevokedBy, TokenDue, Issued, Now, Moves, Moved;
    TokenDueLater(es, i, n);
    TokenStandingLater(es, i, n);
    RevokesIsRevokedBy(es, i, n - 1);
    RunAgrees(es, n - 1);
    TokenEntryStep(d, e, Issued(es, i), TokenDue(es, i, n - 1));
  }

  lemma AddressRefinesNext(es: seq<Event>, n: nat, ip: string)
    requires TokensDistinct(es) && 0 < n <= |es| && Refines(es, n - 1)
    ensures AddressRefines(es, n, ip)
  {
    assert Run(es, n) == Step(Run(es, n - 1), es[n - 1]);
    hide Run, Now, Standing, Filed, Issued, Step;
    assert AddressRefines(es, n - 1, ip);
    hide Refines;
    forall i | 0 <= i < n && Standing(es, i, n, ip) ensures Filed(es, i, n, ip) {
      if i == n - 1 {
        StandingOnIssue(es, n);
      } else {
        StandingLater(es, i, n, ip);
        FiledStep(es, i, n, ip);
      }
    }
    if GetByClientIP(Run(es, n).book, Now(es, n), ip).Some? {
      if ip != "" && CreatesAt(es[n - 1], ip) {
        StandingOnIssue(es, n);
      } else {
        StaysUnreadable(Run(es, n - 1), es[n - 1], ip);
        var i :| 0 <= i < n - 1 && Standing(es, i, n - 1, ip);
        FiledStep(es, i, n, ip);
      }
    }
  }

  lemma TokenRefinesNext(es: seq<Event>, n: nat, t: string)
    requires TokensDistinct(es) && 0 < n <= |es| && Refines(es, n - 1)
    ensures TokenRefines(es, n, t)
  {
    assert Run(es, n) == Step(Run(es, n - 1), es[n - 1]);
    hide Run, Now, TokenStanding, TokenFiled, Issued, Step;
    assert TokenRefines(es, n - 1, t);
    hide Refines;
    forall i | 0 <= i < n && TokenStanding(es, i, n) && es[i].token == t ensures TokenFiled(es, i, n) {
      if i == n - 1 {
        StandingOnIssue(es, n);
      } else {
        TokenStandingLater(es, i, n);
        TokenFiledStep(es, i, n);
      }
    }
    if Get(Run(es, n).book, Now(es, n), t).Some? {
      if es[n - 1].Created? && es[n - 1].token == t {
        StandingOnIssue(es, n);
      } else {
        StaysUnreadable(Run(es, n - 1), es[n - 1], t);
        var i :| 0 <= i < n - 1 && TokenStanding(es, i, n - 1) && es[i].token == t;
        TokenFiledStep(es, i, n);
      }
    }
  }

  lemma {:induction false} StoreRefinesHistory(es: seq<Event>, n: nat)
    requires TokensDistinct(es) && n <= |es|
    ensures Refines(es, n)
  {
    if n == 0 {
    } else {
      hide AddressRefines, TokenRefines;
      StoreRefinesHistory(es, n - 1);
      forall ip ensures AddressRefines(es, n, ip) { AddressRefinesNext(es, n, ip); }
      forall t ensures TokenRefines(es, n, t) { TokenRefinesNext(es, n, t); }
    }
  }

  // ---- the two lookups, told from the history ----

  /** The lookup by address returns s exactly when some event issued s for that
      address and still stands. Then s carries the address, and the lookup by token
      returns the same session, under the deadline the history gives it. */
  lemma {:induction false} LookupByAddress(es: seq<Event>, n: nat, ip: string, s: Session)
    requires TokensDistinct(es) && n <= |es|
    ensures GetByClientIP(Run(es, n).book, Now(es, n), ip) == Some(s) <==>
            exists i :: 0 <= i < n && Standing(es, i, n, ip) && s == Issued(es, i)
    ensures GetByClientIP(Run(es, n).book, Now(es, n), ip) == Some(s) ==>
              && s.clientIP == ip
              && Get(Run(es, n).book, Now(es, n), s.token) == Some(s)
              && Run(es, n).book.sessions[s.token] == Run(es, n).book.addresses[ip]
    ensures forall i :: 0 <= i < n && Standing(es, i, n, ip) ==>
              && ip in Run(es, n).book.addresses
              && Run(es, n).book.addresses[ip].deadline == Some(Due(es, i, n, ip))
  {
    StoreRefinesHistory(es, n);
    FoundByBoth(es, n, ip);
    assert AddressRefines(es, n, ip);
    hide Run, Standing, Now, Due, Refines;
    if GetByClientIP(Run(es, n).book, Now(es, n), ip) == Some(s) {
      var i :| 0 <= i < n && Standing(es, i, n, ip);
      assert Filed(es, i, n, ip);
    }
  }

  /** The lookup by token returns s exactly when some event issued s under it, and s
      has neither been revoked nor lapsed since. */
  lemma {:induction false} LookupByToken(es: seq<Event>, n: nat, t: string, s: Session)
    requires TokensDistinct(es) && n <= |es|
    ensures Get(Run(es, n).book, Now(es, n), t) == Some(s) <==>
            exists i :: 0 <= i < n && TokenStanding(es, i, n) && s == Issued(es, i) && s.token == t
    ensures forall i :: 0 <= i < n && TokenStanding(es, i, n) ==>
              && es[i].token in Run(es, n).book.sessions
              && Run(es, n).book.sessions[es[i].token].deadline == Some(TokenDue(es, i, n))
  {
    StoreRefinesHistory(es, n);
    hide Run, TokenStanding, Now, TokenDue;
    assert TokenRefines(es, n, t);
    forall i | 0 <= i < n && TokenStanding(es, i, n) ensures TokenFiled(es, i, n) {
      assert TokenRefines(es, n, es[i].token);
    }
    if Get(Run(es, n).book, Now(es, n), t) == Some(s) {
      var i :| 0 <= i < n && TokenStanding(es, i, n) && es[i].token == t;
      assert TokenFiled(es, i, n);
    }
  }

  /** While a session stands at an address, no event has revoked it, by its token or
      by an address that leads to it; and so while its token stands. */
  lemma {:induction false} StandingIsNotRevoked(es: seq<Event>, i: nat, j: nat, n: nat, ip: string)
    requires TokensDistinct(es) && i < j < n <= |es|
    requires Standing(es, i, n, ip) || TokenStanding(es, i, n)
    ensures es[j] != Revoked(es[i].token)
    ensures es[j].RevokedAt? ==> GetByClientIP(Run(es, j).book, Now(es, j), es[j].clientIP) != Some(Issued(es, i))
  {
    StoreRefinesHistory(es, n);
    StoreRefinesHistory(es, j);
    hide Run, Standing, Now, TokenLapsed, AddressRefines, TokenRefines;
    if Standing(es, i, n, ip) {
      LookupByAddress(es, n, ip, Issued(es, i));
      TokenStandingIsFound(es, i, n);
    }
    assert !Revokes(es, i, j);
    if es[j].RevokedAt? { StandingIsFound(es, i, j, es[j].clientIP); }
  }
}
