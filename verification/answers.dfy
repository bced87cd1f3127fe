/** What the server answers, told from the operations of a run alone: who signs in and
    with what in their session, who is let on, what a guess, a request for a code and an
    emergency link are answered, and whom the portal sees. */
module Answers {
  import opened Prelude
  import opened Text
  import opened Cells
  import opened Sessions
  import opened Otp
  import opened Accounts
  import opened Login
  import opened System
  import opened Conservation
  import opened SignIn
  import Gate
  import Portal
  import History = SessionHistory
  import CodeHistory = OtpHistory

  // ---- the history side, with no store in sight ----

  /** A login's answer: the first of five refusals that applies, or a session for the
      account of whoever is vouched for, with the row's number, address and groups. */
  function LoginAnswer(cfg: Config, ops: seq<Op>, n: nat): Result<Session, Error>
    requires n < |ops| && ops[n].CompleteLogin?
  {
    var op := ops[n];
    var who := if op.provider == "otp" then VouchedFor(cfg, ops, n, op.code) else op.answer;
    if op.provider !in cfg.providers then Err(UnknownProvider)
    else if !MayComplete(cfg, ops, n, op.state, op.provider) then Err(BadState)
    else if who.None? then Err(IdentityNotVerified)
    else if !op.domainAllowed then Err(DomainBlocked)
    else
      match IsAuthorised(UsersAt(ops, n), who.value)
      case Err(e) => Err(Account(e))
      case Ok(row) => Ok(Session(op.token, row.id, row.email, op.provider, row.groups, op.clientIP,
                                 Clock(ops, n), Clock(ops, n) + cfg.ttl))
  }

  /** The answer to a request for an emergency session: fifteen minutes unless another
      time is asked for, and never more than two hours. */
  function EmergencyAnswer(ops: seq<Op>, n: nat): Result<Session, Error>
    requires n < |ops| && ops[n].IssueEmergency?
  {
    var op := ops[n];
    if op.reason == "" then Err(NoReason)
    else if 2 * 60 * 60 < op.ttl then Err(TooLong)
    else
      match IsAuthorised(UsersAt(ops, n), op.email)
      case Err(e) => Err(Account(e))
      case Ok(row) => Ok(Session(op.token, row.id, row.email, "break-glass", row.groups, op.clientIP,
                                 Clock(ops, n), Clock(ops, n) + (if op.ttl <= 0 then 15 * 60 else op.ttl)))
  }

  /** The session that step n hands out, if it does. */
  function MadeBy(cfg: Config, ops: seq<Op>, n: nat): (made: Option<Session>)
    requires n < |ops|
    ensures made.Some? ==> made.value.issuedAt < made.value.expires
  {
    match ops[n]
    case CompleteLogin(_, _, _, _, _, _, _) =>
      if LoginAnswer(cfg, ops, n).Ok? then Some(LoginAnswer(cfg, ops, n).value) else None
    case IssueEmergency(_, _, _, _, _, _) =>
      if EmergencyAnswer(ops, n).Ok? then Some(EmergencyAnswer(ops, n).value) else None
    case _ => None
  }

  /** The certificate is unnamed or names this account, whatever its case. */
  predicate Fits(commonName: string, email: string) {
    TrimSpace(commonName) == "" || EqualFold(TrimSpace(commonName), TrimSpace(email))
  }

  /** The session at the address, its certificate and its account let step n on. */
  ghost predicate LetOn(ops: seq<Op>, n: nat, es: seq<History.Event>, i: nat, clientIP: string, commonName: string)
    requires n <= |ops| && |es| == n
  {
    && History.Standing(es, i, n, clientIP)
    && Fits(commonName, History.Issued(es, i).email)
    && IsAuthorised(UsersAt(ops, n), History.Issued(es, i).email).Ok?
  }

  /** What the first n steps mean for sessions. */
  ghost function SessionLog(cfg: Config, ops: seq<Op>, n: nat): (es: seq<History.Event>)
    requires n <= |ops|
    ensures |es| == n
  {
    if n == 0 then [] else SessionLog(cfg, ops, n - 1) + [EventOf(cfg, ops, n - 1, SessionLog(cfg, ops, n - 1))]
  }

  ghost function EventOf(cfg: Config, ops: seq<Op>, n: nat, es: seq<History.Event>): History.Event
    requires n < |ops| && |es| == n
  {
    match ops[n]
    case Tick(seconds) => History.Advance(seconds)
    case LogoutToken(token) => History.Revoked(token)
    case LogoutClientIP(ip) => History.RevokedAt(ip)
    case VpnConnect(ip, cn) =>
      if exists i :: 0 <= i < n && LetOn(ops, n, es, i, ip, cn) then History.CameBack(ip) else History.Advance(0)
    case VpnDisconnect(ip) => History.WentAway(ip)
    case _ =>
      var made := MadeBy(cfg, ops, n);
      if made.Some? then History.Created(made.value.expires - made.value.issuedAt, made.value, made.value.token)
      else History.Advance(0)
  }

  // ---- the server agrees ----

  /** Fresh random values, and provider names without a bar. */
  ghost predicate WellPosed(cfg: Config, ops: seq<Op>) {
    DrawsDistinct(ops) && NoBars(ops) && forall p :: p in cfg.providers ==> '|' !in p
  }

  /** After any run a login is answered exactly as its history says: which of the five
      refusals, or which session. */
  lemma {:induction false} LoginAnswers(cfg: Config, ops: seq<Op>, n: nat)
    requires n < |ops| && ops[n].CompleteLogin? && NoBars(ops)
    requires forall p :: p in cfg.providers ==> '|' !in p
    ensures var op, s := ops[n], Run(cfg, ops, n);
            Complete(cfg, s.ks, s.users, op.provider, op.code, op.state, op.clientIP, op.answer, op.domainAllowed, op.token).1
              == LoginAnswer(cfg, ops, n)
  {
    hide Run, MayComplete, VouchedFor, StateAccepted, Earned, IsAuthorised, UsersAt, Clock;
    if ops[n].provider in cfg.providers { StateAcceptedIff(cfg, ops, n, ops[n].state, ops[n].provider); }
    EarnedIff(cfg, ops, n, ops[n].code);
    UsersAgree(cfg, ops, n);
    ClockAgrees(cfg, ops, n);
  }

  lemma {:induction false} EmergencyAnswers(cfg: Config, ops: seq<Op>, n: nat)
    requires n < |ops| && ops[n].IssueEmergency?
    ensures var op, s := ops[n], Run(cfg, ops, n);
            Issue(s.ks, s.users, op.email, op.clientIP, op.reason, op.ttl, op.token, op.code).1 == EmergencyAnswer(ops, n)
  {
    hide Run, IsAuthorised, UsersAt, Clock;
    UsersAgree(cfg, ops, n);
    ClockAgrees(cfg, ops, n);
  }

  lemma MadeAgrees(cfg: Config, ops: seq<Op>, n: nat)
    requires n < |ops| && WellPosed(cfg, ops)
    ensures MadeAt(cfg, ops, n) == MadeBy(cfg, ops, n)
  {
    hide Run, LoginAnswer, EmergencyAnswer, Complete, Issue;
    if ops[n].CompleteLogin? { LoginAnswers(cfg, ops, n); }
    if ops[n].IssueEmergency? { EmergencyAnswers(cfg, ops, n); }
  }

  /** Whatever session a step hands out belongs to one row of the accounts as they then
      were, the one under the address vouched for or named, and carries that row's
      number, address and groups, the step's own provider and client address. */
  lemma {:induction false} MadeIsTheRows(cfg: Config, ops: seq<Op>, n: nat, s: Session)
    requires n < |ops| && WellPosed(cfg, ops) && MadeAt(cfg, ops, n) == Some(s)
    ensures ops[n].CompleteLogin? || ops[n].IssueEmergency?
    ensures var op := ops[n];
            var who := if op.IssueEmergency? then Some(op.email)
                       else if op.provider == "otp" then VouchedFor(cfg, ops, n, op.code) else op.answer;
            && who.Some? && Normalise(who.value) in UsersAt(ops, n)
            && var row := UsersAt(ops, n)[Normalise(who.value)];
               && !row.deleted && row.status == Active
               && s.userId == row.id && s.email == row.email && s.groups == row.groups
               && s.provider == (if op.IssueEmergency? then "break-glass" else op.provider)
               && s.clientIP == op.clientIP && s.token == op.token && s.issuedAt == Clock(ops, n)
  {
    hide Run, UsersAt, Clock, MayComplete, VouchedFor, TrimSpace, ToLower, WellPosed, MadeAt;
    MadeAgrees(cfg, ops, n);
  }

  lemma MadeLasts(cfg: Config, ops: seq<Op>, n: nat)
    requires n < |ops| && MadeBy(cfg, ops, n).Some?
    ensures var made := MadeBy(cfg, ops, n).value;
            && made.issuedAt == Clock(ops, n)
            && (ops[n].CompleteLogin? ==> made.token == ops[n].token && made.expires == made.issuedAt + cfg.ttl)
            && (ops[n].IssueEmergency? ==>
                  made.token == ops[n].token && made.expires == made.issuedAt + EmergencyTtl(ops[n].ttl))
            && (ops[n].CompleteLogin? || ops[n].IssueEmergency?)
  {
    hide IsAuthorised, UsersAt, Clock, MayComplete, VouchedFor;
  }

  /** The log leads the session store to where the server is, and its tokens are fresh. */
  ghost predicate LogIsSound(cfg: Config, ops: seq<Op>, n: nat)
    requires n <= |ops|
  {
    && SessionLog(cfg, ops, n) == SessionEvents(cfg, ops)[..n]
    && History.TokensDistinct(SessionLog(cfg, ops, n))
    && History.Run(SessionLog(cfg, ops, n), n) == Desk(Run(cfg, ops, n))
  }

  /** What the lookups of the log answer is what the server's do. */
  lemma LookupsByLog(cfg: Config, ops: seq<Op>, n: nat)
    requires n <= |ops| && LogIsSound(cfg, ops, n)
    ensures var es, ks := SessionLog(cfg, ops, n), Run(cfg, ops, n).ks;
            && History.TokensDistinct(es)
            && (forall key :: GetByClientIP(ks.book, ks.now, key) == GetByClientIP(History.Run(es, n).book, History.Now(es, n), key))
            && (forall key :: Get(ks.book, ks.now, key) == Get(History.Run(es, n).book, History.Now(es, n), key))
  {
    hide Run, SessionLog, SessionEvents, History.Run, History.TokensDistinct;
  }

  /** The session the log has at an address is the one the lookup finds. */
  lemma FoundByLog(cfg: Config, ops: seq<Op>, n: nat, ip: string, s: Session)
    requires n <= |ops| && LogIsSound(cfg, ops, n)
    ensures GetByClientIP(Run(cfg, ops, n).ks.book, Run(cfg, ops, n).ks.now, ip) == Some(s) <==>
            exists i :: 0 <= i < n && History.Standing(SessionLog(cfg, ops, n), i, n, ip)
                        && s == History.Issued(SessionLog(cfg, ops, n), i)
  {
    hide *;
    LookupsByLog(cfg, ops, n);
    History.LookupByAddress(SessionLog(cfg, ops, n), n, ip, s);
  }

  lemma {:induction false} RunOfPrefix(es: seq<History.Event>, n: nat, m: nat)
    requires m <= n <= |es|
    ensures History.Run(es[..n], m) == History.Run(es, m)
  {
    hide History.Step;
    if m > 0 { RunOfPrefix(es, n, m - 1); }
  }

  lemma PrefixIsSound(cfg: Config, ops: seq<Op>, n: nat)
    requires n <= |ops| && DrawsDistinct(ops) && SessionLog(cfg, ops, n) == SessionEvents(cfg, ops)[..n]
    ensures LogIsSound(cfg, ops, n)
  {
    hide Run, SessionLog, SessionEvents, History.Run;
    SessionTokensDistinct(cfg, ops);
    RunOfPrefix(SessionEvents(cfg, ops), n, n);
    RunIsASessionRun(cfg, ops, n);
  }

  /** The gate's question, by what the lookup at the address finds. */
  lemma AdmitIs(ks: Keyspace, users: Users, ip: string, cn: string)
    ensures Admit(ks, users, ip, cn) ==
            match GetByClientIP(ks.book, ks.now, ip)
            case None => NoSessionHere
            case Some(s) =>
              if !Fits(cn, s.email) then SomebodyElse
              else if IsAuthorised(users, s.email).Err? then NoLongerAuthorised else Admitted(s)
  {
    hide TrimSpace, EqualFold, IsAuthorised, GetByClientIP;
  }

  /** The entry of the log that stands at the address is what the lookup finds. */
  lemma StandingIsFound(cfg: Config, ops: seq<Op>, n: nat, ip: string, i: nat)
    requires i < n <= |ops| && LogIsSound(cfg, ops, n) && History.Standing(SessionLog(cfg, ops, n), i, n, ip)
    ensures SessionLog(cfg, ops, n)[i].Created?
    ensures GetByClientIP(Run(cfg, ops, n).ks.book, Run(cfg, ops, n).ks.now, ip) ==
            Some(History.Issued(SessionLog(cfg, ops, n), i))
  {
    hide *;
    FoundByLog(cfg, ops, n, ip, History.Issued(SessionLog(cfg, ops, n), i));
  }

  /** The gate's question after n steps, by the log. */
  lemma AdmitByLog(cfg: Config, ops: seq<Op>, n: nat, ip: string, cn: string)
    requires n <= |ops| && LogIsSound(cfg, ops, n)
    ensures var es, answer := SessionLog(cfg, ops, n), Admit(Run(cfg, ops, n).ks, Run(cfg, ops, n).users, ip, cn);
            match answer
            case NoSessionHere => forall i :: 0 <= i < n ==> !History.Standing(es, i, n, ip)
            case SomebodyElse =>
              exists i :: 0 <= i < n && History.Standing(es, i, n, ip) && !Fits(cn, History.Issued(es, i).email)
            case NoLongerAuthorised =>
              exists i :: 0 <= i < n && History.Standing(es, i, n, ip) && Fits(cn, History.Issued(es, i).email)
                          && IsAuthorised(UsersAt(ops, n), History.Issued(es, i).email).Err?
            case Admitted(s) =>
              exists i :: 0 <= i < n && History.Standing(es, i, n, ip) && Fits(cn, s.email)
                          && IsAuthorised(UsersAt(ops, n), s.email).Ok? && s == History.Issued(es, i)
    ensures forall i :: 0 <= i < n && History.Standing(SessionLog(cfg, ops, n), i, n, ip) ==>
              GetByClientIP(Run(cfg, ops, n).ks.book, Run(cfg, ops, n).ks.now, ip) ==
              Some(History.Issued(SessionLog(cfg, ops, n), i))
  {
    hide *;
    UsersAgree(cfg, ops, n);
    var ks := Run(cfg, ops, n).ks;
    AdmitIs(ks, Run(cfg, ops, n).users, ip, cn);
    var found := GetByClientIP(ks.book, ks.now, ip);
    if found.Some? { FoundByLog(cfg, ops, n, ip, found.value); }
    forall i | 0 <= i < n && History.Standing(SessionLog(cfg, ops, n), i, n, ip)
      ensures found == Some(History.Issued(SessionLog(cfg, ops, n), i))
    {
      StandingIsFound(cfg, ops, n, ip, i);
    }
  }

  /** A connection is let on exactly when some entry of the log lets it on. */
  lemma LetOnIff(cfg: Config, ops: seq<Op>, n: nat, ip: string, cn: string)
    requires n <= |ops| && LogIsSound(cfg, ops, n)
    ensures Admit(Run(cfg, ops, n).ks, Run(cfg, ops, n).users, ip, cn).Admitted? <==>
            exists i :: 0 <= i < n && LetOn(ops, n, SessionLog(cfg, ops, n), i, ip, cn)
  {
    hide Run, SessionLog, Admit, LogIsSound, History.Standing, History.Issued, Fits, IsAuthorised, UsersAt, GetByClientIP;
    var es, s := SessionLog(cfg, ops, n), Run(cfg, ops, n);
    AdmitByLog(cfg, ops, n, ip, cn);
    AdmitIs(s.ks, s.users, ip, cn);
    UsersAgree(cfg, ops, n);
    if Admit(s.ks, s.users, ip, cn).Admitted? {
      var i :| 0 <= i < n && History.Standing(es, i, n, ip) && Fits(cn, Admit(s.ks, s.users, ip, cn).session.email)
               && Admit(s.ks, s.users, ip, cn).session == History.Issued(es, i);
      assert LetOn(ops, n, es, i, ip, cn);
    }
  }

  lemma EventAgrees(cfg: Config, ops: seq<Op>, n: nat)
    requires WellPosed(cfg, ops) && n < |ops| && LogIsSound(cfg, ops, n)
    ensures EventOf(cfg, ops, n, SessionLog(cfg, ops, n)) == SessionEvent(cfg, Run(cfg, ops, n), ops[n])
  {
    hide Run, SessionLog, LogIsSound, Made, Admit, LetOn, MadeBy;
    MadeAgrees(cfg, ops, n);
    if MadeBy(cfg, ops, n).Some? { MadeLasts(cfg, ops, n); }
    if ops[n].VpnConnect? {
      LetOnIff(cfg, ops, n, ops[n].clientIP, ops[n].commonName);
    } else if !ops[n].CompleteLogin? && !ops[n].IssueEmergency? {
      MadeOnlyBySome(cfg, ops, n);
    }
  }

  lemma MadeOnlyBySome(cfg: Config, ops: seq<Op>, n: nat)
    requires n < |ops| && !ops[n].CompleteLogin? && !ops[n].IssueEmergency?
    ensures MadeBy(cfg, ops, n).None?
  {
  }

  /** The log is what the server does, seen by the session store, at every step. */
  lemma {:induction false} LogAgreesWithServer(cfg: Config, ops: seq<Op>, n: nat)
    requires WellPosed(cfg, ops) && n <= |ops|
    ensures LogIsSound(cfg, ops, n)
  {
    hide LogIsSound, SessionEvents, Run, EventOf;
    if n == 0 {
      assert SessionLog(cfg, ops, 0) == SessionEvents(cfg, ops)[..0];
    } else {
      LogAgreesWithServer(cfg, ops, n - 1);
      EventAgrees(cfg, ops, n - 1);
      SessionEventAt(cfg, ops, n - 1);
      LogNext(cfg, ops, n);
    }
    PrefixIsSound(cfg, ops, n);
  }

  lemma LogNext(cfg: Config, ops: seq<Op>, n: nat)
    requires 0 < n <= |ops| && LogIsSound(cfg, ops, n - 1)
    requires EventOf(cfg, ops, n - 1, SessionLog(cfg, ops, n - 1)) == SessionEvents(cfg, ops)[n - 1]
    ensures SessionLog(cfg, ops, n) == SessionEvents(cfg, ops)[..n]
  {
    hide SessionEvents, EventOf, Run, History.Run;
    var es := SessionEvents(cfg, ops);
    assert es[..n] == es[..n - 1] + [es[n - 1]];
  }

  // ---- the answers ----

  /** Every session that is handed out is the one its login or its emergency issue
      says, and an entry of the log issued it. */
  lemma LogIssues(cfg: Config, ops: seq<Op>, n: nat, i: nat)
    requires WellPosed(cfg, ops) && i < n <= |ops|
    ensures var es := SessionLog(cfg, ops, n);
            && (es[i].Created? <==> MadeBy(cfg, ops, i).Some?)
            && (es[i].Created? ==> MadeBy(cfg, ops, i) == Some(History.Issued(es, i)))
  {
    hide SessionLog, SessionEvents, Run, Made, MadeBy, Admit, History.Run, History.Now, LetOn;
    LogAgreesWithServer(cfg, ops, n);
    LogAgreesWithServer(cfg, ops, i);
    EventAgrees(cfg, ops, i);
    SessionEventAt(cfg, ops, i);
    assert SessionLog(cfg, ops, n)[i] == EventOf(cfg, ops, i, SessionLog(cfg, ops, i));
    LogClock(cfg, ops, n, i);
    if MadeBy(cfg, ops, i).Some? {
      MadeLasts(cfg, ops, i);
    } else if ops[i].CompleteLogin? || ops[i].IssueEmergency? {
    } else {
      MadeOnlyBySome(cfg, ops, i);
    }
  }

  lemma LogClock(cfg: Config, ops: seq<Op>, n: nat, i: nat)
    requires WellPosed(cfg, ops) && i <= n <= |ops|
    ensures History.Now(SessionLog(cfg, ops, n), i) == Clock(ops, i)
  {
    LogAgreesWithServer(cfg, ops, n);
    hide SessionLog, SessionEvents, Run, History.Run;
    RunOfPrefix(SessionEvents(cfg, ops), n, i);
    RunIsASessionRun(cfg, ops, i);
    ClockAgrees(cfg, ops, i);
  }

  /** After any run, the VPN's question is answered by the session that stands at the
      address, its account and the certificate's name, and by nothing else: yes, with
      that session as it was handed out, exactly when there is one, the name is blank
      or its own, and its account is authorised; and otherwise with the first of these
      that fails. */
  lemma {:induction false} GateAnswers(cfg: Config, ops: seq<Op>, n: nat, ip: string, cn: string, s: Session)
    requires WellPosed(cfg, ops) && n <= |ops|
    ensures var es, answer := SessionLog(cfg, ops, n), Admit(Run(cfg, ops, n).ks, Run(cfg, ops, n).users, ip, cn);
            && (answer == NoSessionHere <==> forall i :: 0 <= i < n ==> !History.Standing(es, i, n, ip))
            && forall i :: 0 <= i < n && History.Standing(es, i, n, ip) && MadeBy(cfg, ops, i) == Some(s) ==>
                 var fits := TrimSpace(cn) == "" || EqualFold(TrimSpace(cn), TrimSpace(s.email));
                 && (answer == Admitted(s) <==> fits && IsAuthorised(UsersAt(ops, n), s.email).Ok?)
                 && (answer == SomebodyElse <==> !fits)
                 && (answer == NoLongerAuthorised <==> fits && IsAuthorised(UsersAt(ops, n), s.email).Err?)
    ensures Admit(Run(cfg, ops, n).ks, Run(cfg, ops, n).users, ip, cn) == Admitted(s) ==>
              exists i :: 0 <= i < n && History.Standing(SessionLog(cfg, ops, n), i, n, ip) && MadeBy(cfg, ops, i) == Some(s)
    ensures forall i :: 0 <= i < n && History.Standing(SessionLog(cfg, ops, n), i, n, ip) ==> MadeBy(cfg, ops, i).Some?
  {
    hide Run, SessionLog, Admit, LogIsSound, History.Standing, History.Issued, TrimSpace, EqualFold, IsAuthorised, UsersAt;
    hide GetByClientIP, MadeBy, WellPosed;
    LogAgreesWithServer(cfg, ops, n);
    AdmitByLog(cfg, ops, n, ip, cn);
    AdmitIs(Run(cfg, ops, n).ks, Run(cfg, ops, n).users, ip, cn);
    UsersAgree(cfg, ops, n);
    forall i | 0 <= i < n && History.Standing(SessionLog(cfg, ops, n), i, n, ip)
      ensures MadeBy(cfg, ops, i) == Some(History.Issued(SessionLog(cfg, ops, n), i))
    {
      LogIssues(cfg, ops, n, i);
    }
  }

  /** The lookup by token, by the log. */
  lemma {:induction false} TokenAnswers(cfg: Config, ops: seq<Op>, n: nat, token: string, s: Session)
    requires WellPosed(cfg, ops) && n <= |ops|
    ensures Get(Run(cfg, ops, n).ks.book, Run(cfg, ops, n).ks.now, token) == Some(s) <==>
            exists i :: 0 <= i < n && History.TokenStanding(SessionLog(cfg, ops, n), i, n)
                        && MadeBy(cfg, ops, i) == Some(s) && s.token == token
  {
    hide *;
    LogAgreesWithServer(cfg, ops, n);
    LookupsByLog(cfg, ops, n);
    History.LookupByToken(SessionLog(cfg, ops, n), n, token, s);
    forall i | 0 <= i < n && History.TokenStanding(SessionLog(cfg, ops, n), i, n)
      ensures MadeBy(cfg, ops, i) == Some(History.Issued(SessionLog(cfg, ops, n), i))
    {
      LogIssues(cfg, ops, n, i);
    }
  }

  /** The lookup by address, by the log. */
  lemma {:induction false} AddressAnswers(cfg: Config, ops: seq<Op>, n: nat, ip: string, s: Session)
    requires WellPosed(cfg, ops) && n <= |ops|
    ensures GetByClientIP(Run(cfg, ops, n).ks.book, Run(cfg, ops, n).ks.now, ip) == Some(s) <==>
            exists i :: 0 <= i < n && History.Standing(SessionLog(cfg, ops, n), i, n, ip) && MadeBy(cfg, ops, i) == Some(s)
  {
    hide *;
    LogAgreesWithServer(cfg, ops, n);
    FoundByLog(cfg, ops, n, ip, s);
    forall i | 0 <= i < n && History.Standing(SessionLog(cfg, ops, n), i, n, ip)
      ensures MadeBy(cfg, ops, i) == Some(History.Issued(SessionLog(cfg, ops, n), i))
    {
      LogIssues(cfg, ops, n, i);
    }
  }

  // ---- emergency links ----

  /** Step i issued an emergency session with this link, nothing has redeemed the link
      since, and the session still stands and has time left. */
  ghost predicate Redeemable(cfg: Config, ops: seq<Op>, n: nat, i: nat, code: string)
    requires i < n <= |ops|
  {
    && ops[i].IssueEmergency? && ops[i].code == code && MadeBy(cfg, ops, i).Some?
    && (forall j :: i < j < n ==> ops[j] != RedeemEmergency(code))
    && History.TokenStanding(SessionLog(cfg, ops, n), i, n)
    && Clock(ops, n) < MadeBy(cfg, ops, i).value.expires
  }

  lemma {:induction false} PendingLinkIs(cfg: Config, ops: seq<Op>, n: nat, i: nat, code: string)
    requires i < n <= |ops| && ops[i].IssueEmergency? && ops[i].code == code && MadeAt(cfg, ops, i).Some?
    requires forall j :: i < j < n ==> ops[j] != RedeemEmergency(code) && !(ops[j].IssueEmergency? && ops[j].code == code)
    ensures Gate.PendingLink(cfg, ops, n, code) == Some(i)
    decreases n
  {
    hide MadeAt, Gate.PendingLink;
    Gate.PendingLinkNext(cfg, ops, n - 1, code);
    if i < n - 1 { PendingLinkIs(cfg, ops, n - 1, i, code); }
  }

  lemma RedeemIs(cfg: Config, ks: Keyspace, code: string)
    ensures Redeem(cfg, ks, code).1 ==
            if cfg.breakGlass && code != "" && Live(ks.links, code, ks.now) && ks.links[code].value != ""
               && Get(ks.book, ks.now, ks.links[code].value).Some?
            then Ok(Get(ks.book, ks.now, ks.links[code].value).value) else Err(NoBreakGlass)
  {
    hide Get;
  }

  /** A link that can be redeemed leads to the session issued with it. */
  lemma RedeemableLeads(cfg: Config, ops: seq<Op>, n: nat, i: nat, code: string)
    requires WellPosed(cfg, ops) && i < n <= |ops| && Redeemable(cfg, ops, n, i, code) && code != ""
    ensures var ks := Run(cfg, ops, n).ks;
            && Live(ks.links, code, ks.now) && ks.links[code].value == MadeBy(cfg, ops, i).value.token
            && Get(ks.book, ks.now, ks.links[code].value) == MadeBy(cfg, ops, i)
  {
    hide Run, SessionLog, History.TokenStanding, Get, MadeBy, Gate.PendingLink, Clock;
    MadeAgrees(cfg, ops, i);
    MadeLasts(cfg, ops, i);
    forall j | i < j < n ensures !(ops[j].IssueEmergency? && ops[j].code == code) {
      assert ops[i].code in Drawn(ops[i]) && Drawn(ops[i]) !! Drawn(ops[j]);
    }
    hide DrawsDistinct, Drawn;
    PendingLinkIs(cfg, ops, n, i, code);
    Gate.LiveLinkIsPending(cfg, ops, n, code);
    ClockAgrees(cfg, ops, n);
    TokenAnswers(cfg, ops, n, ops[i].token, MadeBy(cfg, ops, i).value);
  }

  /** A redemption that succeeds found a link that could be redeemed. */
  lemma RedeemedWasRedeemable(cfg: Config, ops: seq<Op>, n: nat, code: string, s: Session)
    requires WellPosed(cfg, ops) && n <= |ops| && Redeem(cfg, Run(cfg, ops, n).ks, code).1 == Ok(s)
    ensures cfg.breakGlass && code != "" && s.token != ""
    ensures exists i :: 0 <= i < n && Redeemable(cfg, ops, n, i, code) && MadeBy(cfg, ops, i) == Some(s)
  {
    hide Run, SessionLog, History.TokenStanding, Get, MadeBy, Gate.PendingLink, Clock, Redeem, Drawn, MadeAt, DrawsDistinct;
    var ks := Run(cfg, ops, n).ks;
    RedeemIs(cfg, ks, code);
    Gate.LiveLinkIsPending(cfg, ops, n, code);
    var i := Gate.PendingLink(cfg, ops, n, code).value;
    MadeAgrees(cfg, ops, i);
    MadeLasts(cfg, ops, i);
    ClockAgrees(cfg, ops, n);
    TokenAnswers(cfg, ops, n, ops[i].token, s);
    var k :| 0 <= k < n && History.TokenStanding(SessionLog(cfg, ops, n), k, n)
             && MadeBy(cfg, ops, k) == Some(s) && s.token == ops[i].token;
    MadeAgrees(cfg, ops, k);
    Gate.HandedOutOnce(cfg, ops, i, k);
    assert Redeemable(cfg, ops, n, i, code);
  }

  /** After any run, a link is answered with a session exactly when emergency access is
      enabled and that session was issued with it, nothing has redeemed the link since,
      and the session still stands with time left; and otherwise with one refusal. */
  lemma {:induction false} RedeemAnswers(cfg: Config, ops: seq<Op>, n: nat, code: string, s: Session)
    requires WellPosed(cfg, ops) && n <= |ops|
    ensures var answer := Redeem(cfg, Run(cfg, ops, n).ks, code).1;
            && (answer == Ok(s) <==>
                  && cfg.breakGlass && code != "" && s.token != ""
                  && exists i :: 0 <= i < n && Redeemable(cfg, ops, n, i, code) && MadeBy(cfg, ops, i) == Some(s))
            && (answer.Err? ==> answer == Err(NoBreakGlass))
  {
    hide Run, Redeem, Redeemable, MadeBy, WellPosed, Get;
    var answer := Redeem(cfg, Run(cfg, ops, n).ks, code).1;
    RedeemIs(cfg, Run(cfg, ops, n).ks, code);
    if answer == Ok(s) { RedeemedWasRedeemable(cfg, ops, n, code, s); }
    if cfg.breakGlass && code != "" && s.token != ""
       && exists i :: 0 <= i < n && Redeemable(cfg, ops, n, i, code) && MadeBy(cfg, ops, i) == Some(s) {
      var i :| 0 <= i < n && Redeemable(cfg, ops, n, i, code) && MadeBy(cfg, ops, i) == Some(s);
      RedeemableLeads(cfg, ops, n, i, code);
    }
  }

  // ---- codes ----

  /** After any run, a guess is answered as its log judges it. */
  lemma {:induction false} VerifyAnswers(cfg: Config, ops: seq<Op>, n: nat, email: string, code: string, state: string)
    requires n <= |ops|
    ensures VerifyCode(cfg, Run(cfg, ops, n).ks, email, code, state).1 ==
            if !cfg.otp then Some(OtpDisabled)
            else
              match CodeHistory.Judgement(LogAt(cfg, ops, n, Normalise(email)), Clock(ops, n), TrimSpace(code))
              case None => None
              case Some(e) => Some(Code(e))
  {
    hide Run, LogAt, Clock, TrimSpace, ToLower, Verdict, Verify, CodeHistory.Judgement;
    ServerVerifiesByHistory(cfg, ops, n, Normalise(email), TrimSpace(code));
    LogAgrees(cfg, ops, n, Normalise(email));
    ClockAgrees(cfg, ops, n);
  }

  /** After any run, a request for a code is answered with silence for whoever may not
      sign in, with the rate limit its log says applies, and otherwise by whether the
      code was delivered. */
  lemma {:induction false} RequestAnswers(cfg: Config, ops: seq<Op>, n: nat, email: string, domainAllowed: bool,
                                          code: string, delivered: bool)
    requires n <= |ops|
    ensures var a := Normalise(email);
            RequestCode(cfg, Run(cfg, ops, n).ks, Run(cfg, ops, n).users, email, domainAllowed, code, delivered).1 ==
              if !cfg.otp then Some(OtpDisabled)
              else if !domainAllowed || IsAuthorised(UsersAt(ops, n), a).Err? then None
              else
                match CodeHistory.Denial(LogAt(cfg, ops, n, a), Clock(ops, n))
                case Some(e) => Some(Code(e))
                case None => if delivered then None else Some(Code(NotDelivered))
  {
    hide Run, LogAt, Clock, TrimSpace, ToLower, IsAuthorised, UsersAt, Refusal, Request, CodeHistory.Denial, CodeEvents;
    hide CodeHistory.Run, CodeHistory.LogOf, CodeHistory.Now;
    var a := Normalise(email);
    RunIsACodeRun(cfg, ops, n);
    CodeHistory.RequestRefinesHistory(CodeEvents(cfg, ops), n, a);
    LogAgrees(cfg, ops, n, a);
    ClockAgrees(cfg, ops, n);
    UsersAgree(cfg, ops, n);
  }

  // ---- the portal ----

  /** After any run, the portal sees the session that the cookie names, while it
      stands; failing that, the one that stands at the address; and nobody else. */
  lemma {:induction false} PortalAnswers(cfg: Config, ops: seq<Op>, n: nat, cookie: string, ip: string, s: Session)
    requires WellPosed(cfg, ops) && n <= |ops|
    ensures var es := SessionLog(cfg, ops, n);
            var named := cookie != "" &&
              exists i :: 0 <= i < n && History.TokenStanding(es, i, n) && MadeBy(cfg, ops, i).Some?
                          && MadeBy(cfg, ops, i).value.token == cookie;
            Portal.SessionFor(Run(cfg, ops, n).ks.book, Run(cfg, ops, n).ks.now, cookie, ip) == Some(s) <==>
              if named then
                exists i :: 0 <= i < n && History.TokenStanding(es, i, n) && MadeBy(cfg, ops, i) == Some(s) && s.token == cookie
              else exists i :: 0 <= i < n && History.Standing(es, i, n, ip) && MadeBy(cfg, ops, i) == Some(s)
  {
    hide Run, SessionLog, History.TokenStanding, History.Standing, MadeBy, Get, GetByClientIP, WellPosed;
    var ks, es := Run(cfg, ops, n).ks, SessionLog(cfg, ops, n);
    TokenAnswers(cfg, ops, n, cookie, s);
    AddressAnswers(cfg, ops, n, ip, s);
    var found := Get(ks.book, ks.now, cookie);
    if found.Some? { TokenAnswers(cfg, ops, n, cookie, found.value); }
    if exists i :: 0 <= i < n && History.TokenStanding(es, i, n) && MadeBy(cfg, ops, i).Some?
                   && MadeBy(cfg, ops, i).value.token == cookie {
      var i :| 0 <= i < n && History.TokenStanding(es, i, n) && MadeBy(cfg, ops, i).Some?
               && MadeBy(cfg, ops, i).value.token == cookie;
      TokenAnswers(cfg, ops, n, cookie, MadeBy(cfg, ops, i).value);
    }
  }
}
