/** Who is let through, over whole runs: the VPN's question, closed accounts and
    emergency links. */
module Gate {
  import opened Prelude
  import opened Text
  import opened Cells
  import opened Sessions
  import opened Accounts
  import opened Login
  import opened System
  import A = Active
  import History = SessionHistory

  /** Step j ends this session: a logout with its token, or by an address that
      leads to it. */
  predicate Ends(cfg: Config, ops: seq<Op>, j: nat, s: Session)
    requires j < |ops|
  {
    var ks := Run(cfg, ops, j).ks;
    || ops[j] == LogoutToken(s.token)
    || (ops[j].LogoutClientIP? && GetByClientIP(ks.book, ks.now, ops[j].clientIP) == Some(s))
  }

  /** Step i handed out s while the account it names was authorised. */
  predicate HandsOut(cfg: Config, ops: seq<Op>, i: nat, s: Session)
    requires i < |ops|
  {
    MadeAt(cfg, ops, i) == Some(s) && IsAuthorised(Run(cfg, ops, i).users, s.email).Ok?
  }

  /** One step: the session store records exactly the session that is handed out,
      under a token drawn there and then, for an authorised account. */
  lemma CreatedIsMade(cfg: Config, s: State, op: Op)
    requires Indexed(s.users) && SessionEvent(cfg, s, op).Created?
    ensures var e := SessionEvent(cfg, s, op);
            && Made(cfg, s, op) == Some(Stamp(e.draft, e.token, s.ks.now, e.ttl))
            && e.token in Drawn(op)
            && IsAuthorised(s.users, Made(cfg, s, op).value.email).Ok?
  {
    match op {
      case CompleteLogin(provider, code, state, ip, answer, ok, token) =>
        AuthorisedByOwnEmail(s.users, Identity(ConsumeState(s.ks, state), provider, code, answer).value);
      case IssueEmergency(email, ip, reason, ttl, token, code) => AuthorisedByOwnEmail(s.users, email);
      case _ =>
    }
  }

  /** Two sessions with one token were handed out by one step. */
  lemma HandedOutOnce(cfg: Config, ops: seq<Op>, i: nat, j: nat)
    requires DrawsDistinct(ops) && i < |ops| && j < |ops|
    requires MadeAt(cfg, ops, i).Some? && MadeAt(cfg, ops, j).Some?
    requires MadeAt(cfg, ops, i).value.token == MadeAt(cfg, ops, j).value.token
    ensures i == j
  {
    assert MadeAt(cfg, ops, i).value.token in Drawn(ops[i]);
    assert MadeAt(cfg, ops, j).value.token in Drawn(ops[j]);
  }

  lemma MadeIsIssued(cfg: Config, ops: seq<Op>, i: nat)
    requires i < |ops| && SessionEvents(cfg, ops)[i].Created?
    ensures HandsOut(cfg, ops, i, History.Issued(SessionEvents(cfg, ops), i))
  {
    RunIsASessionRun(cfg, ops, i);
    UsersIndexed(cfg, ops, i);
    CreatedIsMade(cfg, Run(cfg, ops, i), ops[i]);
  }

  /** While a session stands, at its address or by its token, no step ends it. */
  lemma StandingIsNotEnded(cfg: Config, ops: seq<Op>, i: nat, j: nat, n: nat, ip: string)
    requires DrawsDistinct(ops) && i < j < n <= |ops|
    requires var es := SessionEvents(cfg, ops); History.Standing(es, i, n, ip) || History.TokenStanding(es, i, n)
    ensures !Ends(cfg, ops, j, History.Issued(SessionEvents(cfg, ops), i))
  {
    hide History.Standing, History.TokenStanding, Run, Drawn, SessionEvents, Made, Admit;
    SessionTokensDistinct(cfg, ops);
    History.StandingIsNotRevoked(SessionEvents(cfg, ops), i, j, n, ip);
    RunIsASessionRun(cfg, ops, j);
    SessionEventAt(cfg, ops, j);
  }

  /** A session that can be found by address at the end of a run was handed out by
      a login or an emergency issue for that very address, while its account was
      authorised, and nothing has ended it since. */
  lemma {:induction false} FoundByAddress(cfg: Config, ops: seq<Op>, n: nat, ip: string, s: Session)
    requires DrawsDistinct(ops) && n <= |ops|
    requires GetByClientIP(Run(cfg, ops, n).ks.book, Run(cfg, ops, n).ks.now, ip) == Some(s)
    ensures s.clientIP == ip
    ensures exists i :: 0 <= i < n && HandsOut(cfg, ops, i, s) && forall j :: i < j < n ==> !Ends(cfg, ops, j, s)
  {
    var es := SessionEvents(cfg, ops);
    SessionTokensDistinct(cfg, ops);
    RunIsASessionRun(cfg, ops, n);
    History.LookupByAddress(es, n, ip, s);
    var i :| 0 <= i < n && History.Standing(es, i, n, ip) && s == History.Issued(es, i);
    MadeIsIssued(cfg, ops, i);
    forall j | i < j < n ensures !Ends(cfg, ops, j, s) { StandingIsNotEnded(cfg, ops, i, j, n, ip); }
  }

  /** The same for a session found by its token. */
  lemma {:induction false} FoundByToken(cfg: Config, ops: seq<Op>, n: nat, token: string, s: Session)
    requires DrawsDistinct(ops) && n <= |ops|
    requires Get(Run(cfg, ops, n).ks.book, Run(cfg, ops, n).ks.now, token) == Some(s)
    ensures s.token == token
    ensures exists i :: 0 <= i < n && HandsOut(cfg, ops, i, s) && forall j :: i < j < n ==> !Ends(cfg, ops, j, s)
  {
    var es := SessionEvents(cfg, ops);
    SessionTokensDistinct(cfg, ops);
    RunIsASessionRun(cfg, ops, n);
    History.LookupByToken(es, n, token, s);
    var i :| 0 <= i < n && History.TokenStanding(es, i, n) && s == History.Issued(es, i) && s.token == token;
    MadeIsIssued(cfg, ops, i);
    forall j | i < j < n ensures !Ends(cfg, ops, j, s) { StandingIsNotEnded(cfg, ops, i, j, n, s.clientIP); }
  }

  /** In every state the server can reach, a complete scan lists exactly the sessions
      that can be looked up, and each of them was handed out and has not been ended. */
  lemma {:induction false} ListingInEveryRun(cfg: Config, ops: seq<Op>, n: nat, addresses: seq<string>, tokens: seq<string>,
                                             xs: seq<A.ActiveSession>)
    requires DrawsDistinct(ops) && n <= |ops|
    requires var ks := Run(cfg, ops, n).ks;
             && A.Complete(ks.book.addresses, ks.now, addresses) && A.Complete(ks.book.sessions, ks.now, tokens)
             && A.NewestFirst(xs) && A.Lists(xs, A.NoteAll(A.Sweep(ks.book, ks.now, addresses, tokens)))
    ensures A.ListsTheLive(xs, Run(cfg, ops, n).ks.book, Run(cfg, ops, n).ks.now)
    ensures forall x :: x in xs ==>
              exists i :: 0 <= i < n && HandsOut(cfg, ops, i, x.session) && forall j :: i < j < n ==> !Ends(cfg, ops, j, x.session)
  {
    hide Run, HandsOut, Ends, Agree, A.Complete, A.NewestFirst, A.Lists, Drawn;
    BookAgrees(cfg, ops, n);
    A.ListingIsLive(Run(cfg, ops, n).ks.book, Run(cfg, ops, n).ks.now, addresses, tokens, xs);
    forall x | x in xs
      ensures exists i :: 0 <= i < n && HandsOut(cfg, ops, i, x.session) && forall j :: i < j < n ==> !Ends(cfg, ops, j, x.session)
    {
      FoundByToken(cfg, ops, n, x.session.token, x.session);
    }
  }

  /** Whenever the VPN's question is answered yes, a session for that address was
      handed out while its account was authorised, nothing has ended it, it is
      within its time, the account is active now, and the certificate is either
      unnamed or the session's own. */
  lemma {:induction false} AdmissionIsEarned(cfg: Config, ops: seq<Op>, n: nat, ip: string, cn: string, s: Session)
    requires DrawsDistinct(ops) && n <= |ops|
    requires Admit(Run(cfg, ops, n).ks, Run(cfg, ops, n).users, ip, cn) == Admitted(s)
    ensures s.clientIP == ip
    ensures exists i :: 0 <= i < n && HandsOut(cfg, ops, i, s) && forall j :: i < j < n ==> !Ends(cfg, ops, j, s)
    ensures Run(cfg, ops, n).ks.now <= s.expires
    ensures IsAuthorised(Run(cfg, ops, n).users, s.email).Ok?
    ensures TrimSpace(cn) == "" || EqualFold(TrimSpace(cn), TrimSpace(s.email))
  {
    FoundByAddress(cfg, ops, n, ip, s);
  }

  // ---- closed accounts ----

  lemma ClosedStaysClosed(users: Users, op: Op, e: string)
    requires Indexed(users) && e in users && users[e].status != Active
    requires !(op.ReopenUser? && Normalise(op.email) == e)
    ensures var users' := UsersAfter(users, op); e in users' && users'[e].status != Active
  {
    hide TrimSpace, ToLower;
  }

  lemma {:induction false} Closed(cfg: Config, ops: seq<Op>, k: nat, n: nat, e: string)
    requires k < n <= |ops| && ops[k].CloseUser? && Normalise(ops[k].email) == e
    requires FindUser(Run(cfg, ops, k).users, ops[k].email).Ok?
    requires forall j :: k < j < n && ops[j].ReopenUser? ==> Normalise(ops[j].email) != e
    ensures var users := Run(cfg, ops, n).users; e in users && users[e].status != Active
    decreases n
  {
    hide KeysAfter;
    UsersIndexed(cfg, ops, n - 1);
    if n == k + 1 {
    } else {
      Closed(cfg, ops, k, n - 1, e);
      ClosedStaysClosed(Run(cfg, ops, n - 1).users, ops[n - 1], e);
    }
  }

  /** From the moment an account is closed until it is reopened, nobody is let on
      as it, no session is handed out for it, and no code is sent to it. */
  lemma {:induction false} ClosedAccountsAreShutOut(cfg: Config, ops: seq<Op>, k: nat, n: nat, e: string)
    requires k < n < |ops| && ops[k].CloseUser? && Normalise(ops[k].email) == e
    requires FindUser(Run(cfg, ops, k).users, ops[k].email).Ok?
    requires forall j :: k < j < n && ops[j].ReopenUser? ==> Normalise(ops[j].email) != e
    ensures forall ip, cn :: var a := Admit(Run(cfg, ops, n).ks, Run(cfg, ops, n).users, ip, cn);
              a.Admitted? ==> Normalise(a.session.email) != e
    ensures MadeAt(cfg, ops, n).Some? ==> MadeAt(cfg, ops, n).value.email != e
    ensures ops[n].AskForCode? && Normalise(ops[n].email) == e ==>
              Run(cfg, ops, n + 1).ks == Run(cfg, ops, n).ks
  {
    Closed(cfg, ops, k, n, e);
    UsersIndexed(cfg, ops, n);
    NormaliseIdempotent(ops[k].email);
  }

  // ---- emergency access ----

  /** The issue that minted a link and has not been redeemed since. */
  function PendingLink(cfg: Config, ops: seq<Op>, n: nat, code: string): (pending: Option<nat>)
    requires n <= |ops|
    ensures pending.Some? ==> pending.value < n
  {
    if n == 0 then None
    else if ops[n - 1].IssueEmergency? && ops[n - 1].code == code && MadeAt(cfg, ops, n - 1).Some? then Some(n - 1)
    else if ops[n - 1] == RedeemEmergency(code) && cfg.breakGlass then None
    else PendingLink(cfg, ops, n - 1, code)
  }

  lemma LinksMove(cfg: Config, s: State, op: Op, code: string)
    requires code != ""
    ensures var before, after := s.ks.links, Step(cfg, s, op).ks.links;
            if op.IssueEmergency? && op.code == code && Made(cfg, s, op).Some? then
              code in after && after[code] == Entry(op.token, Some(Made(cfg, s, op).value.expires))
            else if op == RedeemEmergency(code) && cfg.breakGlass then
              !Live(after, code, Step(cfg, s, op).ks.now)
            else (code in after <==> code in before) && (code in after ==> after[code] == before[code])
    ensures s.ks.now <= Step(cfg, s, op).ks.now
  {
    hide TrimSpace, ToLower, IsAuthorised, StateAccepted;
  }

  /** Step i issued the link, which is on file after n steps and was not redeemed
      in between. */
  ghost predicate LinkOnFile(cfg: Config, ops: seq<Op>, n: nat, code: string, i: nat)
    requires i < n <= |ops|
  {
    && ops[i].IssueEmergency? && ops[i].code == code && MadeAt(cfg, ops, i).Some?
    && code in Run(cfg, ops, n).ks.links
    && Run(cfg, ops, n).ks.links[code] == Entry(ops[i].token, Some(MadeAt(cfg, ops, i).value.expires))
    && (forall j :: i < j < n ==> ops[j] != RedeemEmergency(code) || !cfg.breakGlass)
  }

  lemma PendingLinkNext(cfg: Config, ops: seq<Op>, n: nat, code: string)
    requires n < |ops|
    ensures PendingLink(cfg, ops, n + 1, code) ==
            if ops[n].IssueEmergency? && ops[n].code == code && MadeAt(cfg, ops, n).Some? then Some(n)
            else if ops[n] == RedeemEmergency(code) && cfg.breakGlass then None
            else PendingLink(cfg, ops, n, code)
  {
    hide MadeAt;
  }

  lemma LinkIssued(cfg: Config, ops: seq<Op>, n: nat, code: string)
    requires n < |ops| && code != "" && ops[n].IssueEmergency? && ops[n].code == code && MadeAt(cfg, ops, n).Some?
    ensures LinkOnFile(cfg, ops, n + 1, code, n)
  {
    hide Step, Made;
    LinksMove(cfg, Run(cfg, ops, n), ops[n], code);
  }

  lemma LinkOnFileNext(cfg: Config, ops: seq<Op>, n: nat, code: string, i: nat)
    requires i < n < |ops| && code != "" && LinkOnFile(cfg, ops, n, code, i)
    requires !(ops[n].IssueEmergency? && ops[n].code == code && MadeAt(cfg, ops, n).Some?)
    requires !(ops[n] == RedeemEmergency(code) && cfg.breakGlass)
    ensures LinkOnFile(cfg, ops, n + 1, code, i)
  {
    hide Step, Made;
    LinksMove(cfg, Run(cfg, ops, n), ops[n], code);
  }

  lemma NoLinkNext(cfg: Config, ops: seq<Op>, n: nat, code: string)
    requires n < |ops| && code != ""
    requires !(ops[n].IssueEmergency? && ops[n].code == code && MadeAt(cfg, ops, n).Some?)
    requires || (ops[n] == RedeemEmergency(code) && cfg.breakGlass)
             || !Live(Run(cfg, ops, n).ks.links, code, Run(cfg, ops, n).ks.now)
    ensures !Live(Run(cfg, ops, n + 1).ks.links, code, Run(cfg, ops, n + 1).ks.now)
  {
    hide Step, Made;
    LinksMove(cfg, Run(cfg, ops, n), ops[n], code);
  }

  lemma NoLinkYet(cfg: Config, ops: seq<Op>, code: string)
    ensures PendingLink(cfg, ops, 0, code).None? && !Live(Run(cfg, ops, 0).ks.links, code, Run(cfg, ops, 0).ks.now)
  {
  }

  /** A link can be read exactly while it is pending and its session's time lasts. */
  lemma {:induction false} LiveLinkIsPending(cfg: Config, ops: seq<Op>, n: nat, code: string)
    requires n <= |ops| && code != ""
    ensures var ks, pending := Run(cfg, ops, n).ks, PendingLink(cfg, ops, n, code);
            && (pending.None? ==> !Live(ks.links, code, ks.now))
            && (pending.Some? ==> LinkOnFile(cfg, ops, n, code, pending.value))
  {
    hide Run, MadeAt, PendingLink, LinkOnFile;
    if n == 0 {
      NoLinkYet(cfg, ops, code);
    } else {
      PendingLinkNext(cfg, ops, n - 1, code);
      LiveLinkIsPending(cfg, ops, n - 1, code);
      var before, op := PendingLink(cfg, ops, n - 1, code), ops[n - 1];
      if op.IssueEmergency? && op.code == code && MadeAt(cfg, ops, n - 1).Some? {
        LinkIssued(cfg, ops, n - 1, code);
      } else if (op == RedeemEmergency(code) && cfg.breakGlass) || before.None? {
        NoLinkNext(cfg, ops, n - 1, code);
      } else {
        LinkOnFileNext(cfg, ops, n - 1, code, before.value);
      }
    }
  }

  predicate Redeems(cfg: Config, ops: seq<Op>, r: nat, code: string, s: Session)
    requires r < |ops|
  {
    ops[r] == RedeemEmergency(code) && Redeem(cfg, Run(cfg, ops, r).ks, code).1 == Ok(s)
  }

  /** What a redemption that succeeds found. */
  lemma RedeemsLiveLink(cfg: Config, ks: Keyspace, code: string)
    requires Redeem(cfg, ks, code).1.Ok?
    ensures code != "" && cfg.breakGlass && Live(ks.links, code, ks.now)
    ensures Get(ks.book, ks.now, ks.links[code].value) == Some(Redeem(cfg, ks, code).1.value)
  {
  }

  /** A redemption goes back to the one issue of its link, and nothing in between
      redeemed it. */
  lemma {:induction false} RedemptionHasIssue(cfg: Config, ops: seq<Op>, r: nat, code: string, s: Session)
    requires DrawsDistinct(ops) && r < |ops| && Redeems(cfg, ops, r, code, s)
    ensures code != "" && PendingLink(cfg, ops, r, code).Some?
    ensures var i := PendingLink(cfg, ops, r, code).value;
            && i < r && ops[i].IssueEmergency? && ops[i].code == code && MadeAt(cfg, ops, i) == Some(s)
            && Run(cfg, ops, r).ks.now < s.expires
            && forall j :: i < j < r ==> ops[j] != RedeemEmergency(code)
  {
    hide Run, Drawn, Redeem, Made;
    RedeemsLiveLink(cfg, Run(cfg, ops, r).ks, code);
    LiveLinkIsPending(cfg, ops, r, code);
    var i := PendingLink(cfg, ops, r, code).value;
    FoundByToken(cfg, ops, r, ops[i].token, s);
    var j :| 0 <= j < r && HandsOut(cfg, ops, j, s);
    IssuedTokenIs(cfg, Run(cfg, ops, i), ops[i]);
    HandedOutOnce(cfg, ops, i, j);
  }

  lemma IssuedTokenIs(cfg: Config, s: State, op: Op)
    requires op.IssueEmergency? && Made(cfg, s, op).Some?
    ensures Made(cfg, s, op).value.token == op.token
  {
  }

  /** A redeemed link returns exactly the session minted with it, within that
      session's life, and no earlier redemption of the link ever succeeded. */
  lemma {:induction false} RedemptionIsSound(cfg: Config, ops: seq<Op>, r: nat, code: string, s: Session)
    requires DrawsDistinct(ops) && r < |ops| && Redeems(cfg, ops, r, code, s)
    ensures exists i :: 0 <= i < r && ops[i].IssueEmergency? && ops[i].code == code && MadeAt(cfg, ops, i) == Some(s)
    ensures Run(cfg, ops, r).ks.now < s.expires
    ensures forall q, s' :: 0 <= q < r ==> !Redeems(cfg, ops, q, code, s')
  {
    hide Run, Redeem, Made, PendingLink;
    RedemptionHasIssue(cfg, ops, r, code, s);
    var i := PendingLink(cfg, ops, r, code).value;
    forall q, s' | 0 <= q < r ensures !Redeems(cfg, ops, q, code, s') {
      if Redeems(cfg, ops, q, code, s') { RedemptionHasIssue(cfg, ops, q, code, s'); }
    }
  }

  /** An emergency session lasts between a second and two hours. */
  lemma EmergencyIsShort(cfg: Config, s: State, op: Op)
    requires op.IssueEmergency? && Made(cfg, s, op).Some?
    ensures var made := Made(cfg, s, op).value;
            && made.issuedAt == s.ks.now && made.token == op.token
            && 0 < made.expires - made.issuedAt <= 2 * 60 * 60
  {
  }

  /** No disconnect, reconnect, VPN access or anything else in the run lets the
      session of an emergency issue be read, by token or by address, more than
      its lifetime after it was issued. */
  lemma {:induction false} EmergencyEndsOnTime(cfg: Config, ops: seq<Op>, i: nat, n: nat, key: string, s: Session)
    requires DrawsDistinct(ops) && i < n <= |ops| && ops[i].IssueEmergency? && MadeAt(cfg, ops, i).Some?
    requires var ks := Run(cfg, ops, n).ks;
             Get(ks.book, ks.now, key) == Some(s) || GetByClientIP(ks.book, ks.now, key) == Some(s)
    requires s.token == ops[i].token
    ensures s == MadeAt(cfg, ops, i).value
    ensures Run(cfg, ops, n).ks.now <= Run(cfg, ops, i).ks.now + EmergencyTtl(ops[i].ttl)
    ensures EmergencyTtl(ops[i].ttl) <= 2 * 60 * 60
  {
    hide Run, Drawn;
    var ks := Run(cfg, ops, n).ks;
    if Get(ks.book, ks.now, key) == Some(s) {
      FoundByToken(cfg, ops, n, key, s);
    } else {
      FoundByAddress(cfg, ops, n, key, s);
    }
    var j :| 0 <= j < n && HandsOut(cfg, ops, j, s);
    HandedOutOnce(cfg, ops, i, j);
  }
}
