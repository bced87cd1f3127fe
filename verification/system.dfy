/** The whole server as a machine whose steps are its public operations, each one
    atomic, and runs of that machine. */
module System {
  import opened Prelude
  import opened Text
  import opened Sessions
  import opened Otp
  import opened Accounts
  import opened Login
  import History = SessionHistory
  import CodeHistory = OtpHistory

  /** Random values an operation draws, the answers of providers, of the domain
      allow-list and of the mail server are part of the operation. */
  datatype Op =
    | Tick(seconds: nat)
    | BeginLogin(provider: string, clientIP: string, state: string)
    | AskForCode(email: string, domainAllowed: bool, code: string, delivered: bool)
    | GiveCode(email: string, code: string, state: string)
    | CompleteLogin(provider: string, code: string, state: string, clientIP: string,
                    answer: Option<string>, domainAllowed: bool, token: string)
    | LogoutToken(token: string)
    | LogoutClientIP(clientIP: string)
    | VpnConnect(clientIP: string, commonName: string)
    | VpnDisconnect(clientIP: string)
    | IssueEmergency(email: string, clientIP: string, reason: string, ttl: int, token: string, code: string)
    | RedeemEmergency(code: string)
    | AddUser(email: string, id: nat)
    | CloseUser(email: string)
    | ReopenUser(email: string)
    | SetGroups(email: string, groups: seq<string>)

  datatype State = State(ks: Keyspace, users: Users)

  const EMPTY: State := State(Keyspace(0, Book(map[], map[]), NO_CODES, map[], map[]), map[])

  function UsersAfter(users: Users, op: Op): Users {
    match op
    case AddUser(email, id) => CreateUser(users, email, id).0
    case CloseUser(email) => DeactivateUser(users, email).0
    case ReopenUser(email) => ActivateUser(users, email).0
    case SetGroups(email, groups) =>
      (match FindUser(users, email)
       case Err(_) => users
       case Ok(user) => users[user.email := user.(groups := groups)])
    case _ => users
  }

  function KeysAfter(cfg: Config, ks: Keyspace, users: Users, op: Op): Keyspace {
    match op
    case Tick(seconds) => ks.(now := ks.now + seconds)
    case BeginLogin(provider, ip, state) => NewLoginAttempt(ks, provider, ip, state)
    case AskForCode(email, ok, code, delivered) => RequestCode(cfg, ks, users, email, ok, code, delivered).0
    case GiveCode(email, code, state) => VerifyCode(cfg, ks, email, code, state).0
    case CompleteLogin(provider, code, state, ip, answer, ok, token) =>
      Complete(cfg, ks, users, provider, code, state, ip, answer, ok, token).0
    case LogoutToken(token) => ks.(book := Revoke(ks.book, ks.now, token))
    case LogoutClientIP(ip) => ks.(book := RevokeByClientIP(ks.book, ks.now, ip))
    case VpnConnect(ip, cn) => Access(ks, users, ip, cn)
    case VpnDisconnect(ip) => ks.(book := Disconnected(ks.book, ks.now, ip))
    case IssueEmergency(email, ip, reason, ttl, token, code) =>
      Issue(ks, users, email, ip, reason, ttl, token, code).0
    case RedeemEmergency(code) => Redeem(cfg, ks, code).0
    case _ => ks
  }

  function Step(cfg: Config, s: State, op: Op): State {
    State(KeysAfter(cfg, s.ks, s.users, op), UsersAfter(s.users, op))
  }

  function Run(cfg: Config, ops: seq<Op>, n: nat): State
    requires n <= |ops|
  {
    if n == 0 then EMPTY else Step(cfg, Run(cfg, ops, n - 1), ops[n - 1])
  }

  /** The session an operation hands out, if it does: a login completed, or an
      emergency session issued. */
  function Made(cfg: Config, s: State, op: Op): Option<Session> {
    match op
    case CompleteLogin(provider, code, state, ip, answer, ok, token) =>
      (match Complete(cfg, s.ks, s.users, provider, code, state, ip, answer, ok, token).1
       case Ok(made) => Some(made)
       case Err(_) => None)
    case IssueEmergency(email, ip, reason, ttl, token, code) =>
      (match Issue(s.ks, s.users, email, ip, reason, ttl, token, code).1
       case Ok(made) => Some(made)
       case Err(_) => None)
    case _ => None
  }

  function MadeAt(cfg: Config, ops: seq<Op>, i: nat): Option<Session>
    requires i < |ops|
  {
    Made(cfg, Run(cfg, ops, i), ops[i])
  }

  /** The random values an operation draws: 256 bits each, so never the same twice. */
  function Drawn(op: Op): set<string> {
    match op
    case BeginLogin(_, _, state) => {state}
    case CompleteLogin(_, _, _, _, _, _, token) => {token}
    case IssueEmergency(_, _, _, _, token, code) => {token, code}
    case _ => {}
  }

  ghost predicate DrawsDistinct(ops: seq<Op>) {
    forall i, j :: 0 <= i < j < |ops| ==> Drawn(ops[i]) !! Drawn(ops[j])
  }

  // ---- what the server does, seen by the session store ----

  /** Each operation is at most one call on the session store. */
  function SessionEvent(cfg: Config, s: State, op: Op): History.Event {
    match op
    case Tick(seconds) => History.Advance(seconds)
    case LogoutToken(token) => History.Revoked(token)
    case LogoutClientIP(ip) => History.RevokedAt(ip)
    case VpnConnect(ip, cn) =>
      if Admit(s.ks, s.users, ip, cn).Admitted? then History.CameBack(ip) else History.Advance(0)
    case VpnDisconnect(ip) => History.WentAway(ip)
    case CompleteLogin(_, _, _, _, _, _, token) =>
      if Made(cfg, s, op).Some? then History.Created(cfg.ttl, Made(cfg, s, op).value, token) else History.Advance(0)
    case IssueEmergency(_, _, _, ttl, token, _) =>
      if Made(cfg, s, op).Some? then History.Created(EmergencyTtl(ttl), Made(cfg, s, op).value, token)
      else History.Advance(0)
    case _ => History.Advance(0)
  }

  function SessionEvents(cfg: Config, ops: seq<Op>): (es: seq<History.Event>)
    ensures |es| == |ops|
  {
    seq(|ops|, i requires 0 <= i < |ops| => SessionEvent(cfg, Run(cfg, ops, i), ops[i]))
  }

  lemma SessionEventAt(cfg: Config, ops: seq<Op>, i: nat)
    requires i < |ops|
    ensures SessionEvents(cfg, ops)[i] == SessionEvent(cfg, Run(cfg, ops, i), ops[i])
  {
  }

  function Desk(s: State): History.Desk {
    History.Desk(s.ks.now, s.ks.book)
  }

  lemma StepIsASessionEvent(cfg: Config, s: State, op: Op)
    ensures Desk(Step(cfg, s, op)) == History.Step(Desk(s), SessionEvent(cfg, s, op))
  {
  }

  /** A run of the server is, for the session store, a run of its own events. */
  lemma {:induction false} RunIsASessionRun(cfg: Config, ops: seq<Op>, n: nat)
    requires n <= |ops|
    ensures Desk(Run(cfg, ops, n)) == History.Run(SessionEvents(cfg, ops), n)
  {
    hide Step, SessionEvent, SessionEvents, History.Step;
    if n > 0 {
      RunIsASessionRun(cfg, ops, n - 1);
      SessionEventAt(cfg, ops, n - 1);
      StepIsASessionEvent(cfg, Run(cfg, ops, n - 1), ops[n - 1]);
    }
  }

  // ---- what the server does, seen by the code store ----

  function CodeEvent(cfg: Config, s: State, op: Op): CodeHistory.Event {
    match op
    case Tick(seconds) => CodeHistory.Advance(seconds)
    case AskForCode(email, ok, code, _) =>
      if cfg.otp && ok && IsAuthorised(s.users, Normalise(email)).Ok? then CodeHistory.Requested(email, code)
      else CodeHistory.Advance(0)
    case GiveCode(email, code, state) =>
      if cfg.otp then CodeHistory.Guessed(email, code, state) else CodeHistory.Advance(0)
    case CompleteLogin(provider, code, state, _, _, _, _) =>
      if provider in cfg.providers && provider == OTP_PROVIDER && StateAccepted(s.ks, state, provider)
      then CodeHistory.Exchanged(code) else CodeHistory.Advance(0)
    case _ => CodeHistory.Advance(0)
  }

  function CodeEvents(cfg: Config, ops: seq<Op>): (es: seq<CodeHistory.Event>)
    ensures |es| == |ops|
  {
    seq(|ops|, i requires 0 <= i < |ops| => CodeEvent(cfg, Run(cfg, ops, i), ops[i]))
  }

  lemma CodeEventAt(cfg: Config, ops: seq<Op>, i: nat)
    requires i < |ops|
    ensures CodeEvents(cfg, ops)[i] == CodeEvent(cfg, Run(cfg, ops, i), ops[i])
  {
  }

  function CodeDesk(s: State): CodeHistory.Desk {
    CodeHistory.Desk(s.ks.now, s.ks.otp)
  }

  lemma StepIsACodeEvent(cfg: Config, s: State, op: Op)
    ensures CodeDesk(Step(cfg, s, op)) == CodeHistory.Step(CodeDesk(s), CodeEvent(cfg, s, op))
  {
  }

  /** A run of the server is, for the code store, a run of its own events. */
  lemma {:induction false} RunIsACodeRun(cfg: Config, ops: seq<Op>, n: nat)
    requires n <= |ops|
    ensures CodeDesk(Run(cfg, ops, n)) == CodeHistory.Run(CodeEvents(cfg, ops), n)
  {
    hide Step, CodeEvent, CodeEvents, CodeHistory.Step;
    if n > 0 {
      RunIsACodeRun(cfg, ops, n - 1);
      CodeEventAt(cfg, ops, n - 1);
      StepIsACodeEvent(cfg, Run(cfg, ops, n - 1), ops[n - 1]);
    }
  }

  lemma SessionTokensDistinct(cfg: Config, ops: seq<Op>)
    requires DrawsDistinct(ops)
    ensures History.TokensDistinct(SessionEvents(cfg, ops))
  {
    hide SessionEvents, Run, Made, Admit;
    var es := SessionEvents(cfg, ops);
    forall i, j | 0 <= i < j < |es| && es[i].Created? && es[j].Created? ensures es[i].token != es[j].token {
      SessionEventAt(cfg, ops, i);
      SessionEventAt(cfg, ops, j);
      assert es[i].token in Drawn(ops[i]) && es[j].token in Drawn(ops[j]);
    }
  }

  lemma UsersStayIndexed(users: Users, op: Op)
    requires Indexed(users)
    ensures Indexed(UsersAfter(users, op))
  {
    if op.AddUser? { CreateTakesNothing(users, op.email, op.id); }
  }

  lemma {:induction false} UsersIndexed(cfg: Config, ops: seq<Op>, n: nat)
    requires n <= |ops|
    ensures Indexed(Run(cfg, ops, n).users)
  {
    if n > 0 {
      UsersIndexed(cfg, ops, n - 1);
      UsersStayIndexed(Run(cfg, ops, n - 1).users, ops[n - 1]);
    }
  }

  /** In every state the server can reach, the two views of a session agree. */
  lemma {:induction false} BookAgrees(cfg: Config, ops: seq<Op>, n: nat)
    requires n <= |ops| && DrawsDistinct(ops)
    ensures Agree(Run(cfg, ops, n).ks.book, Run(cfg, ops, n).ks.now)
  {
    hide Run, SessionEvents;
    SessionTokensDistinct(cfg, ops);
    RunIsASessionRun(cfg, ops, n);
    History.RunAgrees(SessionEvents(cfg, ops), n);
  }
}
