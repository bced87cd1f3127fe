/** The login flow (internal/auth/service.go), emergency access
    (internal/auth/breakglass.go) and the VPN's question
    (internal/api/vpnapi/vpn.go), as functions on the keyspace and the accounts. */
module Login {
  import opened Prelude
  import opened Text
  import opened Cells
  import opened Sessions
  import opened Otp
  import opened Accounts

  /** Every key family at one moment. */
  datatype Keyspace = Keyspace(
    now: int, book: Book, otp: Codes,
    states: Cells<string>, links: Cells<string>)

  /** A deployment: the registered providers, the session lifetime, and which
      optional services have been enabled. */
  datatype Config = Config(providers: set<string>, ttl: Lifetime, otp: bool, breakGlass: bool)

  datatype Error =
    | UnknownProvider | BadState | IdentityNotVerified | DomainBlocked
    | Account(account: AccountError) | NoSession | OtpDisabled | Code(code: OtpError)
    | NoReason | TooLong | NoBreakGlass | Undecodable

  const STATE_TTL := 10 * 60
  const BREAK_GLASS_DEFAULT: int := 15 * 60
  const BREAK_GLASS_MAX: int := 2 * 60 * 60

  const OTP_PROVIDER: string := "otp"
  const BREAK_GLASS_PROVIDER: string := "break-glass"

  // ---- login attempts ----

  function StateValue(provider: string, clientIP: string): string {
    provider + "|" + clientIP
  }

  function NewLoginAttempt(ks: Keyspace, provider: string, clientIP: string, state: string): Keyspace {
    ks.(states := Put(ks.states, state, StateValue(provider, clientIP), ks.now, STATE_TTL))
  }

  /** Whether a state token lets this provider's login go on. */
  predicate StateAccepted(ks: Keyspace, state: string, provider: string) {
    && state != ""
    && Read(ks.states, state, ks.now).Some?
    && HasPrefix(Read(ks.states, state, ks.now).value, provider + "|")
  }

  /** A token that could be read is spent, accepted or not. */
  function ConsumeState(ks: Keyspace, state: string): Keyspace {
    if state != "" && Live(ks.states, state, ks.now) then ks.(states := Drop(ks.states, state)) else ks
  }

  // ---- completing a login ----

  /** What the provider says, as its Exchange is called: the code provider reads
      its own key; any other provider answers from outside. */
  function Identity(ks: Keyspace, provider: string, code: string, answer: Option<string>): Option<string> {
    if provider == OTP_PROVIDER then Earned(ks.otp, ks.now, code) else answer
  }

  function AfterExchange(ks: Keyspace, provider: string, code: string): Keyspace {
    if provider == OTP_PROVIDER then ks.(otp := Exchange(ks.otp, ks.now, code)) else ks
  }

  function Draft(user: User, provider: string, clientIP: string): Session {
    Session("", user.id, user.email, provider, user.groups, clientIP, 0, 0)
  }

  /** The keyspace with a session created in it. */
  function WithSession(ks: Keyspace, ttl: Lifetime, draft: Session, token: string): Keyspace {
    ks.(book := Create(ks.book, ks.now, ttl, draft, token))
  }

  function Complete(cfg: Config, ks: Keyspace, users: Users, provider: string, code: string, state: string,
                    clientIP: string, answer: Option<string>, domainAllowed: bool, token: string)
    : (Keyspace, Result<Session, Error>)
  {
    if provider !in cfg.providers then (ks, Err(UnknownProvider))
    else
      var ks1 := ConsumeState(ks, state);
      if !StateAccepted(ks, state, provider) then (ks1, Err(BadState))
      else
        var ks2 := AfterExchange(ks1, provider, code);
        match Identity(ks1, provider, code, answer)
        case None => (ks2, Err(IdentityNotVerified))
        case Some(email) =>
          if !domainAllowed then (ks2, Err(DomainBlocked))
          else
            match IsAuthorised(users, email)
            case Err(e) => (ks2, Err(Account(e)))
            case Ok(user) =>
              var draft := Draft(user, provider, clientIP);
              (WithSession(ks2, cfg.ttl, draft, token), Ok(Stamp(draft, token, ks.now, cfg.ttl)))
  }

  // ---- codes ----

  /** A refusal to send is silent unless it is a rate limit or a failed delivery. */
  function RequestCode(cfg: Config, ks: Keyspace, users: Users, email: string, domainAllowed: bool,
                       code: string, delivered: bool): (Keyspace, Option<Error>)
  {
    var a := Normalise(email);
    if !cfg.otp then (ks, Some(OtpDisabled))
    else if !domainAllowed || IsAuthorised(users, a).Err? then (ks, None)
    else
      var ks' := ks.(otp := Request(ks.otp, ks.now, a, code));
      match Refusal(ks.otp, ks.now, a)
      case Some(e) => (ks', Some(Code(e)))
      case None => (ks', if delivered then None else Some(Code(NotDelivered)))
  }

  function VerifyCode(cfg: Config, ks: Keyspace, email: string, code: string, state: string): (Keyspace, Option<Error>) {
    if !cfg.otp then (ks, Some(OtpDisabled))
    else
      var a, guess := Normalise(email), TrimSpace(code);
      (ks.(otp := Verify(ks.otp, ks.now, a, guess, state)),
       match Verdict(ks.otp, ks.now, a, guess)
       case None => None
       case Some(e) => Some(Code(e)))
  }

  // ---- emergency access ----

  function EmergencyTtl(ttl: int): Lifetime {
    if ttl <= 0 then BREAK_GLASS_DEFAULT else ttl
  }

  function Issue(ks: Keyspace, users: Users, email: string, clientIP: string, reason: string, ttl: int,
                 token: string, code: string): (Keyspace, Result<Session, Error>)
  {
    if reason == "" then (ks, Err(NoReason))
    else if BREAK_GLASS_MAX < ttl then (ks, Err(TooLong))
    else
      match IsAuthorised(users, email)
      case Err(e) => (ks, Err(Account(e)))
      case Ok(user) =>
        var life := EmergencyTtl(ttl);
        var draft := Draft(user, BREAK_GLASS_PROVIDER, clientIP);
        var ks1 := WithSession(ks, life, draft, token);
        (ks1.(links := Put(ks1.links, code, token, ks.now, life)), Ok(Stamp(draft, token, ks.now, life)))
  }

  function Redeem(cfg: Config, ks: Keyspace, code: string): (Keyspace, Result<Session, Error>) {
    if !cfg.breakGlass || code == "" then (ks, Err(NoBreakGlass))
    else
      match Read(ks.links, code, ks.now)
      case None => (ks, Err(NoBreakGlass))
      case Some(token) =>
        var ks1 := ks.(links := Drop(ks.links, code));
        if token == "" then (ks1, Err(NoBreakGlass))
        else
          match Get(ks.book, ks.now, token)
          case None => (ks1, Err(NoBreakGlass))
          case Some(s) => (ks1, Ok(s))
  }

  // ---- the gate ----

  predicate SameIdentity(commonName: string, email: string) {
    var name := TrimSpace(commonName);
    name == "" || EqualFold(name, TrimSpace(email))
  }

  datatype Admission = NoSessionHere | SomebodyElse | NoLongerAuthorised | Admitted(session: Session)

  function Admit(ks: Keyspace, users: Users, clientIP: string, commonName: string): Admission {
    match GetByClientIP(ks.book, ks.now, clientIP)
    case None => NoSessionHere
    case Some(s) =>
      if !SameIdentity(commonName, s.email) then SomebodyElse
      else if IsAuthorised(users, s.email).Err? then NoLongerAuthorised
      else Admitted(s)
  }

  /** A client that is let on gets its session's full life back. */
  function Access(ks: Keyspace, users: Users, clientIP: string, commonName: string): Keyspace {
    if Admit(ks, users, clientIP, commonName).Admitted?
    then ks.(book := Reconnected(ks.book, ks.now, clientIP)) else ks
  }

  // ---- state tokens and the provider they were minted for ----

  /** A state minted for p is accepted for q exactly when they are the same
      provider, given that provider names hold no bar. */
  lemma StateBindsProvider(p: string, q: string, clientIP: string)
    requires '|' !in p && '|' !in q
    ensures HasPrefix(StateValue(p, clientIP), q + "|") <==> p == q
  {
    var v := StateValue(p, clientIP);
    if HasPrefix(v, q + "|") {
      assert v[|q|] == (q + "|")[|q|] == '|';
      assert v[|p|] == '|';
      assert p == v[..|p|] && q == (q + "|")[..|q|];
    }
    if p == q { assert v[..|q| + 1] == q + "|"; }
  }

  /** The stored client address plays no part: a login begun at one address can be
      completed from any other, and its session is for the address it is completed
      from. That is the client the state records only when the two are the same. */
  lemma StateIgnoresClient(cfg: Config, ks: Keyspace, users: Users, provider: string, minted: string, state: string,
                           t: int, code: string, clientIP: string, answer: Option<string>, token: string)
    requires provider in cfg.providers && state != "" && ks.now <= t < ks.now + STATE_TTL
    requires var who := Identity(ks.(now := t), provider, code, answer); who.Some? && IsAuthorised(users, who.value).Ok?
    ensures var begun := NewLoginAttempt(ks, provider, minted, state).(now := t);
            var (ks', r) := Complete(cfg, begun, users, provider, code, state, clientIP, answer, true, token);
            && r.Ok? && Get(ks'.book, t, token) == Some(r.value) && r.value.clientIP == clientIP
            && (clientIP != "" ==> GetByClientIP(ks'.book, t, clientIP) == Some(r.value))
            && (Read(begun.states, state, t) == Some(StateValue(provider, r.value.clientIP)) <==> clientIP == minted)
  {
  }

  // ---- what a completed login took, and what it leaves ----

  /** What a completed login leaves: a session for that account, found by its token
      and by its address from now on; and, completed or not, the state and the
      verification it used are spent, and nobody else's are. */
  lemma CompleteLeaves(cfg: Config, ks: Keyspace, users: Users, provider: string, code: string, state: string,
                       clientIP: string, answer: Option<string>, domainAllowed: bool, token: string, other: string)
    requires provider in cfg.providers
    ensures var (ks', r) := Complete(cfg, ks, users, provider, code, state, clientIP, answer, domainAllowed, token);
            && (r.Ok? ==>
                  && Get(ks'.book, ks.now, token) == Some(r.value)
                  && (clientIP != "" ==> GetByClientIP(ks'.book, ks.now, clientIP) == Some(r.value))
                  && r.value.provider == provider && r.value.clientIP == clientIP
                  && r.value.expires == ks.now + cfg.ttl)
            && (r.Err? ==> ks'.book == ks.book)
            && !StateAccepted(ks', state, provider)
            && (StateAccepted(ks, state, provider) && provider == OTP_PROVIDER ==> Earned(ks'.otp, ks.now, code).None?)
            && (other != state ==> StateAccepted(ks', other, provider) == StateAccepted(ks, other, provider))
            && (other != code ==> Earned(ks'.otp, ks.now, other) == Earned(ks.otp, ks.now, other))
  {
  }

  /** "The caller learns nothing about whether an address could sign in" holds of
      the answer exactly as long as no rate limit and no failed delivery is
      reported: an address that may not sign in is always answered with silence,
      one that may is answered so exactly when a code was granted and delivered. */
  lemma SilentAnswerIff(cfg: Config, ks: Keyspace, users: Users, email: string, domainAllowed: bool,
                        code: string, delivered: bool)
    requires cfg.otp
    ensures var may := domainAllowed && IsAuthorised(users, Normalise(email)).Ok?;
            var (ks', answer) := RequestCode(cfg, ks, users, email, domainAllowed, code, delivered);
            && (answer.None? <==> may ==> Refusal(ks.otp, ks.now, Normalise(email)).None? && delivered)
            && (!may ==> ks' == ks)
  {
  }

  /** Asked twice in a row, the answers for an address that may sign in and for one
      that may not tell them apart. */
  lemma AskingTwiceTellsThemApart(cfg: Config, ks: Keyspace, users: Users, known: string, unknown: string,
                                  code: string, again: string)
    requires cfg.otp && Refusal(ks.otp, ks.now, Normalise(known)).None?
    requires IsAuthorised(users, Normalise(known)).Ok? && IsAuthorised(users, Normalise(unknown)).Err?
    ensures var ks1 := RequestCode(cfg, ks, users, known, true, code, true).0;
            RequestCode(cfg, ks1, users, known, true, again, true).1 == Some(Code(TooSoon))
    ensures var ks1 := RequestCode(cfg, ks, users, unknown, true, code, true).0;
            RequestCode(cfg, ks1, users, unknown, true, again, true).1 == None
  {
  }
}
