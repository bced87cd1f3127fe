/** Service (internal/auth/service.go): the authentication flow, put together from
    the stores. */
module AuthService {
  import opened Prelude
  import opened Text
  import opened Sessions
  import opened Login
  import opened Keys
  import opened RedisStore
  import opened SessionStore
  import opened CodeStore
  import opened UserStore
  import opened Emergency
  import A = Active

  class Service {
    const rdb: Redis
    const providers: set<string>
    const sessions: SessionService
    const users: UserService
    const codes: OtpStore
    const emergency: BreakGlass

    /** Set by the Enable methods. */
    var otp: bool
    var breakGlass: bool
    var reconnect: bool

    /** Whose clients have been asked to reconnect. */
    var restarted: seq<string>

    ghost predicate Valid()
      reads this, rdb, users
    {
      && rdb.Valid() && users.Valid()
      && sessions.rdb == rdb && codes.rdb == rdb
      && emergency.rdb == rdb && emergency.users == users && emergency.sessions == sessions
    }

    ghost function Keyspace(): (ks: Keyspace)
      reads rdb
      ensures ks.now == rdb.now
    {
      rdb.Contents()
    }

    function Deployment(): Config
      reads this
    {
      Config(providers, sessions.ttl, otp, breakGlass)
    }

    constructor (rdb: Redis, providers: set<string>, sessions: SessionService, users: UserService,
                 codes: OtpStore, emergency: BreakGlass)
      requires rdb.Valid() && users.Valid()
      requires sessions.rdb == rdb && codes.rdb == rdb
      requires emergency.rdb == rdb && emergency.users == users && emergency.sessions == sessions
      ensures Valid() && this.rdb == rdb && this.users == users && this.sessions == sessions
      ensures Deployment() == Config(providers, sessions.ttl, false, false)
      ensures !reconnect && restarted == []
    {
      this.rdb, this.providers, this.sessions, this.users := rdb, providers, sessions, users;
      this.codes, this.emergency := codes, emergency;
      otp, breakGlass, reconnect, restarted := false, false, false, [];
    }

    method EnableOTP()
      modifies this`otp
      ensures Deployment() == old(Deployment()).(otp := true)
    {
      otp := true;
    }

    method EnableBreakGlass()
      modifies this`breakGlass
      ensures Deployment() == old(Deployment()).(breakGlass := true)
    {
      breakGlass := true;
    }

    method EnableReconnect()
      modifies this`reconnect
      ensures reconnect
    {
      reconnect := true;
    }

    /** state is the fresh random token. */
    method NewLoginAttempt(provider: string, clientIP: string, state: string)
      requires Valid()
      modifies rdb
      ensures Valid() && rdb.now == old(rdb.now)
      ensures Keyspace() == Login.NewLoginAttempt(old(Keyspace()), provider, clientIP, state)
    {
      hide View;
      rdb.Set(OAUTH_STATE, state, TextValue(StateValue(provider, clientIP)), STATE_TTL);
    }

    /** Begin: only a registered provider's login can be started. */
    method Begin(provider: string, clientIP: string, state: string) returns (e: Option<Error>)
      requires Valid()
      modifies rdb
      ensures Valid() && rdb.now == old(rdb.now)
      ensures e == if provider in providers then None else Some(UnknownProvider)
      ensures Keyspace() == if provider in providers
                            then Login.NewLoginAttempt(old(Keyspace()), provider, clientIP, state)
                            else old(Keyspace())
    {
      if provider !in providers { return Some(UnknownProvider); }
      NewLoginAttempt(provider, clientIP, state);
      return None;
    }

    /** consumeState: a token that was there is gone, whether or not it was accepted. */
    method SpendState(state: string, provider: string) returns (accepted: bool)
      requires Valid()
      modifies rdb
      ensures Valid() && rdb.now == old(rdb.now)
      ensures accepted == StateAccepted(old(Keyspace()), state, provider)
      ensures Keyspace() == ConsumeState(old(Keyspace()), state)
    {
      hide View;
      if state == "" { return false; }
      var value := rdb.GetDel(OAUTH_STATE, state);
      return value.Some? && HasPrefix(value.value.text, provider + "|");
    }

    /** The provider's Exchange; answer is what a provider other than the code
        provider says, if it vouches for anyone. */
    method ExchangeIdentity(provider: string, code: string, answer: Option<string>) returns (email: Option<string>)
      requires Valid()
      modifies rdb
      ensures Valid() && rdb.now == old(rdb.now)
      ensures email == Identity(old(Keyspace()), provider, code, answer)
      ensures Keyspace() == AfterExchange(old(Keyspace()), provider, code)
    {
      hide View;
      if provider == OTP_PROVIDER {
        email := codes.Exchange(code);
      } else {
        email := answer;
      }
    }

    method Complete(provider: string, code: string, state: string, clientIP: string,
                    answer: Option<string>, domainAllowed: bool, token: string)
      returns (r: Result<Session, Error>)
      requires Valid()
      modifies rdb, this`restarted
      ensures Valid() && rdb.now == old(rdb.now)
      ensures (Keyspace(), r) == Login.Complete(Deployment(), old(Keyspace()), users.users, provider, code, state,
                                                clientIP, answer, domainAllowed, token)
      ensures restarted == if r.Ok? && reconnect then old(restarted) + [r.value.email] else old(restarted)
    {
      hide View;
      if provider !in providers { return Err(UnknownProvider); }
      var accepted := SpendState(state, provider);
      if !accepted { return Err(BadState); }

      var email := ExchangeIdentity(provider, code, answer);
      if email.None? { return Err(IdentityNotVerified); }
      if !domainAllowed { return Err(DomainBlocked); }

      var user := users.IsAuthorised(email.value);
      if user.Err? { return Err(Account(user.error)); }

      var s := sessions.Create(Draft(user.value, provider, clientIP), token);
      if reconnect { restarted := restarted + [s.email]; }
      return Ok(s);
    }

    method RequestCode(email: string, domainAllowed: bool, code: string, delivered: bool) returns (e: Option<Error>)
      requires Valid()
      modifies rdb
      ensures Valid() && rdb.now == old(rdb.now)
      ensures (Keyspace(), e) ==
              Login.RequestCode(Deployment(), old(Keyspace()), users.users, email, domainAllowed, code, delivered)
    {
      hide View, TrimSpace, ToLower;
      if !otp { return Some(OtpDisabled); }
      var a := Normalise(email);
      NormaliseIdempotent(email);
      if !domainAllowed { return None; }
      var user := users.IsAuthorised(a);
      if user.Err? { return None; }
      var refused := codes.Request(a, code, delivered);
      return if refused.Some? then Some(Code(refused.value)) else None;
    }

    method VerifyCode(email: string, code: string, state: string) returns (e: Option<Error>)
      requires Valid()
      modifies rdb
      ensures Valid() && rdb.now == old(rdb.now)
      ensures (Keyspace(), e) == Login.VerifyCode(Deployment(), old(Keyspace()), email, code, state)
    {
      hide View, TrimSpace, ToLower;
      if !otp { return Some(OtpDisabled); }
      var refused := codes.Verify(email, code, state);
      return if refused.Some? then Some(Code(refused.value)) else None;
    }

    method RedeemBreakGlass(code: string) returns (r: Result<Session, Error>)
      requires Valid()
      modifies rdb
      ensures Valid() && rdb.now == old(rdb.now)
      ensures (Keyspace(), r) == Login.Redeem(Deployment(), old(Keyspace()), code)
    {
      hide View;
      if !breakGlass { return Err(NoBreakGlass); }
      r := emergency.Redeem(code);
    }

    method Logout(token: string)
      requires Valid()
      modifies rdb
      ensures Valid() && rdb.now == old(rdb.now)
      ensures Keyspace() == old(Keyspace()).(book := Revoke(old(Keyspace()).book, rdb.now, token))
    {
      hide View;
      sessions.Revoke(token);
    }

    method LogoutClientIP(clientIP: string)
      requires Valid()
      modifies rdb
      ensures Valid() && rdb.now == old(rdb.now)
      ensures Keyspace() == old(Keyspace()).(book := RevokeByClientIP(old(Keyspace()).book, rdb.now, clientIP))
    {
      hide View;
      sessions.RevokeByClientIP(clientIP);
    }

    method FindSession(token: string) returns (r: Result<Session, Error>)
      requires Valid()
      ensures r == match Get(Keyspace().book, rdb.now, token) case Some(s) => Ok(s) case None => Err(NoSession)
    {
      hide View;
      r := sessions.Get(token);
    }

    method SessionForClientIP(clientIP: string) returns (r: Result<Session, Error>)
      requires Valid()
      ensures r == match GetByClientIP(Keyspace().book, rdb.now, clientIP) case Some(s) => Ok(s) case None => Err(NoSession)
    {
      hide View;
      r := sessions.GetByClientIP(clientIP);
    }

    /** Who is on the network at this moment. */
    method ActiveSessions() returns (out: seq<A.ActiveSession>)
      requires Valid()
      ensures Agree(Keyspace().book, rdb.now) ==> A.ListsTheLive(out, Keyspace().book, rdb.now)
    {
      hide View, A.ListsTheLive, Agree;
      ghost var addresses, tokens;
      out, addresses, tokens := sessions.Active();
    }

    method SignedIn(clientIP: string) returns (yes: bool)
      requires Valid()
      ensures yes <==> GetByClientIP(Keyspace().book, rdb.now, clientIP).Some?
    {
      hide View;
      var r := sessions.GetByClientIP(clientIP);
      return r.Ok?;
    }

    /** A client that had no session to shorten is no error. */
    method ClientDisconnected(clientIP: string) returns (r: Result<(), Error>)
      requires Valid()
      modifies rdb
      ensures Valid() && rdb.now == old(rdb.now) && r == Ok(())
      ensures Keyspace() == old(Keyspace()).(book := Disconnected(old(Keyspace()).book, rdb.now, clientIP))
    {
      hide View;
      r := sessions.Disconnected(clientIP);
      if r == Err(NoSession) { return Ok(()); }
    }

    method ClientReconnected(clientIP: string) returns (r: Result<(), Error>)
      requires Valid()
      modifies rdb
      ensures Valid() && rdb.now == old(rdb.now)
      ensures Keyspace() == old(Keyspace()).(book := Reconnected(old(Keyspace()).book, rdb.now, clientIP))
      ensures r == if GetByClientIP(old(Keyspace()).book, rdb.now, clientIP).Some? then Ok(()) else Err(NoSession)
    {
      hide View;
      r := sessions.Reconnected(clientIP);
    }
  }
}
