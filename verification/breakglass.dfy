/** BreakGlass (internal/auth/breakglass.go): emergency sessions and the links that
    redeem them. */
module Emergency {
  import opened Prelude
  import opened Sessions
  import opened Accounts
  import opened Login
  import opened Keys
  import opened RedisStore
  import opened SessionStore
  import opened UserStore

  class BreakGlass {
    const rdb: Redis
    const sessions: SessionService
    const users: UserService

    constructor (rdb: Redis, sessions: SessionService, users: UserService)
      ensures this.rdb == rdb && this.sessions == sessions && this.users == users
    {
      this.rdb, this.sessions, this.users := rdb, sessions, users;
    }

    /** A store of its own, so that the short lifetime applies to this session alone. */
    method NewSession(user: User, clientIP: string, ttl: Lifetime, token: string) returns (s: Session)
      requires rdb.Valid()
      modifies rdb
      ensures rdb.Valid() && rdb.now == old(rdb.now)
      ensures s == Stamp(Draft(user, BREAK_GLASS_PROVIDER, clientIP), token, rdb.now, ttl)
      ensures rdb.Contents() == WithSession(old(rdb.Contents()), ttl, Draft(user, BREAK_GLASS_PROVIDER, clientIP), token)
    {
      hide View;
      var short := new SessionService(rdb, ttl);
      s := short.Create(Draft(user, BREAK_GLASS_PROVIDER, clientIP), token);
    }

    method Issue(email: string, clientIP: string, reason: string, ttl: int, token: string, code: string)
      returns (r: Result<Session, Error>)
      requires rdb.Valid()
      modifies rdb
      ensures rdb.Valid() && rdb.now == old(rdb.now)
      ensures (rdb.Contents(), r) == Login.Issue(old(rdb.Contents()), users.users, email, clientIP, reason, ttl, token, code)
    {
      hide View;
      if reason == "" { return Err(NoReason); }
      var life := ttl;
      if ttl <= 0 {
        life := BREAK_GLASS_DEFAULT;
      } else if ttl > BREAK_GLASS_MAX {
        return Err(TooLong);
      }
      var user := users.IsAuthorised(email);
      if user.Err? { return Err(Account(user.error)); }
      var s := NewSession(user.value, clientIP, life, token);
      rdb.Set(BREAKGLASS, code, TextValue(s.token), life);
      return Ok(s);
    }

    method Redeem(code: string) returns (r: Result<Session, Error>)
      requires rdb.Valid() && sessions.rdb == rdb
      modifies rdb
      ensures rdb.Valid() && rdb.now == old(rdb.now)
      ensures forall cfg: Config :: cfg.breakGlass ==> (rdb.Contents(), r) == Login.Redeem(cfg, old(rdb.Contents()), code)
    {
      hide View;
      if code == "" { return Err(NoBreakGlass); }
      var token := rdb.GetDel(BREAKGLASS, code);
      if token.None? || token.value.text == "" { return Err(NoBreakGlass); }
      var s := sessions.Get(token.value.text);
      if s == Err(NoSession) { return Err(NoBreakGlass); }
      return s;
    }
  }
}
