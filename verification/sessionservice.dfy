/** SessionService (internal/auth/session.go): the store's methods, each proved to
    do what its function in Sessions says. */
module SessionStore {
  import opened Prelude
  import opened Cells
  import opened Sessions
  import opened Login
  import opened Keys
  import opened RedisStore
  import A = Active

  class SessionService {
    const rdb: Redis
    const ttl: Lifetime

    constructor (rdb: Redis, ttl: int)
      ensures this.rdb == rdb && this.ttl == LifetimeOf(ttl)
    {
      this.rdb := rdb;
      this.ttl := LifetimeOf(ttl);
    }

    ghost function Keyspace(): (ks: Keyspace)
      reads rdb
      ensures ks.now == rdb.now
    {
      rdb.Contents()
    }

    /** token is the fresh random value. */
    method Create(draft: Session, token: string) returns (s: Session)
      requires rdb.Valid()
      modifies rdb
      ensures rdb.Valid() && rdb.now == old(rdb.now)
      ensures s == Stamp(draft, token, rdb.now, ttl)
      ensures Keyspace() == WithSession(old(Keyspace()), ttl, draft, token)
    {
      hide View;
      s := draft.(token := token, issuedAt := rdb.now);
      s := s.(expires := s.issuedAt + ttl);
      rdb.Set(SESSION, token, SessionValue(s), ttl);
      if s.clientIP != "" {
        rdb.Set(AUTH, s.clientIP, SessionValue(s), ttl);
      }
    }

    method Fetch(f: Family, key: string) returns (r: Result<Session, Error>)
      requires rdb.Valid() && (f == SESSION || f == AUTH)
      ensures var b := Keyspace().book;
              var found := Sessions.Fetch(if f == SESSION then b.sessions else b.addresses, key, rdb.now);
              r == if found.Some? then Ok(found.value) else Err(NoSession)
    {
      hide View;
      var v := rdb.Get(f, key);
      match v {
        case None => return Err(NoSession);
        case Some(SessionValue(s)) =>
          if rdb.now > s.expires { return Err(NoSession); }
          return Ok(s);
        case Some(_) => return Err(Undecodable);
      }
    }

    method Get(token: string) returns (r: Result<Session, Error>)
      requires rdb.Valid()
      ensures var found := Sessions.Get(Keyspace().book, rdb.now, token);
              r == if found.Some? then Ok(found.value) else Err(NoSession)
    {
      hide View;
      r := Fetch(SESSION, token);
    }

    method GetByClientIP(clientIP: string) returns (r: Result<Session, Error>)
      requires rdb.Valid()
      ensures var found := Sessions.GetByClientIP(Keyspace().book, rdb.now, clientIP);
              r == if found.Some? then Ok(found.value) else Err(NoSession)
    {
      hide View;
      r := Fetch(AUTH, clientIP);
    }

    method Revoke(token: string)
      requires rdb.Valid()
      modifies rdb
      ensures rdb.Valid() && rdb.now == old(rdb.now)
      ensures Keyspace() == old(Keyspace()).(book := Sessions.Revoke(old(Keyspace()).book, rdb.now, token))
    {
      hide View;
      var r := Get(token);
      rdb.Del(SESSION, token);
      if r.Ok? && r.value.clientIP != "" {
        rdb.Del(AUTH, r.value.clientIP);
      }
    }

    method RevokeByClientIP(clientIP: string)
      requires rdb.Valid()
      modifies rdb
      ensures rdb.Valid() && rdb.now == old(rdb.now)
      ensures Keyspace() == old(Keyspace()).(book := Sessions.RevokeByClientIP(old(Keyspace()).book, rdb.now, clientIP))
    {
      hide View;
      var r := GetByClientIP(clientIP);
      if r.Ok? {
        Revoke(r.value.token);
      }
    }

    method Disconnected(clientIP: string) returns (r: Result<(), Error>)
      requires rdb.Valid()
      modifies rdb
      ensures rdb.Valid() && rdb.now == old(rdb.now)
      ensures Keyspace() == old(Keyspace()).(book := Sessions.Disconnected(old(Keyspace()).book, rdb.now, clientIP))
      ensures r == if Sessions.GetByClientIP(old(Keyspace()).book, rdb.now, clientIP).Some? then Ok(()) else Err(NoSession)
    {
      hide View;
      var found := GetByClientIP(clientIP);
      match found {
        case Err(e) => return Err(e);
        case Ok(s) =>
          rdb.Expire(AUTH, clientIP, DISCONNECT_GRACE);
          rdb.Expire(SESSION, s.token, DISCONNECT_GRACE);
          return Ok(());
      }
    }

    method Reconnected(clientIP: string) returns (r: Result<(), Error>)
      requires rdb.Valid()
      modifies rdb
      ensures rdb.Valid() && rdb.now == old(rdb.now)
      ensures Keyspace() == old(Keyspace()).(book := Sessions.Reconnected(old(Keyspace()).book, rdb.now, clientIP))
      ensures r == if Sessions.GetByClientIP(old(Keyspace()).book, rdb.now, clientIP).Some? then Ok(()) else Err(NoSession)
    {
      hide View;
      var found := GetByClientIP(clientIP);
      match found {
        case Err(e) => return Err(e);
        case Ok(s) =>
          rdb.Expire(AUTH, clientIP, s.expires - rdb.now);
          rdb.Expire(SESSION, s.token, s.expires - rdb.now);
          return Ok(());
      }
    }

    /** One pattern of the sweep: every key of the family that can be read is noted. */
    method SweepFamily(f: Family, keys: seq<string>, before: A.Tally, ghost gs: seq<A.Sighting>) returns (byToken: A.Tally)
      requires rdb.Valid() && (f == SESSION || f == AUTH) && before == A.NoteAll(gs)
      ensures var b := Keyspace().book;
              byToken == A.NoteAll(gs + A.Seen(if f == AUTH then b.addresses else b.sessions, rdb.now, keys, f == AUTH))
    {
      hide View;
      ghost var cells := if f == AUTH then Keyspace().book.addresses else Keyspace().book.sessions;
      byToken := before;
      assert gs + [] == gs;
      for i := 0 to |keys|
        invariant byToken == A.NoteAll(gs + A.Seen(cells, rdb.now, keys[..i], f == AUTH))
      {
        A.NoteNext(gs, cells, rdb.now, keys, i, f == AUTH);
        var r := Fetch(f, keys[i]);
        if r.Ok? {
          var ttl := rdb.TTL(f, keys[i]);
          byToken := A.Note(byToken, A.Sighting(r.value, f == AUTH, ttl));
        }
      }
      assert keys[..|keys|] == keys;
    }

    /** The live sessions, newest first. */
    method Active() returns (out: seq<A.ActiveSession>, ghost addresses: seq<string>, ghost tokens: seq<string>)
      requires rdb.Valid()
      ensures A.Complete(Keyspace().book.addresses, rdb.now, addresses)
      ensures A.Complete(Keyspace().book.sessions, rdb.now, tokens)
      ensures A.NewestFirst(out) && A.Lists(out, A.NoteAll(A.Sweep(Keyspace().book, rdb.now, addresses, tokens)))
      ensures Agree(Keyspace().book, rdb.now) ==> A.ListsTheLive(out, Keyspace().book, rdb.now)
    {
      hide View;
      var auths := rdb.Scan(AUTH);
      var sessions := rdb.Scan(SESSION);
      addresses, tokens := auths, sessions;
      var byToken := SweepFamily(AUTH, auths, map[], []);
      ghost var seen := A.Seen(Keyspace().book.addresses, rdb.now, auths, true);
      assert [] + seen == seen;
      byToken := SweepFamily(SESSION, sessions, byToken, seen);
      forall a ensures Live(Keyspace().book.addresses, a, rdb.now) ==> Live(rdb.db, Key(AUTH, a), rdb.now) {
        EntryAgrees(rdb.db, rdb.now, AUTH, a);
      }
      forall a ensures Live(Keyspace().book.sessions, a, rdb.now) ==> Live(rdb.db, Key(SESSION, a), rdb.now) {
        EntryAgrees(rdb.db, rdb.now, SESSION, a);
      }
      ghost var gs := A.Sweep(Keyspace().book, rdb.now, addresses, tokens);
      forall t | t in byToken ensures byToken[t].session.token == t { A.TallySumsUp(gs, t); }
      out := Newest(byToken);
      if Agree(Keyspace().book, rdb.now) { A.ListingIsLive(Keyspace().book, rdb.now, addresses, tokens, out); }
    }

    method Newest(byToken: A.Tally) returns (out: seq<A.ActiveSession>)
      requires forall t :: t in byToken ==> byToken[t].session.token == t
      ensures A.NewestFirst(out) && A.Lists(out, byToken)
    {
      out := [];
      var left := byToken.Keys;
      while left != {}
        invariant left <= byToken.Keys && A.NewestFirst(out) && A.TokensApart(out)
        invariant forall t :: t in byToken && t !in left ==> byToken[t] in out
        invariant forall x :: x in out ==> x.session.token in byToken && x.session.token !in left && byToken[x.session.token] == x
        decreases left
      {
        var t :| t in left;
        A.InsertApart(byToken[t], out);
        out := A.Insert(byToken[t], out);
        left := left - {t};
      }
    }
  }
}
