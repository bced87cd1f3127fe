/** The one keyspace all of the server's state in Redis shares, and the typed maps
    it stands for. */
module Keys {
  import opened Prelude
  import opened Cells
  import opened Sessions
  import opened Otp
  import opened Login

  /** What a key holds: an encoded session, a piece of text or a counter. */
  datatype Value = SessionValue(session: Session) | TextValue(text: string) | CountValue(count: int)

  datatype Family = SESSION | AUTH | OTP | OTP_COOLDOWN | OTP_DAILY | OTP_ATTEMPTS | OTP_VERIFIED | OAUTH_STATE | BREAKGLASS

  function Prefix(f: Family): string {
    match f
    case SESSION => "session:"
    case AUTH => "auth:"
    case OTP => "otp:"
    case OTP_COOLDOWN => "otp_cooldown:"
    case OTP_DAILY => "otp_daily:"
    case OTP_ATTEMPTS => "otp_attempts:"
    case OTP_VERIFIED => "otp_verified:"
    case OAUTH_STATE => "oauth_state:"
    case BREAKGLASS => "breakglass:"
  }

  function Key(f: Family, arg: string): string {
    Prefix(f) + arg
  }

  /** No two families share a key, whatever the arguments, and within a family the
      key determines the argument. */
  lemma KeyInjective(f: Family, a: string, g: Family, b: string)
    ensures Key(f, a) == Key(g, b) <==> f == g && a == b
  {
    var k := Key(f, a);
    if k == Key(g, b) {
      assert k[0] == Prefix(f)[0] == Prefix(g)[0];
      assert k[1] == Prefix(f)[1] == Prefix(g)[1];
      assert k[3] == Prefix(f)[3] == Prefix(g)[3];
      if f.OTP? || g.OTP? {
      } else if Prefix(f)[3] == '_' {
        assert k[4] == Prefix(f)[4] == Prefix(g)[4];
        assert k[5] == Prefix(f)[5] == Prefix(g)[5];
      }
      assert f == g;
      assert a == k[|Prefix(f)|..];
    }
  }

  type Db = map<string, Entry<Value>>

  predicate HasType(f: Family, v: Value) {
    match f
    case SESSION | AUTH => v.SessionValue?
    case OTP_DAILY | OTP_ATTEMPTS => v.CountValue?
    case _ => v.TextValue?
  }

  ghost predicate WellTyped(db: Db) {
    forall f, a :: Key(f, a) in db ==> HasType(f, db[Key(f, a)].value)
  }

  // ---- the typed maps ----

  function Args(db: Db, f: Family): (args: set<string>)
    ensures forall a :: a in args <==> Key(f, a) in db
  {
    var p := Prefix(f);
    var args := set k | k in db && p <= k :: k[|p|..];
    assert forall a :: a in args ==> Key(f, a) in db by {
      forall a | a in args ensures Key(f, a) in db {
        var k :| k in db && p <= k && a == k[|p|..];
        assert Key(f, a) == k;
      }
    }
    assert forall a :: Key(f, a) in db ==> a in args by {
      forall a | Key(f, a) in db ensures a in args {
        assert a == Key(f, a)[|p|..];
      }
    }
    args
  }

  /** The typed map of one family. */
  function Slice<T>(db: Db, f: Family, decode: Value -> Option<T>): Cells<T> {
    map a | a in Args(db, f) && decode(db[Key(f, a)].value).Some?
      :: Entry(decode(db[Key(f, a)].value).value, db[Key(f, a)].deadline)
  }

  function AsSession(v: Value): Option<Session> { if v.SessionValue? then Some(v.session) else None }
  function AsText(v: Value): Option<string> { if v.TextValue? then Some(v.text) else None }
  function AsCount(v: Value): Option<int> { if v.CountValue? then Some(v.count) else None }

  function View(db: Db, now: int): Keyspace {
    Keyspace(now,
             Book(Slice(db, SESSION, AsSession), Slice(db, AUTH, AsSession)),
             Codes(Slice(db, OTP, AsText), Slice(db, OTP_COOLDOWN, AsText), Slice(db, OTP_DAILY, AsCount),
                   Slice(db, OTP_ATTEMPTS, AsCount), Slice(db, OTP_VERIFIED, AsText)),
             Slice(db, OAUTH_STATE, AsText), Slice(db, BREAKGLASS, AsText))
  }

  // ---- commands, on the typed maps ----

  function Wrap<T>(o: Option<T>, encode: T -> Value): Option<Value> {
    match o
    case None => None
    case Some(v) => Some(encode(v))
  }

  /** GET, and what it finds. */
  function Getting(ks: Keyspace, f: Family, a: string): Option<Value> {
    match f
    case SESSION => Wrap(Read(ks.book.sessions, a, ks.now), s => SessionValue(s))
    case AUTH => Wrap(Read(ks.book.addresses, a, ks.now), s => SessionValue(s))
    case OTP => Wrap(Read(ks.otp.codes, a, ks.now), t => TextValue(t))
    case OTP_COOLDOWN => Wrap(Read(ks.otp.cooldowns, a, ks.now), t => TextValue(t))
    case OTP_DAILY => Wrap(Read(ks.otp.daily, a, ks.now), n => CountValue(n))
    case OTP_ATTEMPTS => Wrap(Read(ks.otp.attempts, a, ks.now), n => CountValue(n))
    case OTP_VERIFIED => Wrap(Read(ks.otp.verified, a, ks.now), t => TextValue(t))
    case OAUTH_STATE => Wrap(Read(ks.states, a, ks.now), t => TextValue(t))
    case BREAKGLASS => Wrap(Read(ks.links, a, ks.now), t => TextValue(t))
  }

  /** The keyspace with one entry replaced. */
  function Setting(ks: Keyspace, f: Family, a: string, v: Value, deadline: Option<int>): Keyspace
    requires HasType(f, v)
  {
    match f
    case SESSION => ks.(book := ks.book.(sessions := ks.book.sessions[a := Entry(v.session, deadline)]))
    case AUTH => ks.(book := ks.book.(addresses := ks.book.addresses[a := Entry(v.session, deadline)]))
    case OTP => ks.(otp := ks.otp.(codes := ks.otp.codes[a := Entry(v.text, deadline)]))
    case OTP_COOLDOWN => ks.(otp := ks.otp.(cooldowns := ks.otp.cooldowns[a := Entry(v.text, deadline)]))
    case OTP_DAILY => ks.(otp := ks.otp.(daily := ks.otp.daily[a := Entry(v.count, deadline)]))
    case OTP_ATTEMPTS => ks.(otp := ks.otp.(attempts := ks.otp.attempts[a := Entry(v.count, deadline)]))
    case OTP_VERIFIED => ks.(otp := ks.otp.(verified := ks.otp.verified[a := Entry(v.text, deadline)]))
    case OAUTH_STATE => ks.(states := ks.states[a := Entry(v.text, deadline)])
    case BREAKGLASS => ks.(links := ks.links[a := Entry(v.text, deadline)])
  }

  function Deleting(ks: Keyspace, f: Family, a: string): Keyspace {
    match f
    case SESSION => ks.(book := ks.book.(sessions := Drop(ks.book.sessions, a)))
    case AUTH => ks.(book := ks.book.(addresses := Drop(ks.book.addresses, a)))
    case OTP => ks.(otp := ks.otp.(codes := Drop(ks.otp.codes, a)))
    case OTP_COOLDOWN => ks.(otp := ks.otp.(cooldowns := Drop(ks.otp.cooldowns, a)))
    case OTP_DAILY => ks.(otp := ks.otp.(daily := Drop(ks.otp.daily, a)))
    case OTP_ATTEMPTS => ks.(otp := ks.otp.(attempts := Drop(ks.otp.attempts, a)))
    case OTP_VERIFIED => ks.(otp := ks.otp.(verified := Drop(ks.otp.verified, a)))
    case OAUTH_STATE => ks.(states := Drop(ks.states, a))
    case BREAKGLASS => ks.(links := Drop(ks.links, a))
  }

  function Expiring(ks: Keyspace, f: Family, a: string, ttl: int): Keyspace {
    match f
    case SESSION => ks.(book := ks.book.(sessions := SetExpiry(ks.book.sessions, a, ks.now, ttl)))
    case AUTH => ks.(book := ks.book.(addresses := SetExpiry(ks.book.addresses, a, ks.now, ttl)))
    case OTP => ks.(otp := ks.otp.(codes := SetExpiry(ks.otp.codes, a, ks.now, ttl)))
    case OTP_COOLDOWN => ks.(otp := ks.otp.(cooldowns := SetExpiry(ks.otp.cooldowns, a, ks.now, ttl)))
    case OTP_DAILY => ks.(otp := ks.otp.(daily := SetExpiry(ks.otp.daily, a, ks.now, ttl)))
    case OTP_ATTEMPTS => ks.(otp := ks.otp.(attempts := SetExpiry(ks.otp.attempts, a, ks.now, ttl)))
    case OTP_VERIFIED => ks.(otp := ks.otp.(verified := SetExpiry(ks.otp.verified, a, ks.now, ttl)))
    case OAUTH_STATE => ks.(states := SetExpiry(ks.states, a, ks.now, ttl))
    case BREAKGLASS => ks.(links := SetExpiry(ks.links, a, ks.now, ttl))
  }

  // ---- the shared keyspace refines the typed maps ----

  /** One entry of a typed map. */
  function At<T>(db: Db, g: Family, b: string, decode: Value -> Option<T>): Option<Entry<T>> {
    if Key(g, b) in db && decode(db[Key(g, b)].value).Some?
    then Some(Entry(decode(db[Key(g, b)].value).value, db[Key(g, b)].deadline)) else None
  }

  lemma SliceAt<T>(db: Db, g: Family, b: string, decode: Value -> Option<T>)
    ensures b in Slice(db, g, decode) <==> At(db, g, b, decode).Some?
    ensures b in Slice(db, g, decode) ==> Slice(db, g, decode)[b] == At(db, g, b, decode).value
  {
  }

  lemma SlicePut<T>(db: Db, f: Family, a: string, e: Entry<Value>, g: Family, decode: Value -> Option<T>)
    ensures var after := Slice(db[Key(f, a) := e], g, decode);
            after == if f != g then Slice(db, g, decode)
                     else if decode(e.value).Some? then Slice(db, g, decode)[a := Entry(decode(e.value).value, e.deadline)]
                     else Slice(db, g, decode) - {a}
  {
    hide Key, Slice;
    var db' := db[Key(f, a) := e];
    var before, after := Slice(db, g, decode), Slice(db', g, decode);
    forall b
      ensures !(f == g && a == b) ==> (b in after <==> b in before) && (b in after ==> after[b] == before[b])
      ensures f == g && a == b ==> (b in after <==> decode(e.value).Some?)
      ensures f == g && a == b && decode(e.value).Some? ==> after[b] == Entry(decode(e.value).value, e.deadline)
    {
      KeyInjective(g, b, f, a);
      SliceAt(db, g, b, decode);
      SliceAt(db', g, b, decode);
    }
  }

  lemma SliceDrop<T>(db: Db, f: Family, a: string, g: Family, decode: Value -> Option<T>)
    ensures Slice(db - {Key(f, a)}, g, decode) ==
            if f == g then Slice(db, g, decode) - {a} else Slice(db, g, decode)
  {
    hide Key, Slice;
    var db' := db - {Key(f, a)};
    var before, after := Slice(db, g, decode), Slice(db', g, decode);
    forall b
      ensures !(f == g && a == b) ==> (b in after <==> b in before) && (b in after ==> after[b] == before[b])
      ensures f == g && a == b ==> b !in after
    {
      KeyInjective(g, b, f, a);
      SliceAt(db, g, b, decode);
      SliceAt(db', g, b, decode);
    }
  }

  lemma ViewPut(db: Db, now: int, f: Family, a: string, e: Entry<Value>)
    requires HasType(f, e.value)
    ensures View(db[Key(f, a) := e], now) == Setting(View(db, now), f, a, e.value, e.deadline)
  {
    hide Slice;
    SlicePut(db, f, a, e, SESSION, AsSession); SlicePut(db, f, a, e, AUTH, AsSession);
    SlicePut(db, f, a, e, OTP, AsText); SlicePut(db, f, a, e, OTP_COOLDOWN, AsText);
    SlicePut(db, f, a, e, OTP_DAILY, AsCount); SlicePut(db, f, a, e, OTP_ATTEMPTS, AsCount);
    SlicePut(db, f, a, e, OTP_VERIFIED, AsText); SlicePut(db, f, a, e, OAUTH_STATE, AsText);
    SlicePut(db, f, a, e, BREAKGLASS, AsText);
  }

  lemma ViewDrop(db: Db, now: int, f: Family, a: string)
    ensures View(db - {Key(f, a)}, now) == Deleting(View(db, now), f, a)
  {
    hide Slice;
    SliceDrop(db, f, a, SESSION, AsSession); SliceDrop(db, f, a, AUTH, AsSession);
    SliceDrop(db, f, a, OTP, AsText); SliceDrop(db, f, a, OTP_COOLDOWN, AsText);
    SliceDrop(db, f, a, OTP_DAILY, AsCount); SliceDrop(db, f, a, OTP_ATTEMPTS, AsCount);
    SliceDrop(db, f, a, OTP_VERIFIED, AsText); SliceDrop(db, f, a, OAUTH_STATE, AsText);
    SliceDrop(db, f, a, BREAKGLASS, AsText);
  }

  lemma WellTypedPut(db: Db, f: Family, a: string, e: Entry<Value>)
    requires WellTyped(db) && HasType(f, e.value)
    ensures WellTyped(db[Key(f, a) := e])
  {
    forall g, b ensures Key(g, b) == Key(f, a) <==> g == f && b == a { KeyInjective(g, b, f, a); }
  }

  /** The typed map of a family has an entry exactly where the keyspace has a key. */
  lemma EntryAgrees(db: Db, now: int, f: Family, a: string)
    requires WellTyped(db)
    ensures var k := Key(f, a);
            View(db, now).now == now
            && match f
               case SESSION => SameEntry(db, k, View(db, now).book.sessions, a, AsSession)
               case AUTH => SameEntry(db, k, View(db, now).book.addresses, a, AsSession)
               case OTP => SameEntry(db, k, View(db, now).otp.codes, a, AsText)
               case OTP_COOLDOWN => SameEntry(db, k, View(db, now).otp.cooldowns, a, AsText)
               case OTP_DAILY => SameEntry(db, k, View(db, now).otp.daily, a, AsCount)
               case OTP_ATTEMPTS => SameEntry(db, k, View(db, now).otp.attempts, a, AsCount)
               case OTP_VERIFIED => SameEntry(db, k, View(db, now).otp.verified, a, AsText)
               case OAUTH_STATE => SameEntry(db, k, View(db, now).states, a, AsText)
               case BREAKGLASS => SameEntry(db, k, View(db, now).links, a, AsText)
  {
  }

  ghost predicate SameEntry<T(!new)>(db: Db, k: string, m: Cells<T>, a: string, decode: Value -> Option<T>) {
    && (k in db <==> a in m)
    && (k in db ==> decode(db[k].value) == Some(m[a].value) && db[k].deadline == m[a].deadline)
  }

  lemma ViewGet(db: Db, now: int, f: Family, a: string)
    requires WellTyped(db)
    ensures Read(db, Key(f, a), now) == Getting(View(db, now), f, a)
  {
    assert Key(f, a) in db ==> HasType(f, db[Key(f, a)].value);
    hide View, Key;
    EntryAgrees(db, now, f, a);
  }

  lemma ViewExpire(db: Db, now: int, f: Family, a: string, ttl: int)
    requires WellTyped(db)
    ensures View(SetExpiry(db, Key(f, a), now, ttl), now) == Expiring(View(db, now), f, a, ttl)
  {
    hide View, Key;
    var k := Key(f, a);
    EntryAgrees(db, now, f, a);
    if Live(db, k, now) {
      if ttl <= 0 { ViewDrop(db, now, f, a); }
      else { ViewPut(db, now, f, a, Entry(db[k].value, Some(now + ttl))); }
    }
  }

  lemma WellTypedExpire(db: Db, now: int, f: Family, a: string, ttl: int)
    requires WellTyped(db)
    ensures WellTyped(SetExpiry(db, Key(f, a), now, ttl))
  {
  }

  /** What INCR stores at a counter. */
  function Counted(db: Db, now: int, k: string): (e: Entry<Value>)
    requires k in db ==> db[k].value.CountValue?
    ensures e.value.CountValue?
  {
    if Live(db, k, now) then Entry(CountValue(db[k].value.count + 1), db[k].deadline) else Entry(CountValue(1), None)
  }

  function Counter(ks: Keyspace, f: Family): Cells<int> {
    if f == OTP_DAILY then ks.otp.daily else ks.otp.attempts
  }

  function WithCounter(ks: Keyspace, f: Family, m: Cells<int>): Keyspace {
    if f == OTP_DAILY then ks.(otp := ks.otp.(daily := m)) else ks.(otp := ks.otp.(attempts := m))
  }

  lemma CountedAgrees(db: Db, now: int, k: string, m: Cells<int>, a: string)
    requires SameEntry(db, k, m, a, AsCount)
    ensures k in db ==> db[k].value.CountValue?
    ensures Increment(m, a, now) == m[a := Entry(Counted(db, now, k).value.count, Counted(db, now, k).deadline)]
  {
  }

  /** INCR counts in the typed map of its family. */
  lemma IncrementRefines(db: Db, now: int, f: Family, a: string)
    requires WellTyped(db) && (f == OTP_DAILY || f == OTP_ATTEMPTS)
    ensures Key(f, a) in db ==> db[Key(f, a)].value.CountValue?
    ensures var e, m := Counted(db, now, Key(f, a)), Increment(Counter(View(db, now), f), a, now);
            && WellTyped(db[Key(f, a) := e])
            && e.value.count == m[a].value
            && View(db[Key(f, a) := e], now) == WithCounter(View(db, now), f, m)
  {
    hide View, Key, WellTyped, SameEntry, Counted;
    EntryAgrees(db, now, f, a);
    CountedAgrees(db, now, Key(f, a), Counter(View(db, now), f), a);
    var e := Counted(db, now, Key(f, a));
    ViewPut(db, now, f, a, e);
    WellTypedPut(db, f, a, e);
  }

  /** The shared keyspace refines the typed maps: a GET finds what the typed map of
      its family holds, and SET, DEL and EXPIRE change that map and no other. */
  lemma CommandsRefine(db: Db, now: int, f: Family, a: string, v: Value, ttl: int)
    requires WellTyped(db) && HasType(f, v)
    ensures Read(db, Key(f, a), now) == Getting(View(db, now), f, a)
    ensures View(Put(db, Key(f, a), v, now, ttl), now) == Setting(View(db, now), f, a, v, Some(now + ttl))
    ensures View(Drop(db, Key(f, a)), now) == Deleting(View(db, now), f, a)
    ensures View(SetExpiry(db, Key(f, a), now, ttl), now) == Expiring(View(db, now), f, a, ttl)
  {
    hide View, Getting, Setting, Deleting, Expiring;
    ViewGet(db, now, f, a);
    ViewPut(db, now, f, a, Entry(v, Some(now + ttl)));
    ViewDrop(db, now, f, a);
    ViewExpire(db, now, f, a, ttl);
  }
}
