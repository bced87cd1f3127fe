/** Redis as the server uses it: one map from keys to values that expire, a clock
    that only moves on, and the commands of the modelled code. */
module RedisStore {
  import opened Prelude
  import opened Cells
  import opened Login
  import opened Keys

  class Redis {
    var now: int
    var db: Db

    ghost predicate Valid()
      reads this
    {
      WellTyped(db)
    }

    /** The typed maps the keyspace stands for. */
    ghost function Contents(): (ks: Keyspace)
      reads this
      ensures ks.now == now
    {
      View(db, now)
    }

    constructor ()
      ensures Valid() && now == 0 && db == map[]
    {
      now, db := 0, map[];
    }

    method Wait(seconds: nat)
      requires Valid()
      modifies this
      ensures Valid() && now == old(now) + seconds && Contents() == old(Contents()).(now := now)
    {
      now := now + seconds;
    }

    method Get(f: Family, a: string) returns (v: Option<Value>)
      requires Valid()
      ensures v == Getting(Contents(), f, a)
      ensures v.Some? ==> HasType(f, v.value)
    {
      v := Read(db, Key(f, a), now);
      ViewGet(db, now, f, a);
    }

    method Set(f: Family, a: string, v: Value, ttl: int)
      requires Valid() && HasType(f, v) && 0 < ttl
      modifies this
      ensures Valid() && now == old(now)
      ensures Contents() == Setting(old(Contents()), f, a, v, Some(now + ttl))
    {
      hide View, Setting, WellTyped, Key;
      ViewPut(db, now, f, a, Entry(v, Some(now + ttl)));
      WellTypedPut(db, f, a, Entry(v, Some(now + ttl)));
      db := Put(db, Key(f, a), v, now, ttl);
    }

    method Del(f: Family, a: string)
      requires Valid()
      modifies this
      ensures Valid() && now == old(now)
      ensures Contents() == Deleting(old(Contents()), f, a)
    {
      ViewDrop(db, now, f, a);
      db := Drop(db, Key(f, a));
    }

    method Expire(f: Family, a: string, ttl: int)
      requires Valid()
      modifies this
      ensures Valid() && now == old(now)
      ensures Contents() == Expiring(old(Contents()), f, a, ttl)
    {
      hide View, Expiring, WellTyped, Key;
      ViewExpire(db, now, f, a, ttl);
      WellTypedExpire(db, now, f, a, ttl);
      db := SetExpiry(db, Key(f, a), now, ttl);
    }

    /** The counter after the increment. */
    method Incr(f: Family, a: string) returns (n: int)
      requires Valid() && (f == OTP_DAILY || f == OTP_ATTEMPTS)
      modifies this
      ensures Valid() && now == old(now)
      ensures n == Increment(Counter(old(Contents()), f), a, now)[a].value
      ensures Contents() == WithCounter(old(Contents()), f, Increment(Counter(old(Contents()), f), a, now))
    {
      hide View, WellTyped, Key, Counted, Counter, WithCounter;
      IncrementRefines(db, now, f, a);
      var e := Counted(db, now, Key(f, a));
      db := db[Key(f, a) := e];
      n := e.value.count;
    }

    /** The remaining life of a key: -2 when it is absent. */
    method TTL(f: Family, a: string) returns (seconds: int)
      requires Valid()
      ensures seconds == Ttl(db, Key(f, a), now)
      ensures f == OTP_COOLDOWN ==> seconds == Ttl(Contents().otp.cooldowns, a, now)
      ensures f == SESSION ==> seconds == Ttl(Contents().book.sessions, a, now)
      ensures f == AUTH ==> seconds == Ttl(Contents().book.addresses, a, now)
    {
      EntryAgrees(db, now, f, a);
      seconds := Ttl(db, Key(f, a), now);
    }

    /** GET and DEL in one script: the value, which is gone afterwards. */
    method GetDel(f: Family, a: string) returns (v: Option<Value>)
      requires Valid()
      modifies this
      ensures Valid() && now == old(now)
      ensures v == Getting(old(Contents()), f, a)
      ensures v.Some? ==> HasType(f, v.value)
      ensures Contents() == if v.Some? then Deleting(old(Contents()), f, a) else old(Contents())
    {
      v := Get(f, a);
      if v.Some? { Del(f, a); }
    }

    /** SCAN of one family, each key given by what follows its prefix: every live
        key turns up, in some order and possibly more than once, and so may keys
        that are already gone. */
    method Scan(f: Family) returns (found: seq<string>)
      requires Valid()
      ensures forall a :: Live(db, Key(f, a), now) ==> a in found
    {
      found := [];
      var left := Args(db, f);
      while left != {}
        invariant forall a :: Live(db, Key(f, a), now) ==> a in left || a in found
        decreases left
      {
        var a :| a in left;
        found := found + [a];
        left := left - {a};
      }
    }
  }
}
