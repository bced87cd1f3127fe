/** OTPStore and its provider (internal/auth/otp.go): the methods, each proved to do
    what its function in Otp says. */
module CodeStore {
  import opened Prelude
  import opened Text
  import opened Numerals
  import opened Cells
  import opened Otp
  import opened Keys
  import opened RedisStore

  const OTP_LENGTH: nat := 6

  function Pow10(k: nat): (p: nat)
    ensures p > 0
  {
    if k == 0 then 1 else 10 * Pow10(k - 1)
  }

  /** The decimal numeral of n, w digits wide. */
  function Padded(n: nat, w: nat): (s: string)
    ensures |s| == w && AllDigits(s)
  {
    if w == 0 then "" else Padded(n / 10, w - 1) + [DigitChar(n % 10)]
  }

  /** The numbers below 10^w and the strings of w digits are the same thing: no two
      draws give one code, and no code of that length is left out. */
  lemma {:induction false} PaddedIsExact(n: nat, w: nat)
    requires n < Pow10(w)
    ensures ValueOf(Padded(n, w)) == n
  {
    if w > 0 {
      PaddedIsExact(n / 10, w - 1);
      var s := Padded(n, w);
      assert s[..w - 1] == Padded(n / 10, w - 1);
    }
  }

  lemma {:induction false} EveryCodeIsDrawn(s: string)
    requires AllDigits(s)
    ensures ValueOf(s) < Pow10(|s|) && Padded(ValueOf(s), |s|) == s
  {
    if s != "" {
      EveryCodeIsDrawn(s[..|s| - 1]);
      assert s == s[..|s| - 1] + [s[|s| - 1]];
    } 
  }

  class OtpStore {
    const rdb: Redis

    constructor (rdb: Redis)
      ensures this.rdb == rdb
    {
      this.rdb := rdb;
    }

    /** draw is what the random source was asked for: a number below the bound that
        the loop computes. */
    method GenerateCode(draw: nat) returns (code: string)
      ensures |code| == OTP_LENGTH && AllDigits(code)
      ensures ValueOf(code) == draw % 1_000_000
    {
      var max := 1;
      for i := 0 to OTP_LENGTH
        invariant max == Pow10(i)
      {
        max := max * 10;
      }
      assert max == 1_000_000;
      code := Padded(draw % max, OTP_LENGTH);
      PaddedIsExact(draw % max, OTP_LENGTH);
    }

    /** What a granted request writes: the code, the cooldown, the count of the day
        with its expiry pushed back, and no attempts. */
    method Record(a: string, code: string)
      requires rdb.Valid()
      modifies rdb
      ensures rdb.Valid() && rdb.now == old(rdb.now)
      ensures var before := old(rdb.Contents());
              var c := before.otp;
              rdb.Contents() == before.(otp := c.(
                codes := Put(c.codes, a, code, rdb.now, OTP_TTL),
                cooldowns := Put(c.cooldowns, a, "1", rdb.now, OTP_COOLDOWN_SECONDS),
                daily := SetExpiry(Increment(c.daily, a, rdb.now), a, rdb.now, OTP_DAILY_WINDOW),
                attempts := Drop(c.attempts, a)))
    {
      hide View;
      rdb.Set(OTP, a, TextValue(code), OTP_TTL);
      rdb.Set(OTP_COOLDOWN, a, TextValue("1"), OTP_COOLDOWN_SECONDS);
      var _ := rdb.Incr(OTP_DAILY, a);
      rdb.Expire(OTP_DAILY, a, OTP_DAILY_WINDOW);
      rdb.Del(OTP_ATTEMPTS, a);
    }

    /** code is the freshly generated one; delivered is the mail server's answer. */
    method Request(email: string, code: string, delivered: bool) returns (e: Option<OtpError>)
      requires rdb.Valid()
      modifies rdb
      ensures rdb.Valid() && rdb.now == old(rdb.now)
      ensures var before := old(rdb.Contents());
              && rdb.Contents() == before.(otp := Otp.Request(before.otp, rdb.now, Normalise(email), code))
              && var refusal := Refusal(before.otp, rdb.now, Normalise(email));
                 e == if refusal.Some? then refusal else if delivered then None else Some(NotDelivered)
    {
      hide View, TrimSpace, ToLower, Put, SetExpiry, Increment, Drop;
      var a := Normalise(email);
      var ttl := rdb.TTL(OTP_COOLDOWN, a);
      if ttl > 0 { return Some(TooSoon); }
      var count := rdb.Get(OTP_DAILY, a);
      if count.Some? && count.value.count >= OTP_DAILY_LIMIT { return Some(DailyLimit); }

      Record(a, code);
      return if delivered then None else Some(NotDelivered);
    }

    method Verify(email: string, code: string, state: string) returns (e: Option<OtpError>)
      requires rdb.Valid()
      modifies rdb
      ensures rdb.Valid() && rdb.now == old(rdb.now)
      ensures var before, a, guess := old(rdb.Contents()), Normalise(email), TrimSpace(code);
              && rdb.Contents() == before.(otp := Otp.Verify(before.otp, rdb.now, a, guess, state))
              && e == Verdict(before.otp, rdb.now, a, guess)
    {
      hide View, TrimSpace, ToLower;
      var a := Normalise(email);
      var guess := TrimSpace(code);
      var stored := rdb.Get(OTP, a);
      if stored.None? { return Some(CodeExpired); }

      if stored.value.text != guess {
        var attempts := rdb.Incr(OTP_ATTEMPTS, a);
        if attempts == 1 {
          rdb.Expire(OTP_ATTEMPTS, a, OTP_TTL);
        }
        if attempts >= OTP_MAX_TRIES {
          rdb.Del(OTP, a);
          rdb.Del(OTP_ATTEMPTS, a);
          return Some(CodeExhausted);
        }
        return Some(CodeWrong);
      }

      rdb.Del(OTP, a);
      rdb.Del(OTP_ATTEMPTS, a);
      rdb.Set(OTP_VERIFIED, state, TextValue(a), VERIFIED_TTL);
      return None;
    }

    /** OTPProvider.Exchange: the address a verified attempt earned, once. */
    method Exchange(code: string) returns (email: Option<string>)
      requires rdb.Valid()
      modifies rdb
      ensures rdb.Valid() && rdb.now == old(rdb.now)
      ensures email == Earned(old(rdb.Contents()).otp, rdb.now, code)
      ensures rdb.Contents() == old(rdb.Contents()).(otp := Otp.Exchange(old(rdb.Contents()).otp, rdb.now, code))
    {
      hide View;
      var v := rdb.Get(OTP_VERIFIED, code);
      if v.None? { return None; }
      rdb.Del(OTP_VERIFIED, code);
      return Some(v.value.text);
    }
  }
}
