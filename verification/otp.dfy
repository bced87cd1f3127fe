/** One-time sign-in codes (internal/auth/otp.go) as functions on their five key
    families. Addresses here are already normalised and guesses already trimmed, as
    the first lines of both operations leave them. */
module Otp {
  import opened Prelude
  import opened Cells

  const OTP_TTL := 5 * 60
  const OTP_COOLDOWN_SECONDS := 60
  const OTP_DAILY_LIMIT := 10
  const OTP_DAILY_WINDOW := 24 * 60 * 60
  const OTP_MAX_TRIES := 5
  const VERIFIED_TTL := 2 * 60

  datatype OtpError = CodeExpired | CodeWrong | CodeExhausted | TooSoon | DailyLimit | NotVerified | NotDelivered

  /** otp:, otp_cooldown:, otp_daily:, otp_attempts: and otp_verified:. */
  datatype Codes = Codes(
    codes: Cells<string>, cooldowns: Cells<string>, daily: Cells<int>,
    attempts: Cells<int>, verified: Cells<string>)

  const NO_CODES: Codes := Codes(map[], map[], map[], map[], map[])

  /** Why a request is refused, if it is. */
  function Refusal(c: Codes, now: int, address: string): Option<OtpError> {
    if 0 < Ttl(c.cooldowns, address, now) then Some(TooSoon)
    else
      var count := Read(c.daily, address, now);
      if count.Some? && OTP_DAILY_LIMIT <= count.value then Some(DailyLimit) else None
  }

  /** The state a request leaves; code is the freshly generated one. */
  function Request(c: Codes, now: int, a: string, code: string): Codes {
    if Refusal(c, now, a).Some? then c
    else c.(codes := Put(c.codes, a, code, now, OTP_TTL),
            cooldowns := Put(c.cooldowns, a, "1", now, OTP_COOLDOWN_SECONDS),
            daily := SetExpiry(Increment(c.daily, a, now), a, now, OTP_DAILY_WINDOW),
            attempts := Drop(c.attempts, a))
  }

  /** What a guess at an address is told. */
  function Verdict(c: Codes, now: int, a: string, guess: string): Option<OtpError> {
    match Read(c.codes, a, now)
    case None => Some(CodeExpired)
    case Some(stored) =>
      if stored == guess then None
      else if OTP_MAX_TRIES <= Increment(c.attempts, a, now)[a].value then Some(CodeExhausted)
      else Some(CodeWrong)
  }

  /** The attempts counter after one more wrong guess. */
  function CountAttempt(attempts: Cells<int>, address: string, now: int): Cells<int> {
    var counted := Increment(attempts, address, now);
    if counted[address].value == 1 then SetExpiry(counted, address, now, OTP_TTL) else counted
  }

  function Verify(c: Codes, now: int, a: string, guess: string, state: string): Codes {
    match Verdict(c, now, a, guess)
    case None => c.(codes := Drop(c.codes, a), attempts := Drop(c.attempts, a),
                    verified := Put(c.verified, state, a, now, VERIFIED_TTL))
    case Some(CodeWrong) => c.(attempts := CountAttempt(c.attempts, a, now))
    case Some(CodeExhausted) => c.(codes := Drop(c.codes, a), attempts := Drop(c.attempts, a))
    case Some(_) => c
  }

  /** The address a verified login attempt earned. */
  function Earned(c: Codes, now: int, code: string): Option<string> {
    Read(c.verified, code, now)
  }

  function Exchange(c: Codes, now: int, code: string): Codes {
    if Earned(c, now, code).None? then c else c.(verified := Drop(c.verified, code))
  }
}
