/** What the code store answers, told from the log of what was asked of it. */
module OtpHistory {
  import opened Prelude
  import opened Cells
  import opened Text
  import opened Otp

  datatype Event =
    | Advance(seconds: nat)
    | Requested(email: string, code: string)
    | Guessed(email: string, code: string, state: string)
    | Exchanged(code: string)

  datatype Desk = Desk(now: int, codes: Codes)

  function Step(d: Desk, e: Event): Desk {
    match e
    case Advance(seconds) => d.(now := d.now + seconds)
    case Requested(email, code) => d.(codes := Request(d.codes, d.now, Normalise(email), code))
    case Guessed(email, code, state) => d.(codes := Verify(d.codes, d.now, Normalise(email), TrimSpace(code), state))
    case Exchanged(code) => d.(codes := Exchange(d.codes, d.now, code))
  }

  function Run(es: seq<Event>, n: nat): Desk
    requires n <= |es|
  {
    if n == 0 then Desk(0, NO_CODES) else Step(Run(es, n - 1), es[n - 1])
  }

  // ---- the history side: a log for each address, with no store in sight ----

  datatype Grant = Grant(at: int, code: string)

  /** The codes granted to one address, and since the latest of them the number of
      wrong guesses and whether the right one was given. */
  datatype Log = Log(grants: seq<Grant>, wrong: nat, spent: bool)

  function Latest(log: Log): Grant
    requires log.grants != []
  {
    log.grants[|log.grants| - 1]
  }

  /** How many codes in a row lead up to this moment without a day's silence. */
  function Linked(grants: seq<Grant>, now: int): nat {
    if grants == [] then 0
    else
      var last := grants[|grants| - 1];
      if last.at + 24 * 60 * 60 <= now then 0 else 1 + Linked(grants[..|grants| - 1], last.at)
  }

  /** Whether a request would be granted: a minute since the last code, and fewer
      than ten codes without a day's silence between them. */
  function Denial(log: Log, now: int): Option<OtpError> {
    if log.grants != [] && now < Latest(log).at + 60 then Some(TooSoon)
    else if 10 <= Linked(log.grants, now) then Some(DailyLimit)
    else None
  }

  /** A code is on offer: under five minutes old, not used, not guessed at five times. */
  predicate OnOffer(log: Log, now: int) {
    log.grants != [] && now < Latest(log).at + 5 * 60 && !log.spent && log.wrong < 5
  }

  /** What a guess should be told. */
  function Judgement(log: Log, now: int, guess: string): Option<OtpError> {
    if !OnOffer(log, now) then Some(CodeExpired)
    else if guess == Latest(log).code then None
    else if log.wrong + 1 == 5 then Some(CodeExhausted)
    else Some(CodeWrong)
  }

  function RecordRequest(log: Log, now: int, code: string): Log {
    if Denial(log, now).None? then Log(log.grants + [Grant(now, code)], 0, false) else log
  }

  function RecordGuess(log: Log, guess: string): Log {
    if log.grants == [] then log
    else if guess == Latest(log).code then log.(spent := true)
    else log.(wrong := log.wrong + 1)
  }

  function Record(log: Log, now: int, e: Event, address: string): Log {
    match e
    case Requested(email, code) =>
      if Normalise(email) == address then RecordRequest(log, now, code) else log
    case Guessed(email, code, _) =>
      if Normalise(email) == address then RecordGuess(log, TrimSpace(code)) else log
    case _ => log
  }

  function Now(es: seq<Event>, n: nat): int
    requires n <= |es|
  {
    if n == 0 then 0 else Now(es, n - 1) + (if es[n - 1].Advance? then es[n - 1].seconds else 0)
  }

  function LogOf(es: seq<Event>, n: nat, address: string): Log
    requires n <= |es|
  {
    if n == 0 then Log([], 0, false) else Record(LogOf(es, n - 1, address), Now(es, n - 1), es[n - 1], address)
  }

  // ---- the refinement ----

  ghost predicate OrderedBefore(log: Log, now: int) {
    log.grants != [] ==> Latest(log).at <= now
  }

  /** What the keys of one address hold, given its log. The attempts counter of a
      code on offer never expires before the code does. */
  ghost predicate Matches(c: Codes, now: int, a: string, log: Log) {
    && OrderedBefore(log, now)
    && (log.grants == [] ==> a !in c.codes && a !in c.cooldowns && a !in c.daily)
    && (log.grants != [] ==>
          var last := Latest(log);
          && a in c.cooldowns && c.cooldowns[a].deadline == Some(last.at + OTP_COOLDOWN_SECONDS)
          && a in c.daily && c.daily[a] == Entry(Linked(log.grants, last.at), Some(last.at + OTP_DAILY_WINDOW))
          && (Live(c.codes, a, now) <==> OnOffer(log, now))
          && (OnOffer(log, now) ==> c.codes[a] == Entry(last.code, Some(last.at + OTP_TTL)))
          && (OnOffer(log, now) && log.wrong == 0 ==> a !in c.attempts)
          && (OnOffer(log, now) && log.wrong > 0 ==>
                a in c.attempts && c.attempts[a].value == log.wrong
                && c.attempts[a].deadline.Some? && last.at + OTP_TTL <= c.attempts[a].deadline.value))
  }

  /** The refusal of a request and the answer to a guess are those of the log. */
  lemma AnswersAgree(c: Codes, now: int, a: string, log: Log, guess: string)
    requires Matches(c, now, a, log)
    ensures Refusal(c, now, a) == Denial(log, now)
    ensures Verdict(c, now, a, guess) == Judgement(log, now, guess)
  {
  }

  /** The daily counter after a granted request: one more than the codes linked so far. */
  lemma CounterMatches(c: Codes, now: int, a: string, log: Log, grant: Grant)
    requires Matches(c, now, a, log) && grant.at == now
    ensures var grants := log.grants + [grant];
            SetExpiry(Increment(c.daily, a, now), a, now, OTP_DAILY_WINDOW)[a] ==
              Entry(Linked(grants, now), Some(now + OTP_DAILY_WINDOW))
  {
  }

  lemma RequestMatches(c: Codes, now: int, a: string, log: Log, code: string)
    requires Matches(c, now, a, log)
    ensures Matches(Request(c, now, a, code), now, a, RecordRequest(log, now, code))
  {
    AnswersAgree(c, now, a, log, code);
    if Denial(log, now).None? { CounterMatches(c, now, a, log, Grant(now, code)); }
  }

  lemma GuessMatches(c: Codes, now: int, a: string, log: Log, guess: string, state: string)
    requires Matches(c, now, a, log)
    ensures Matches(Verify(c, now, a, guess, state), now, a, RecordGuess(log, guess))
  {
  }

  /** The keys of one address are the same before and after. */
  ghost predicate Untouched(c: Codes, c': Codes, a: string) {
    && (a in c'.codes <==> a in c.codes) && (a in c.codes ==> c'.codes[a] == c.codes[a])
    && (a in c'.cooldowns <==> a in c.cooldowns) && (a in c.cooldowns ==> c'.cooldowns[a] == c.cooldowns[a])
    && (a in c'.daily <==> a in c.daily) && (a in c.daily ==> c'.daily[a] == c.daily[a])
    && (a in c'.attempts <==> a in c.attempts) && (a in c.attempts ==> c'.attempts[a] == c.attempts[a])
  }

  /** What happens at one address leaves the keys of every other alone. */
  lemma RequestElsewhere(c: Codes, now: int, a: string, other: string, code: string)
    requires other != a
    ensures Untouched(c, Request(c, now, other, code), a)
  {
  }

  lemma GuessElsewhere(c: Codes, now: int, a: string, other: string, guess: string, state: string)
    requires other != a
    ensures Untouched(c, Verify(c, now, other, guess, state), a)
  {
  }

  lemma UntouchedMatches(c: Codes, c': Codes, now: int, a: string, log: Log)
    requires Matches(c, now, a, log) && Untouched(c, c', a)
    ensures Matches(c', now, a, log)
  {
  }

  lemma MatchesLater(c: Codes, now: int, seconds: nat, a: string, log: Log)
    requires Matches(c, now, a, log)
    ensures Matches(c, now + seconds, a, log)
  {
  }

  lemma {:induction false} StoreMatchesLog(es: seq<Event>, n: nat, a: string)
    requires n <= |es|
    ensures Run(es, n).now == Now(es, n)
    ensures Matches(Run(es, n).codes, Now(es, n), a, LogOf(es, n, a))
  {
    if n > 0 {
      hide Matches, Request, Verify, RecordRequest, RecordGuess, TrimSpace, ToLower;
      StoreMatchesLog(es, n - 1, a);
      var d, log := Run(es, n - 1), LogOf(es, n - 1, a);
      match es[n - 1] {
        case Advance(seconds) => MatchesLater(d.codes, d.now, seconds, a, log);
        case Requested(email, code) =>
          if Normalise(email) == a { RequestMatches(d.codes, d.now, a, log, code); }
          else {
            RequestElsewhere(d.codes, d.now, a, Normalise(email), code);
            UntouchedMatches(d.codes, Run(es, n).codes, d.now, a, log);
          }
        case Guessed(email, code, state) =>
          if Normalise(email) == a { GuessMatches(d.codes, d.now, a, log, TrimSpace(code), state); }
          else {
            GuessElsewhere(d.codes, d.now, a, Normalise(email), TrimSpace(code), state);
            UntouchedMatches(d.codes, Run(es, n).codes, d.now, a, log);
          }
        case Exchanged(code) => UntouchedMatches(d.codes, Run(es, n).codes, d.now, a, log);
      }
    }
  }

  /** After any run, a request is granted or refused exactly as the log says. */
  lemma {:induction false} RequestRefinesHistory(es: seq<Event>, n: nat, a: string)
    requires n <= |es|
    ensures Refusal(Run(es, n).codes, Run(es, n).now, a) == Denial(LogOf(es, n, a), Now(es, n))
  {
    StoreMatchesLog(es, n, a);
    AnswersAgree(Run(es, n).codes, Now(es, n), a, LogOf(es, n, a), "");
  }

  /** After any run, a guess is accepted exactly when it is the code of the latest
      granted request for the address, under five minutes old, with fewer than
      five wrong guesses and no success since; and every refusal is the log's. */
  lemma {:induction false} VerifyRefinesHistory(es: seq<Event>, n: nat, a: string, guess: string)
    requires n <= |es|
    ensures var d, log := Run(es, n), LogOf(es, n, a);
            && Verdict(d.codes, d.now, a, guess) == Judgement(log, Now(es, n), guess)
            && (Verdict(d.codes, d.now, a, guess).None? <==>
                  && log.grants != [] && guess == Latest(log).code
                  && Now(es, n) < Latest(log).at + 5 * 60 && log.wrong < 5 && !log.spent)
  {
    StoreMatchesLog(es, n, a);
    AnswersAgree(Run(es, n).codes, Now(es, n), a, LogOf(es, n, a), guess);
  }
}
