/** Exactly when a login completes, told from the operations of a run alone: what was
    begun, asked for, guessed and completed before, and who had an account. */
module SignIn {
  import opened Prelude
  import opened Text
  import opened Cells
  import opened Otp
  import opened Accounts
  import opened Login
  import opened System
  import opened Conservation
  import CodeHistory = OtpHistory

  // ---- the history side, with no store in sight ----

  function Clock(ops: seq<Op>, n: nat): int
    requires n <= |ops|
  {
    if n == 0 then 0 else Clock(ops, n - 1) + (if ops[n - 1].Tick? then ops[n - 1].seconds else 0)
  }

  function UsersAt(ops: seq<Op>, n: nat): Users
    requires n <= |ops|
  {
    if n == 0 then map[] else UsersAfter(UsersAt(ops, n - 1), ops[n - 1])
  }

  /** The log of codes sent to an address and guesses made at it. */
  function LogAt(cfg: Config, ops: seq<Op>, n: nat, a: string): CodeHistory.Log
    requires n <= |ops|
  {
    if n == 0 then CodeHistory.Log([], 0, false)
    else
      var log := LogAt(cfg, ops, n - 1, a);
      match ops[n - 1]
      case AskForCode(email, ok, code, _) =>
        if cfg.otp && ok && Normalise(email) == a && IsAuthorised(UsersAt(ops, n - 1), a).Ok?
        then CodeHistory.RecordRequest(log, Clock(ops, n - 1), code) else log
      case GiveCode(email, code, _) =>
        if cfg.otp && Normalise(email) == a then CodeHistory.RecordGuess(log, TrimSpace(code)) else log
      case _ => log
  }

  /** An attempt for this provider is pending under the state, and under ten minutes old. */
  predicate MayComplete(cfg: Config, ops: seq<Op>, n: nat, state: string, provider: string)
    requires n <= |ops|
  {
    && state != ""
    && var pending := PendingAttempt(cfg, ops, n, state);
       && pending.Some? && ops[pending.value].BeginLogin? && ops[pending.value].provider == provider
       && Clock(ops, n) < Clock(ops, pending.value) + 10 * 60
  }

  /** Step j gives the right code for its address, against login attempt state. */
  predicate GuessesRight(cfg: Config, ops: seq<Op>, j: nat, state: string)
    requires j < |ops|
  {
    && ops[j].GiveCode? && ops[j].state == state && cfg.otp
    && CodeHistory.Judgement(LogAt(cfg, ops, j, Normalise(ops[j].email)), Clock(ops, j), TrimSpace(ops[j].code)).None?
  }

  /** Step j asks the code provider who earned this state. */
  predicate Redeems(cfg: Config, ops: seq<Op>, j: nat, state: string)
    requires j < |ops|
  {
    && ops[j].CompleteLogin? && ops[j].provider == OTP_PROVIDER && ops[j].code == state
    && OTP_PROVIDER in cfg.providers && MayComplete(cfg, ops, j, ops[j].state, OTP_PROVIDER)
  }

  /** The right guess made against a state and not redeemed since. */
  function PendingGuess(cfg: Config, ops: seq<Op>, n: nat, state: string): (pending: Option<nat>)
    requires n <= |ops|
    ensures pending.Some? ==> pending.value < n && ops[pending.value].GiveCode?
  {
    if n == 0 then None
    else if GuessesRight(cfg, ops, n - 1, state) then Some(n - 1)
    else if Redeems(cfg, ops, n - 1, state) then None
    else PendingGuess(cfg, ops, n - 1, state)
  }

  /** Whom the code provider vouches for: the address of a right guess that is pending
      and under two minutes old. */
  function VouchedFor(cfg: Config, ops: seq<Op>, n: nat, state: string): Option<string>
    requires n <= |ops|
  {
    var pending := PendingGuess(cfg, ops, n, state);
    if pending.Some? && Clock(ops, n) < Clock(ops, pending.value) + 2 * 60
    then Some(Normalise(ops[pending.value].email)) else None
  }

  // ---- the server agrees ----

  lemma {:induction false} ClockAgrees(cfg: Config, ops: seq<Op>, n: nat)
    requires n <= |ops|
    ensures Run(cfg, ops, n).ks.now == Clock(ops, n)
  {
    if n > 0 {
      ClockAgrees(cfg, ops, n - 1);
      StepIsASessionEvent(cfg, Run(cfg, ops, n - 1), ops[n - 1]);
    }
  }

  lemma {:induction false} UsersAgree(cfg: Config, ops: seq<Op>, n: nat)
    requires n <= |ops|
    ensures Run(cfg, ops, n).users == UsersAt(ops, n)
  {
    hide KeysAfter, UsersAfter;
    if n > 0 { UsersAgree(cfg, ops, n - 1); }
  }

  lemma {:induction false} LogAgrees(cfg: Config, ops: seq<Op>, n: nat, a: string)
    requires n <= |ops|
    ensures CodeHistory.LogOf(CodeEvents(cfg, ops), n, a) == LogAt(cfg, ops, n, a)
    ensures CodeHistory.Now(CodeEvents(cfg, ops), n) == Clock(ops, n)
  {
    hide Run, CodeEvents, StateAccepted, TrimSpace, ToLower, IsAuthorised, CodeHistory.RecordRequest, CodeHistory.RecordGuess;
    if n > 0 {
      LogAgrees(cfg, ops, n - 1, a);
      CodeEventAt(cfg, ops, n - 1);
      UsersAgree(cfg, ops, n - 1);
    }
  }

  lemma StateAcceptedIff(cfg: Config, ops: seq<Op>, n: nat, state: string, provider: string)
    requires n <= |ops| && NoBars(ops) && '|' !in provider
    ensures StateAccepted(Run(cfg, ops, n).ks, state, provider) <==> MayComplete(cfg, ops, n, state, provider)
  {
    hide Run, PendingAttempt, StateValue;
    if state != "" {
      LiveStateIsPending(cfg, ops, n, state);
      ClockAgrees(cfg, ops, n);
      var pending := PendingAttempt(cfg, ops, n, state);
      if pending.Some? {
        ClockAgrees(cfg, ops, pending.value);
        StateBindsProvider(ops[pending.value].provider, provider, ops[pending.value].clientIP);
      }
    }
  }

  lemma VerifiesIff(cfg: Config, ops: seq<Op>, j: nat, state: string)
    requires j < |ops|
    ensures Verifies(cfg, ops, j, state) <==> GuessesRight(cfg, ops, j, state)
  {
    hide Run, TrimSpace, ToLower, Verdict, LogAt, CodeEvents, CodeHistory.Judgement, CodeHistory.LogOf;
    if ops[j].GiveCode? {
      var a := Normalise(ops[j].email);
      ServerVerifiesByHistory(cfg, ops, j, a, TrimSpace(ops[j].code));
      LogAgrees(cfg, ops, j, a);
      ClockAgrees(cfg, ops, j);
    }
  }

  lemma ExchangesIff(cfg: Config, ops: seq<Op>, j: nat, state: string)
    requires j < |ops| && NoBars(ops)
    ensures ExchangesCode(cfg, ops, j, state) <==> Redeems(cfg, ops, j, state)
  {
    hide Run, MayComplete, StateAccepted;
    if ops[j].CompleteLogin? { StateAcceptedIff(cfg, ops, j, ops[j].state, OTP_PROVIDER); }
  }

  lemma {:induction false} PendingGuessAgrees(cfg: Config, ops: seq<Op>, n: nat, state: string)
    requires n <= |ops| && NoBars(ops)
    ensures PendingVerification(cfg, ops, n, state) == PendingGuess(cfg, ops, n, state)
  {
    hide Verifies, GuessesRight, ExchangesCode, Redeems;
    if n > 0 {
      VerifiesIff(cfg, ops, n - 1, state);
      ExchangesIff(cfg, ops, n - 1, state);
      PendingGuessAgrees(cfg, ops, n - 1, state);
    }
  }

  lemma EarnedIff(cfg: Config, ops: seq<Op>, n: nat, state: string)
    requires n <= |ops| && NoBars(ops)
    ensures Earned(Run(cfg, ops, n).ks.otp, Run(cfg, ops, n).ks.now, state) == VouchedFor(cfg, ops, n, state)
  {
    hide Run, PendingVerification, PendingGuess, TrimSpace, ToLower;
    LiveVerificationIsPending(cfg, ops, n, state);
    PendingGuessAgrees(cfg, ops, n, state);
    ClockAgrees(cfg, ops, n);
    var pending := PendingGuess(cfg, ops, n, state);
    if pending.Some? { ClockAgrees(cfg, ops, pending.value); }
  }

  /** The names that attempts are begun for hold no bar. */
  ghost predicate NoBars(ops: seq<Op>) {
    forall i :: 0 <= i < |ops| && ops[i].BeginLogin? ==> '|' !in ops[i].provider
  }

  /** After any run, a login completes exactly when its provider is registered, an
      attempt begun for that provider in the last ten minutes has not been completed
      since, somebody is vouched for, their domain is allowed and their account is
      authorised. The code provider vouches for whoever gave the right code under
      that key in the last two minutes, once. */
  lemma {:induction false} LoginSucceedsIff(cfg: Config, ops: seq<Op>, n: nat)
    requires n < |ops| && ops[n].CompleteLogin? && NoBars(ops)
    requires forall p :: p in cfg.providers ==> '|' !in p
    ensures var op := ops[n];
            var who := if op.provider == OTP_PROVIDER then VouchedFor(cfg, ops, n, op.code) else op.answer;
            MadeAt(cfg, ops, n).Some? <==>
              && op.provider in cfg.providers && MayComplete(cfg, ops, n, op.state, op.provider)
              && who.Some? && op.domainAllowed && IsAuthorised(UsersAt(ops, n), who.value).Ok?
  {
    hide Run, MayComplete, VouchedFor, StateAccepted, Earned, IsAuthorised, UsersAt;
    if ops[n].provider in cfg.providers { StateAcceptedIff(cfg, ops, n, ops[n].state, ops[n].provider); }
    EarnedIff(cfg, ops, n, ops[n].code);
    UsersAgree(cfg, ops, n);
  }
}
