/** Nothing is used twice: state tokens, verifications, codes and emergency links
    are each spent by what they buy. */
module Conservation {
  import opened Prelude
  import opened Text
  import opened Cells
  import opened Sessions
  import opened Otp
  import opened Accounts
  import opened Login
  import opened System
  import CodeHistory = OtpHistory
  import OtpLimits

  // ---- state tokens ----

  /** The attempt that minted a state token and has not been completed since. */
  function PendingAttempt(cfg: Config, ops: seq<Op>, n: nat, state: string): (pending: Option<nat>)
    requires n <= |ops|
    ensures pending.Some? ==> pending.value < n
  {
    if n == 0 then None
    else if ops[n - 1].BeginLogin? && ops[n - 1].state == state then Some(n - 1)
    else if ops[n - 1].CompleteLogin? && ops[n - 1].state == state && ops[n - 1].provider in cfg.providers then None
    else PendingAttempt(cfg, ops, n - 1, state)
  }

  lemma {:induction false} AttemptIsPending(cfg: Config, ops: seq<Op>, n: nat, state: string)
    requires n <= |ops| && PendingAttempt(cfg, ops, n, state).Some?
    ensures var i := PendingAttempt(cfg, ops, n, state).value;
            && i < n && ops[i].BeginLogin? && ops[i].state == state
            && forall j :: i < j < n && ops[j].CompleteLogin? && ops[j].state == state ==>
                 ops[j].provider !in cfg.providers
  {
    if !(ops[n - 1].BeginLogin? && ops[n - 1].state == state) { AttemptIsPending(cfg, ops, n - 1, state); }
  }

  /** A state token can be read exactly while its attempt is pending and under ten
      minutes old, and says what the attempt was for. */
  lemma {:induction false} LiveStateIsPending(cfg: Config, ops: seq<Op>, n: nat, state: string)
    requires n <= |ops| && state != ""
    ensures var ks, pending := Run(cfg, ops, n).ks, PendingAttempt(cfg, ops, n, state);
            && (pending.None? ==> !Live(ks.states, state, ks.now))
            && (pending.Some? ==>
                  && ops[pending.value].BeginLogin?
                  && var mint := ops[pending.value];
                     && state in ks.states
                     && ks.states[state] == Entry(StateValue(mint.provider, mint.clientIP),
                                                  Some(Run(cfg, ops, pending.value).ks.now + STATE_TTL)))
  {
    hide Step;
    if n > 0 {
      LiveStateIsPending(cfg, ops, n - 1, state);
      StatesMove(cfg, Run(cfg, ops, n - 1), ops[n - 1], state);
    }
  }

  /** Which steps touch a state token. */
  lemma StatesMove(cfg: Config, s: State, op: Op, state: string)
    requires state != ""
    ensures var before, after := s.ks.states, Step(cfg, s, op).ks.states;
            if op.BeginLogin? && op.state == state then
              state in after && after[state] == Entry(StateValue(op.provider, op.clientIP), Some(s.ks.now + STATE_TTL))
            else if op.CompleteLogin? && op.state == state && op.provider in cfg.providers then
              !Live(after, state, Step(cfg, s, op).ks.now)
            else (state in after <==> state in before) && (state in after ==> after[state] == before[state])
    ensures s.ks.now <= Step(cfg, s, op).ks.now
  {
  }

  /** Every session Complete hands out spends an attempt minted for its provider,
      and no two sessions spend the same one. */
  lemma {:induction false} SessionsSpendAttempts(cfg: Config, ops: seq<Op>, c: nat, d: nat)
    requires c < |ops| && ops[c].CompleteLogin? && MadeAt(cfg, ops, c).Some?
    requires d < |ops| && ops[d].CompleteLogin? && MadeAt(cfg, ops, d).Some?
    requires forall p :: p in cfg.providers ==> '|' !in p
    requires forall i :: 0 <= i < |ops| && ops[i].BeginLogin? ==> '|' !in ops[i].provider
    ensures PendingAttempt(cfg, ops, c, ops[c].state).Some?
    ensures var i := PendingAttempt(cfg, ops, c, ops[c].state).value;
            i < c && ops[i].BeginLogin? && ops[i].state == ops[c].state && ops[i].provider == ops[c].provider
    ensures c != d ==> PendingAttempt(cfg, ops, c, ops[c].state) != PendingAttempt(cfg, ops, d, ops[d].state)
  {
    LiveStateIsPending(cfg, ops, c, ops[c].state);
    LiveStateIsPending(cfg, ops, d, ops[d].state);
    AttemptIsPending(cfg, ops, c, ops[c].state);
    AttemptIsPending(cfg, ops, d, ops[d].state);
    var mint := ops[PendingAttempt(cfg, ops, c, ops[c].state).value];
    StateBindsProvider(mint.provider, ops[c].provider, mint.clientIP);
  }

  // ---- verifications ----

  /** Only asking, guessing and completing a login touch the code store. */
  lemma CodesUntouched(cfg: Config, s: State, op: Op)
    requires !op.AskForCode? && !op.GiveCode?
    ensures var ks := Step(cfg, s, op).ks;
            && s.ks.now <= ks.now && ks.otp.codes == s.ks.otp.codes
            && (!op.CompleteLogin? ==> ks.otp == s.ks.otp)
  {
    hide TrimSpace, ToLower, IsAuthorised, Revoke, RevokeByClientIP, Disconnected, Reconnected;
  }

  /** Step j presents the right code for the address, against login attempt state. */
  predicate Verifies(cfg: Config, ops: seq<Op>, j: nat, state: string)
    requires j < |ops|
  {
    && ops[j].GiveCode? && ops[j].state == state && cfg.otp
    && var ks := Run(cfg, ops, j).ks;
       Verdict(ks.otp, ks.now, Normalise(ops[j].email), TrimSpace(ops[j].code)).None?
  }

  /** Step j asks the code provider to exchange this state. */
  predicate ExchangesCode(cfg: Config, ops: seq<Op>, j: nat, state: string)
    requires j < |ops|
  {
    && ops[j].CompleteLogin? && ops[j].provider == OTP_PROVIDER && ops[j].code == state
    && OTP_PROVIDER in cfg.providers && StateAccepted(Run(cfg, ops, j).ks, ops[j].state, OTP_PROVIDER)
  }

  /** The verification recorded against a state and not exchanged since. */
  function PendingVerification(cfg: Config, ops: seq<Op>, n: nat, state: string): (pending: Option<nat>)
    requires n <= |ops|
    ensures pending.Some? ==> pending.value < n
  {
    if n == 0 then None
    else if Verifies(cfg, ops, n - 1, state) then Some(n - 1)
    else if ExchangesCode(cfg, ops, n - 1, state) then None
    else PendingVerification(cfg, ops, n - 1, state)
  }

  lemma PendingVerificationNext(cfg: Config, ops: seq<Op>, n: nat, state: string)
    requires n < |ops|
    ensures PendingVerification(cfg, ops, n + 1, state) ==
            if Verifies(cfg, ops, n, state) then Some(n)
            else if ExchangesCode(cfg, ops, n, state) then None
            else PendingVerification(cfg, ops, n, state)
  {
    hide Verifies, ExchangesCode;
  }

  lemma {:induction false} VerificationIsPending(cfg: Config, ops: seq<Op>, n: nat, state: string)
    requires n <= |ops| && PendingVerification(cfg, ops, n, state).Some?
    ensures var v := PendingVerification(cfg, ops, n, state).value;
            v < n && Verifies(cfg, ops, v, state) && forall j :: v < j < n ==> !ExchangesCode(cfg, ops, j, state)
  {
    hide Verifies, ExchangesCode;
    if !Verifies(cfg, ops, n - 1, state) { VerificationIsPending(cfg, ops, n - 1, state); }
  }

  lemma GuessVerifies(c: Codes, now: int, a: string, guess: string, st: string, state: string)
    ensures var after := Verify(c, now, a, guess, st).verified;
            if st == state && Verdict(c, now, a, guess).None? then
              state in after && after[state] == Entry(a, Some(now + VERIFIED_TTL))
            else (state in after <==> state in c.verified) && (state in after ==> after[state] == c.verified[state])
  {
  }

  /** Completing a login touches the code store only to exchange its own code. */
  lemma CompleteExchanges(cfg: Config, ks: Keyspace, users: Users, provider: string, code: string, state: string,
                          clientIP: string, answer: Option<string>, domainAllowed: bool, token: string)
    ensures var ks' := Complete(cfg, ks, users, provider, code, state, clientIP, answer, domainAllowed, token).0;
            && ks'.now == ks.now
            && ks'.otp == if provider in cfg.providers && StateAccepted(ks, state, provider) && provider == OTP_PROVIDER
                          then Exchange(ks.otp, ks.now, code) else ks.otp
  {
    hide StateAccepted, IsAuthorised, Exchange, Earned, Create;
  }

  /** An exchange leaves nothing to read under its own key and every other key alone. */
  lemma ExchangeSpends(cfg: Config, s: State, op: Op, state: string)
    requires op.CompleteLogin?
    ensures var before, after := s.ks.otp.verified, Step(cfg, s, op).ks.otp.verified;
            if op.provider == OTP_PROVIDER && op.code == state
               && OTP_PROVIDER in cfg.providers && StateAccepted(s.ks, op.state, OTP_PROVIDER) then
              !Live(after, state, Step(cfg, s, op).ks.now)
            else (state in after <==> state in before) && (state in after ==> after[state] == before[state])
  {
    hide Complete, StateAccepted;
    CompleteExchanges(cfg, s.ks, s.users, op.provider, op.code, op.state, op.clientIP, op.answer, op.domainAllowed, op.token);
  }

  lemma VerifiedMoves(cfg: Config, s: State, op: Op, state: string)
    ensures var before, after := s.ks.otp.verified, Step(cfg, s, op).ks.otp.verified;
            if op.GiveCode? && op.state == state && cfg.otp
               && Verdict(s.ks.otp, s.ks.now, Normalise(op.email), TrimSpace(op.code)).None? then
              state in after && after[state] == Entry(Normalise(op.email), Some(s.ks.now + VERIFIED_TTL))
            else if op.CompleteLogin? && op.provider == OTP_PROVIDER && op.code == state
                    && OTP_PROVIDER in cfg.providers && StateAccepted(s.ks, op.state, OTP_PROVIDER) then
              !Live(after, state, Step(cfg, s, op).ks.now)
            else (state in after <==> state in before) && (state in after ==> after[state] == before[state])
    ensures s.ks.now <= Step(cfg, s, op).ks.now
  {
    hide TrimSpace, ToLower, IsAuthorised, Verify, Verdict, Refusal, Complete, StateAccepted;
    match op {
      case GiveCode(email, code, st) =>
        GuessVerifies(s.ks.otp, s.ks.now, Normalise(email), TrimSpace(code), st, state);
      case AskForCode(email, ok, code, delivered) =>
      case CompleteLogin(provider, code, st, ip, answer, ok, token) =>
        CodesUntouched(cfg, s, op);
        ExchangeSpends(cfg, s, op, state);
      case _ =>
        CodesUntouched(cfg, s, op);
        hide Step;
    }
  }

  lemma VerifiedMovesAt(cfg: Config, ops: seq<Op>, j: nat, state: string)
    requires j < |ops|
    ensures var before, ks := Run(cfg, ops, j).ks, Run(cfg, ops, j + 1).ks;
            && before.now <= ks.now
            && if Verifies(cfg, ops, j, state) then
                 && ops[j].GiveCode? && state in ks.otp.verified
                 && ks.otp.verified[state] == Entry(Normalise(ops[j].email), Some(before.now + VERIFIED_TTL))
               else if ExchangesCode(cfg, ops, j, state) then !Live(ks.otp.verified, state, ks.now)
               else
                 && (state in ks.otp.verified <==> state in before.otp.verified)
                 && (state in ks.otp.verified ==> ks.otp.verified[state] == before.otp.verified[state])
  {
    hide Step, TrimSpace, ToLower, Verdict, StateAccepted;
    VerifiedMoves(cfg, Run(cfg, ops, j), ops[j], state);
  }

  /** The verification that step v recorded against a state is on file after n steps. */
  ghost predicate OnFile(cfg: Config, ops: seq<Op>, n: nat, state: string, v: nat)
    requires v < n <= |ops|
  {
    var verified := Run(cfg, ops, n).ks.otp.verified;
    && ops[v].GiveCode? && state in verified
    && verified[state] == Entry(Normalise(ops[v].email), Some(Run(cfg, ops, v).ks.now + VERIFIED_TTL))
  }

  lemma OnFileNext(cfg: Config, ops: seq<Op>, n: nat, state: string, v: nat)
    requires v < n < |ops| && OnFile(cfg, ops, n, state, v)
    requires !Verifies(cfg, ops, n, state) && !ExchangesCode(cfg, ops, n, state)
    ensures OnFile(cfg, ops, n + 1, state, v)
  {
    hide Run, Verifies, ExchangesCode, TrimSpace, ToLower;
    VerifiedMovesAt(cfg, ops, n, state);
  }

  lemma NothingNext(cfg: Config, ops: seq<Op>, n: nat, state: string)
    requires n < |ops| && !Verifies(cfg, ops, n, state)
    requires ExchangesCode(cfg, ops, n, state) || !Live(Run(cfg, ops, n).ks.otp.verified, state, Run(cfg, ops, n).ks.now)
    ensures !Live(Run(cfg, ops, n + 1).ks.otp.verified, state, Run(cfg, ops, n + 1).ks.now)
  {
    hide Run, Verifies, ExchangesCode, TrimSpace, ToLower;
    VerifiedMovesAt(cfg, ops, n, state);
  }

  lemma NoVerificationYet(cfg: Config, ops: seq<Op>, state: string)
    ensures PendingVerification(cfg, ops, 0, state).None?
    ensures !Live(Run(cfg, ops, 0).ks.otp.verified, state, Run(cfg, ops, 0).ks.now)
  {
  }

  /** A verification can be read exactly while it is pending and under two minutes
      old, and says which address earned it. */
  lemma {:induction false} LiveVerificationIsPending(cfg: Config, ops: seq<Op>, n: nat, state: string)
    requires n <= |ops|
    ensures var ks, pending := Run(cfg, ops, n).ks, PendingVerification(cfg, ops, n, state);
            && (pending.None? ==> !Live(ks.otp.verified, state, ks.now))
            && (pending.Some? ==> OnFile(cfg, ops, n, state, pending.value))
  {
    hide Run, OnFile, Verifies, ExchangesCode, PendingVerification;
    if n == 0 {
      NoVerificationYet(cfg, ops, state);
    } else {
      PendingVerificationNext(cfg, ops, n - 1, state);
      LiveVerificationIsPending(cfg, ops, n - 1, state);
      var before := PendingVerification(cfg, ops, n - 1, state);
      if Verifies(cfg, ops, n - 1, state) {
        VerifiedIsOnFile(cfg, ops, n - 1, state);
      } else if ExchangesCode(cfg, ops, n - 1, state) || before.None? {
        NothingNext(cfg, ops, n - 1, state);
      } else {
        OnFileNext(cfg, ops, n - 1, state, before.value);
      }
    }
  }

  lemma VerifiedIsOnFile(cfg: Config, ops: seq<Op>, n: nat, state: string)
    requires n < |ops| && Verifies(cfg, ops, n, state)
    ensures OnFile(cfg, ops, n + 1, state, n)
  {
    hide Run, Verifies, ExchangesCode, TrimSpace, ToLower;
    VerifiedMovesAt(cfg, ops, n, state);
  }

  // ---- codes ----

  /** Step j sends a code to the address. */
  predicate Sends(cfg: Config, ops: seq<Op>, j: nat, address: string)
    requires j < |ops|
  {
    && ops[j].AskForCode? && Normalise(ops[j].email) == address && cfg.otp && ops[j].domainAllowed
    && var s := Run(cfg, ops, j);
       IsAuthorised(s.users, address).Ok? && Refusal(s.ks.otp, s.ks.now, address).None?
  }

  /** Step j is a successful guess at the address. */
  predicate UsesCode(cfg: Config, ops: seq<Op>, j: nat, address: string)
    requires j < |ops|
  {
    ops[j].GiveCode? && Normalise(ops[j].email) == address && Verifies(cfg, ops, j, ops[j].state)
  }

  /** The latest code sent to an address and not used since. */
  function PendingCode(cfg: Config, ops: seq<Op>, n: nat, address: string): (pending: Option<nat>)
    requires n <= |ops|
    ensures pending.Some? ==> pending.value < n
  {
    if n == 0 then None
    else if Sends(cfg, ops, n - 1, address) then Some(n - 1)
    else if UsesCode(cfg, ops, n - 1, address) then None
    else PendingCode(cfg, ops, n - 1, address)
  }

  lemma {:induction false} CodeIsPending(cfg: Config, ops: seq<Op>, n: nat, address: string)
    requires n <= |ops| && PendingCode(cfg, ops, n, address).Some?
    ensures var g := PendingCode(cfg, ops, n, address).value;
            g < n && Sends(cfg, ops, g, address) && forall j :: g < j < n ==> !UsesCode(cfg, ops, j, address)
  {
    hide Sends, UsesCode;
    if !Sends(cfg, ops, n - 1, address) { CodeIsPending(cfg, ops, n - 1, address); }
  }

  lemma GuessesMove(c: Codes, now: int, x: string, guess: string, state: string, a: string)
    ensures var after := Verify(c, now, x, guess, state).codes;
            && (a in after ==> a in c.codes && after[a] == c.codes[a])
            && (x == a && Verdict(c, now, x, guess).None? ==> a !in after)
  {
  }

  lemma RequestSends(c: Codes, now: int, x: string, code: string, a: string)
    ensures var after := Request(c, now, x, code).codes;
            if x == a && Refusal(c, now, a).None? then a in after && after[a].value == code
            else (a in after <==> a in c.codes) && (a in after ==> after[a] == c.codes[a])
  {
  }

  lemma CodesMove(cfg: Config, s: State, op: Op, a: string)
    ensures var before, after := s.ks.otp.codes, Step(cfg, s, op).ks.otp.codes;
            if op.AskForCode? && Normalise(op.email) == a && cfg.otp && op.domainAllowed
               && IsAuthorised(s.users, a).Ok? && Refusal(s.ks.otp, s.ks.now, a).None? then
              a in after && after[a].value == op.code
            else if op.GiveCode? && Normalise(op.email) == a && cfg.otp
                    && Verdict(s.ks.otp, s.ks.now, a, TrimSpace(op.code)).None? then
              a !in after
            else a in after ==> a in before && after[a] == before[a]
    ensures s.ks.now <= Step(cfg, s, op).ks.now
  {
    hide TrimSpace, ToLower, IsAuthorised, Verify, Verdict, Request, Refusal;
    match op {
      case GiveCode(email, code, state) =>
        GuessesMove(s.ks.otp, s.ks.now, Normalise(email), TrimSpace(code), state, a);
      case AskForCode(email, ok, code, delivered) =>
        RequestSends(s.ks.otp, s.ks.now, Normalise(email), code, a);
      case _ =>
        CodesUntouched(cfg, s, op);
        hide Step;
    }
  }

  lemma {:induction false} LiveCodeIsPending(cfg: Config, ops: seq<Op>, n: nat, a: string)
    requires n <= |ops|
    ensures var ks := Run(cfg, ops, n).ks;
            Live(ks.otp.codes, a, ks.now) ==>
              && PendingCode(cfg, ops, n, a).Some?
              && var g := ops[PendingCode(cfg, ops, n, a).value];
                 g.AskForCode? && ks.otp.codes[a].value == g.code
  {
    if n > 0 {
      hide Step, TrimSpace, ToLower, Verdict;
      LiveCodeIsPending(cfg, ops, n - 1, a);
      CodesMove(cfg, Run(cfg, ops, n - 1), ops[n - 1], a);
    }
  }

  /** The verification a code sign-in exchanged, and the code that verification used. */
  function VerificationOf(cfg: Config, ops: seq<Op>, c: nat): Option<nat>
    requires c < |ops| && ops[c].CompleteLogin?
  {
    PendingVerification(cfg, ops, c, ops[c].code)
  }

  function CodeOf(cfg: Config, ops: seq<Op>, v: nat): Option<nat>
    requires v < |ops| && ops[v].GiveCode?
  {
    PendingCode(cfg, ops, v, Normalise(ops[v].email))
  }

  /** A successful guess used the code sent to that very address at an earlier step. */
  lemma {:induction false} VerificationSpendsCode(cfg: Config, ops: seq<Op>, v: nat)
    requires v < |ops| && ops[v].GiveCode? && Verifies(cfg, ops, v, ops[v].state)
    ensures CodeOf(cfg, ops, v).Some?
    ensures var g := CodeOf(cfg, ops, v).value;
            g < v && Sends(cfg, ops, g, Normalise(ops[v].email)) && ops[g].code == TrimSpace(ops[v].code)
  {
    LiveCodeIsPending(cfg, ops, v, Normalise(ops[v].email));
    CodeIsPending(cfg, ops, v, Normalise(ops[v].email));
  }

  lemma {:induction false} VerificationsSpendDistinctCodes(cfg: Config, ops: seq<Op>, v: nat, w: nat)
    requires v < w < |ops|
    requires ops[v].GiveCode? && Verifies(cfg, ops, v, ops[v].state)
    requires ops[w].GiveCode? && Verifies(cfg, ops, w, ops[w].state)
    ensures CodeOf(cfg, ops, v) != CodeOf(cfg, ops, w)
  {
    VerificationSpendsCode(cfg, ops, v);
    VerificationSpendsCode(cfg, ops, w);
    CodeIsPending(cfg, ops, w, Normalise(ops[w].email));
    assert UsesCode(cfg, ops, v, Normalise(ops[v].email));
  }

  /** A session got with a code goes back to one successful guess and on to one
      code sent, all for the address in the session. */
  lemma {:induction false} CodeSignInIsEarned(cfg: Config, ops: seq<Op>, c: nat)
    requires c < |ops| && ops[c].CompleteLogin? && ops[c].provider == OTP_PROVIDER && MadeAt(cfg, ops, c).Some?
    ensures VerificationOf(cfg, ops, c).Some?
    ensures var v := VerificationOf(cfg, ops, c).value;
            && v < c && ops[v].GiveCode? && Verifies(cfg, ops, v, ops[c].code)
            && MadeAt(cfg, ops, c).value.email == Normalise(ops[v].email)
            && CodeOf(cfg, ops, v).Some?
            && CodeOf(cfg, ops, v).value < v && Sends(cfg, ops, CodeOf(cfg, ops, v).value, Normalise(ops[v].email))
  {
    LiveVerificationIsPending(cfg, ops, c, ops[c].code);
    VerificationIsPending(cfg, ops, c, ops[c].code);
    var v := VerificationOf(cfg, ops, c).value;
    VerificationSpendsCode(cfg, ops, v);
    NormaliseIdempotent(ops[v].email);
    UsersIndexed(cfg, ops, c);
  }

  /** Two sessions got with codes used two guesses and two codes. */
  lemma {:induction false} CodeSignInsSpendCodes(cfg: Config, ops: seq<Op>, c: nat, d: nat)
    requires c < |ops| && ops[c].CompleteLogin? && ops[c].provider == OTP_PROVIDER && MadeAt(cfg, ops, c).Some?
    requires d < |ops| && ops[d].CompleteLogin? && ops[d].provider == OTP_PROVIDER && MadeAt(cfg, ops, d).Some?
    requires c < d
    ensures VerificationOf(cfg, ops, c).Some? && VerificationOf(cfg, ops, d).Some?
    ensures var v, w := VerificationOf(cfg, ops, c).value, VerificationOf(cfg, ops, d).value;
            && v < |ops| && w < |ops| && ops[v].GiveCode? && ops[w].GiveCode?
            && v != w && CodeOf(cfg, ops, v) != CodeOf(cfg, ops, w)
  {
    CodeSignInIsEarned(cfg, ops, c);
    CodeSignInIsEarned(cfg, ops, d);
    var v, w := VerificationOf(cfg, ops, c).value, VerificationOf(cfg, ops, d).value;
    VerificationIsPending(cfg, ops, d, ops[d].code);
    assert ExchangesCode(cfg, ops, c, ops[c].code);
    assert v != w;
    if v < w { VerificationsSpendDistinctCodes(cfg, ops, v, w); } else { VerificationsSpendDistinctCodes(cfg, ops, w, v); }
  }

  // ---- the code store's laws, of the whole server ----

  /** In any run of the server, a guess at an address is judged by the log of what
      was asked of the code store. */
  lemma {:induction false} ServerVerifiesByHistory(cfg: Config, ops: seq<Op>, n: nat, a: string, guess: string)
    requires n <= |ops|
    ensures var ks := Run(cfg, ops, n).ks;
            Verdict(ks.otp, ks.now, a, guess) ==
              CodeHistory.Judgement(CodeHistory.LogOf(CodeEvents(cfg, ops), n, a), ks.now, guess)
  {
    hide Run, CodeEvents;
    RunIsACodeRun(cfg, ops, n);
    CodeHistory.StoreMatchesLog(CodeEvents(cfg, ops), n, a);
    CodeHistory.VerifyRefinesHistory(CodeEvents(cfg, ops), n, a, guess);
  }

  /** In any stretch of a run of the server shorter than a day, one address is sent
      at most ten codes, and at most fifty wrong guesses are compared with a live one. */
  lemma {:induction false} ServerRationsCodes(cfg: Config, ops: seq<Op>, m: nat, n: nat, a: string)
    requires m <= n <= |ops| && Run(cfg, ops, n).ks.now < Run(cfg, ops, m).ks.now + OTP_DAILY_WINDOW
    ensures OtpLimits.GrantedRequests(CodeEvents(cfg, ops), m, n, a) <= 10
    ensures OtpLimits.WrongGuesses(CodeEvents(cfg, ops), m, n, a) <= 50
  {
    hide Run, CodeEvents;
    RunIsACodeRun(cfg, ops, m);
    RunIsACodeRun(cfg, ops, n);
    CodeHistory.StoreMatchesLog(CodeEvents(cfg, ops), m, a);
    CodeHistory.StoreMatchesLog(CodeEvents(cfg, ops), n, a);
    OtpLimits.GuessBound(CodeEvents(cfg, ops), m, n, a);
  }
}
