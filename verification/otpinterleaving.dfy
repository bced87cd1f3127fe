/** The code store with guesses and exchanges split into their commands, and the
    pieces of different operations interleaved freely. What a read of the code or of
    a verification finds is told from the steps alone; nothing is checked again
    between that read and the write it leads to. */
module OtpInterleaving {
  import opened Prelude
  import opened Cells
  import opened Otp

  /** What an operation remembers between two of its commands. */
  datatype Pending =
    | WillEarn(address: string, state: string)
    | WillCount(address: string)
    | WillTime(address: string)
    | WillExhaust(address: string)
    | WillSpend(state: string, found: string)

  datatype Action =
    | Advance(seconds: nat)
    /** The transaction of a Request that was not refused. */
    | CommitRequest(address: string, code: string)
    /** Verify's GET, and the comparison with the guess. */
    | ReadCode(thread: nat, address: string, guess: string, state: string)
    /** The transaction of a right guess. */
    | CommitVerify(thread: nat)
    /** INCR, EXPIRE and DEL after a wrong guess. */
    | Count(thread: nat)
    | Time(thread: nat)
    | Exhaust(thread: nat)
    /** Exchange's GET and its DEL. */
    | ReadVerified(thread: nat, state: string)
    | DropVerified(thread: nat)

  datatype Floor = Floor(now: int, codes: Codes, pending: map<nat, Pending>)

  const OPENING: Floor := Floor(0, NO_CODES, map[])

  /** What a read of the code leads to. */
  function Compared(f: Floor, address: string, guess: string, state: string): Option<Pending> {
    match Read(f.codes.codes, address, f.now)
    case None => None
    case Some(stored) => Some(if stored == guess then WillEarn(address, state) else WillCount(address))
  }

  function Remember(f: Floor, thread: nat, p: Option<Pending>): Floor {
    f.(pending := if p.Some? then f.pending[thread := p.value] else f.pending - {thread})
  }

  function AfterCount(f: Floor, thread: nat, a: string): Floor {
    var counted := Increment(f.codes.attempts, a, f.now);
    var n := counted[a].value;
    Remember(f.(codes := f.codes.(attempts := counted)), thread,
             if n == 1 then Some(WillTime(a)) else if OTP_MAX_TRIES <= n then Some(WillExhaust(a)) else None)
  }

  /** What a pending operation writes next. */
  function Commit(f: Floor, thread: nat): Floor
    requires thread in f.pending
  {
    var c, done := f.codes, Remember(f, thread, None);
    match f.pending[thread]
    case WillEarn(a, state) =>
      done.(codes := c.(codes := Drop(c.codes, a), attempts := Drop(c.attempts, a),
                        verified := Put(c.verified, state, a, f.now, VERIFIED_TTL)))
    case WillCount(a) => AfterCount(f, thread, a)
    case WillTime(a) => done.(codes := c.(attempts := SetExpiry(c.attempts, a, f.now, OTP_TTL)))
    case WillExhaust(a) => done.(codes := c.(codes := Drop(c.codes, a), attempts := Drop(c.attempts, a)))
    case WillSpend(state, _) => done.(codes := c.(verified := Drop(c.verified, state)))
  }

  /** The action is the next command of the operation that its thread has begun. */
  predicate Due(f: Floor, a: Action) {
    match a
    case CommitVerify(i) => i in f.pending && f.pending[i].WillEarn?
    case Count(i) => i in f.pending && f.pending[i].WillCount?
    case Time(i) => i in f.pending && f.pending[i].WillTime?
    case Exhaust(i) => i in f.pending && f.pending[i].WillExhaust?
    case DropVerified(i) => i in f.pending && f.pending[i].WillSpend?
    case _ => false
  }

  function Act(f: Floor, a: Action): Floor {
    match a
    case Advance(seconds) => f.(now := f.now + seconds)
    case CommitRequest(address, code) =>
      var c := f.codes;
      f.(codes := c.(codes := Put(c.codes, address, code, f.now, OTP_TTL),
                     cooldowns := Put(c.cooldowns, address, "1", f.now, OTP_COOLDOWN_SECONDS),
                     daily := SetExpiry(Increment(c.daily, address, f.now), address, f.now, OTP_DAILY_WINDOW),
                     attempts := Drop(c.attempts, address)))
    case ReadCode(i, address, guess, state) => Remember(f, i, Compared(f, address, guess, state))
    case ReadVerified(i, state) =>
      (match Read(f.codes.verified, state, f.now)
       case None => Remember(f, i, None)
       case Some(found) => Remember(f, i, Some(WillSpend(state, found))))
    case _ => if Due(f, a) then Commit(f, a.thread) else f
  }

  // ---- uninterrupted, the pieces are the whole operations ----

  lemma {:induction false} WholeGuess(f: Floor, i: nat, a: string, guess: string, state: string)
    ensures var read := Act(f, ReadCode(i, a, guess, state));
            var counted := Act(Act(read, CommitVerify(i)), Count(i));
            Act(Act(counted, Time(i)), Exhaust(i)).codes == Verify(f.codes, f.now, a, guess, state)
  {
    var read := Act(f, ReadCode(i, a, guess, state));
    var written := Act(read, CommitVerify(i));
    var counted := Act(written, Count(i));
    var timed := Act(counted, Time(i));
    var verdict := Verdict(f.codes, f.now, a, guess);
    if verdict == None || verdict == Some(CodeExpired) {
      assert timed == counted == written;
    } else if verdict == Some(CodeExhausted) {
      assert timed == counted;
    }
  }

  lemma WholeRequestAndExchange(f: Floor, i: nat, a: string, code: string, state: string)
    ensures Refusal(f.codes, f.now, a).None? ==> Act(f, CommitRequest(a, code)).codes == Request(f.codes, f.now, a, code)
    ensures Act(Act(f, ReadVerified(i, state)), DropVerified(i)).codes == Exchange(f.codes, f.now, state)
  {
  }

  // ---- runs ----

  function Run(acts: seq<Action>, n: nat): Floor
    requires n <= |acts|
  {
    if n == 0 then OPENING else Act(Run(acts, n - 1), acts[n - 1])
  }

  function Now(acts: seq<Action>, n: nat): (t: int)
    requires n <= |acts|
    ensures t == Run(acts, n).now
  {
    if n == 0 then 0 else Now(acts, n - 1) + (if acts[n - 1].Advance? then acts[n - 1].seconds else 0)
  }

  // ---- the code of one address ----

  predicate Requests(acts: seq<Action>, j: nat, address: string)
    requires j < |acts|
  {
    acts[j].CommitRequest? && acts[j].address == address
  }

  /** Step j deletes the code: a right guess is recorded, or the fifth wrong one. */
  predicate Takes(acts: seq<Action>, j: nat, address: string)
    requires j < |acts|
  {
    && (acts[j].CommitVerify? || acts[j].Exhaust?)
    && Due(Run(acts, j), acts[j]) && Run(acts, j).pending[acts[j].thread].address == address
  }

  lemma CodeMoves(f: Floor, a: Action, address: string)
    requires !(a.CommitRequest? && a.address == address)
    ensures var before, after := f.codes.codes, Act(f, a).codes.codes;
            if (a.CommitVerify? || a.Exhaust?) && Due(f, a) && f.pending[a.thread].address == address then
              address !in after
            else (address in after <==> address in before) && (address in after ==> after[address] == before[address])
  {
  }

  lemma TakenByNow(acts: seq<Action>, g: nat, n: nat, address: string)
    requires g + 1 < n <= |acts|
    ensures (exists j :: g < j < n && Takes(acts, j, address)) <==>
            (exists j :: g < j < n - 1 && Takes(acts, j, address)) || Takes(acts, n - 1, address)
  {
    hide Takes;
  }

  /** From one request to the next, the code is on file until something takes it. */
  lemma {:induction false} CodeIsOnFile(acts: seq<Action>, g: nat, n: nat, address: string)
    requires g < n <= |acts| && Requests(acts, g, address)
    requires forall j :: g < j < n ==> !Requests(acts, j, address)
    ensures var codes := Run(acts, n).codes.codes;
            if exists j :: g < j < n && Takes(acts, j, address) then address !in codes
            else address in codes && codes[address] == Entry(acts[g].code, Some(Now(acts, g) + OTP_TTL))
    decreases n
  {
    assert Run(acts, n) == Act(Run(acts, n - 1), acts[n - 1]);
    hide Run, Now;
    if g + 1 < n {
      assert !Requests(acts, n - 1, address);
      CodeIsOnFile(acts, g, n - 1, address);
      CodeMoves(Run(acts, n - 1), acts[n - 1], address);
      TakenByNow(acts, g, n, address);
    }
  }

  /** Exactly when a guess is compared with the code of the latest request: under five
      minutes after it, and before anything took the code. A right guess then earns
      its verification and a wrong one counts, whatever happens in between. */
  lemma {:induction false} GuessIsComparedIff(acts: seq<Action>, g: nat, s: nat, address: string)
    requires g < s < |acts| && Requests(acts, g, address)
    requires forall j :: g < j < s ==> !Requests(acts, j, address)
    requires acts[s].ReadCode? && acts[s].address == address
    ensures Run(acts, s + 1).pending ==
            var pending, i := Run(acts, s).pending, acts[s].thread;
            if Now(acts, s) < Now(acts, g) + OTP_TTL && forall j :: g < j < s ==> !Takes(acts, j, address) then
              pending[i := if acts[s].guess == acts[g].code then WillEarn(address, acts[s].state) else WillCount(address)]
            else pending - {i}
  {
    hide Takes, Requests, Now;
    CodeIsOnFile(acts, g, s, address);
    assert Run(acts, s + 1) == Act(Run(acts, s), acts[s]);
    hide Run;
  }

  /** Of two right guesses at one code, the second earns a verification too exactly
      when its read came before the first one's transaction took the code. */
  lemma {:induction false} SecondGuessEarnsIff(acts: seq<Action>, g: nat, c: nat, s: nat, address: string)
    requires g < c < |acts| && g < s < |acts| && s != c && Requests(acts, g, address)
    requires forall j :: g < j < |acts| ==> !Requests(acts, j, address)
    requires Takes(acts, c, address) && forall j :: g < j < c ==> !Takes(acts, j, address)
    requires acts[s].ReadCode? && acts[s].address == address && acts[s].guess == acts[g].code
    requires Now(acts, s) < Now(acts, g) + OTP_TTL
    ensures var i, after := acts[s].thread, Run(acts, s + 1).pending;
            (i in after && after[i] == WillEarn(address, acts[s].state)) <==> s < c
  {
    hide Takes, Requests, Now, Run;
    GuessIsComparedIff(acts, g, s, address);
  }

  /** What was earned is recorded, whatever became of the code since it was read. */
  lemma EarnedIsRecorded(f: Floor, i: nat)
    requires i in f.pending && f.pending[i].WillEarn?
    ensures var f' := Act(f, CommitVerify(i));
            Earned(f'.codes, f'.now, f.pending[i].state) == Some(f.pending[i].address)
  {
  }

  /** Two attempts guess right at once, and one code earns both of them. */
  lemma {:induction false} OneCodeEarnsTwice(a: string, code: string, x: string, y: string)
    requires x != y
    ensures var acts := [CommitRequest(a, code), ReadCode(0, a, code, x), ReadCode(1, a, code, y), CommitVerify(0), CommitVerify(1)];
            var f := Run(acts, 5);
            Earned(f.codes, f.now, x) == Earned(f.codes, f.now, y) == Some(a)
  {
    var acts := [CommitRequest(a, code), ReadCode(0, a, code, x), ReadCode(1, a, code, y), CommitVerify(0), CommitVerify(1)];
    assert Run(acts, 1) == Act(OPENING, acts[0]);
    assert Run(acts, 2) == Act(Run(acts, 1), acts[1]);
    assert Run(acts, 3) == Act(Run(acts, 2), acts[2]);
    var f := Run(acts, 3);
    assert Run(acts, 4) == Act(f, acts[3]);
    assert Run(acts, 5) == Act(Run(acts, 4), acts[4]);
    hide Run;
    assert f.pending == map[0 := WillEarn(a, x), 1 := WillEarn(a, y)];
  }

  // ---- the verification of one attempt ----

  /** Step j records a verification against a state. */
  predicate Records(acts: seq<Action>, j: nat, state: string)
    requires j < |acts|
  {
    acts[j].CommitVerify? && Due(Run(acts, j), acts[j]) && Run(acts, j).pending[acts[j].thread].state == state
  }

  /** Step j is the DEL of an exchange of that state. */
  predicate Spends(acts: seq<Action>, j: nat, state: string)
    requires j < |acts|
  {
    acts[j].DropVerified? && Due(Run(acts, j), acts[j]) && Run(acts, j).pending[acts[j].thread].state == state
  }

  lemma VerificationMoves(f: Floor, a: Action, state: string)
    requires !(a.CommitVerify? && Due(f, a) && f.pending[a.thread].state == state)
    ensures var before, after := f.codes.verified, Act(f, a).codes.verified;
            if a.DropVerified? && Due(f, a) && f.pending[a.thread].state == state then state !in after
            else (state in after <==> state in before) && (state in after ==> after[state] == before[state])
  {
  }

  lemma SpentByNow(acts: seq<Action>, v: nat, n: nat, state: string)
    requires v + 1 < n <= |acts|
    ensures (exists j :: v < j < n && Spends(acts, j, state)) <==>
            (exists j :: v < j < n - 1 && Spends(acts, j, state)) || Spends(acts, n - 1, state)
  {
    hide Spends;
  }

  lemma {:induction false} VerificationIsOnFile(acts: seq<Action>, v: nat, n: nat, state: string)
    requires v < n <= |acts| && Records(acts, v, state)
    requires forall j :: v < j < n ==> !Records(acts, j, state)
    ensures var verified := Run(acts, n).codes.verified;
            if exists j :: v < j < n && Spends(acts, j, state) then state !in verified
            else
              && state in verified
              && verified[state] ==
                 Entry(Run(acts, v).pending[acts[v].thread].address, Some(Now(acts, v) + VERIFIED_TTL))
    decreases n
  {
    assert Run(acts, n) == Act(Run(acts, n - 1), acts[n - 1]);
    hide Run, Now;
    if v + 1 < n {
      assert !Records(acts, n - 1, state);
      VerificationIsOnFile(acts, v, n - 1, state);
      VerificationMoves(Run(acts, n - 1), acts[n - 1], state);
      SpentByNow(acts, v, n, state);
    }
  }

  /** Of two exchanges of one verification, the second finds the address too exactly
      when its read came before the first one's DEL. */
  lemma {:induction false} SecondExchangeFindsIff(acts: seq<Action>, v: nat, d: nat, s: nat, state: string)
    requires v < d < |acts| && v < s < |acts| && s != d && Records(acts, v, state)
    requires forall j :: v < j < |acts| ==> !Records(acts, j, state)
    requires Spends(acts, d, state) && forall j :: v < j < d ==> !Spends(acts, j, state)
    requires acts[s].ReadVerified? && acts[s].state == state && Now(acts, s) < Now(acts, v) + VERIFIED_TTL
    ensures var i, after := acts[s].thread, Run(acts, s + 1).pending;
            (i in after && after[i] == WillSpend(state, Run(acts, v).pending[acts[v].thread].address)) <==> s < d
  {
    hide Records, Spends, Now;
    VerificationIsOnFile(acts, v, s, state);
    assert Run(acts, s + 1) == Act(Run(acts, s), acts[s]);
    hide Run;
  }
}
