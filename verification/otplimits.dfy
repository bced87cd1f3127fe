/** How much anyone can ask of the code store, and how often anyone can guess. */
module OtpLimits {
  import opened Prelude
  import opened Text
  import opened Otp
  import opened OtpHistory

  // ---- what the log of one address looks like in every run ----

  /** Codes are at least a minute apart, in order, and never more than ten in a
      row without a day's silence before one of them. */
  ghost predicate Paced(grants: seq<Grant>) {
    && (forall k :: 0 < k < |grants| ==> grants[k - 1].at + OTP_COOLDOWN_SECONDS <= grants[k].at)
    && (grants != [] ==> Linked(grants, grants[|grants| - 1].at) <= OTP_DAILY_LIMIT)
  }

  lemma PacedGrows(log: Log, now: int, code: string)
    requires Paced(log.grants) && OrderedBefore(log, now) && Denial(log, now).None?
    ensures Paced(RecordRequest(log, now, code).grants)
  {
  }

  lemma RecordPaced(log: Log, now: int, e: Event, a: string)
    requires Paced(log.grants) && OrderedBefore(log, now)
    ensures Paced(Record(log, now, e, a).grants) && OrderedBefore(Record(log, now, e, a), now)
  {
    hide TrimSpace, ToLower, Paced;
    if e.Requested? && Denial(log, now).None? { PacedGrows(log, now, e.code); }
  }

  lemma {:induction false} LogIsPaced(es: seq<Event>, n: nat, a: string)
    requires n <= |es|
    ensures Paced(LogOf(es, n, a).grants) && OrderedBefore(LogOf(es, n, a), Now(es, n))
  {
    if n > 0 {
      hide Paced, Record;
      LogIsPaced(es, n - 1, a);
      RecordPaced(LogOf(es, n - 1, a), Now(es, n - 1), es[n - 1], a);
    }
  }

  /** A tail of the log in which each code follows the one before within a day is
      linked from end to end. */
  lemma {:induction false} TailIsLinked(grants: seq<Grant>, first: nat)
    requires first < |grants| && Paced(grants)
    requires forall k :: first < k < |grants| ==> grants[k].at < grants[k - 1].at + OTP_DAILY_WINDOW
    ensures |grants| - first <= Linked(grants, grants[|grants| - 1].at)
    decreases |grants|
  {
    var shorter := grants[..|grants| - 1];
    if first + 1 < |grants| {
      LinkedAtMost(grants);
      TailIsLinked(shorter, first);
    }
  }

  /** The log minus its last entry is paced too. */
  lemma LinkedAtMost(grants: seq<Grant>)
    requires |grants| >= 2 && Paced(grants)
    requires grants[|grants| - 1].at < grants[|grants| - 2].at + OTP_DAILY_WINDOW
    ensures Paced(grants[..|grants| - 1])
  {
    var shorter := grants[..|grants| - 1];
    assert Linked(grants, grants[|grants| - 1].at) == 1 + Linked(shorter, grants[|grants| - 1].at);
    assert Linked(shorter, grants[|grants| - 1].at) == Linked(shorter, shorter[|shorter| - 1].at);
  }

  lemma {:induction false} SpacedOut(grants: seq<Grant>, first: nat, k: nat)
    requires first <= k < |grants| && Paced(grants)
    ensures grants[first].at + OTP_COOLDOWN_SECONDS * (k - first) <= grants[k].at
    decreases k
  {
    if first < k { SpacedOut(grants, first, k - 1); }
  }

  /** Codes granted within less than a day, together with one granted in the five
      minutes before, are at most ten. */
  lemma AtMostTen(grants: seq<Grant>, first: nat, from: int)
    requires first < |grants| && Paced(grants)
    requires grants[|grants| - 1].at < from + OTP_DAILY_WINDOW
    requires from - OTP_TTL < grants[first].at
    requires first + 1 < |grants| ==> from <= grants[first + 1].at
    ensures |grants| - first <= OTP_DAILY_LIMIT
  {
    var last := |grants| - 1;
    if first < last {
      if grants[first].at + OTP_DAILY_WINDOW <= grants[first + 1].at {
        SpacedOut(grants, first + 1, last);
      } else {
        forall k | first < k < |grants| ensures grants[k].at < grants[k - 1].at + OTP_DAILY_WINDOW {
          if first + 1 < k {
            SpacedOut(grants, first + 1, k - 1);
            SpacedOut(grants, k, last);
          }
        }
        TailIsLinked(grants, first);
      }
    }
  }

  // ---- counting over a window of the run ----

  /** Event j is a guess at this address compared with a live code and found wrong. */
  predicate WrongGuess(es: seq<Event>, j: nat, a: string)
    requires j < |es|
  {
    && es[j].Guessed? && Normalise(es[j].email) == a
    && var d := Run(es, j); var verdict := Verdict(d.codes, d.now, a, TrimSpace(es[j].code));
       verdict == Some(CodeWrong) || verdict == Some(CodeExhausted)
  }

  /** Event j is a request for this address, and was granted. */
  predicate GrantedRequest(es: seq<Event>, j: nat, a: string)
    requires j < |es|
  {
    es[j].Requested? && Normalise(es[j].email) == a && var d := Run(es, j); Refusal(d.codes, d.now, a).None?
  }

  function WrongGuesses(es: seq<Event>, m: nat, n: nat, a: string): nat
    requires m <= n <= |es|
    decreases n
  {
    if n == m then 0 else WrongGuesses(es, m, n - 1, a) + (if WrongGuess(es, n - 1, a) then 1 else 0)
  }

  function GrantedRequests(es: seq<Event>, m: nat, n: nat, a: string): nat
    requires m <= n <= |es|
    decreases n
  {
    if n == m then 0 else GrantedRequests(es, m, n - 1, a) + (if GrantedRequest(es, n - 1, a) then 1 else 0)
  }

  /** The guesses the code on offer still allows. */
  function GuessesLeft(log: Log, now: int): nat {
    if OnOffer(log, now) then OTP_MAX_TRIES - log.wrong else 0
  }

  lemma {:induction false} CountsFollowTheLog(es: seq<Event>, m: nat, n: nat, a: string)
    requires m <= n <= |es|
    ensures |LogOf(es, n, a).grants| == |LogOf(es, m, a).grants| + GrantedRequests(es, m, n, a)
    ensures LogOf(es, m, a).grants <= LogOf(es, n, a).grants
    ensures forall k :: |LogOf(es, m, a).grants| <= k < |LogOf(es, n, a).grants| ==>
              Now(es, m) <= LogOf(es, n, a).grants[k].at <= Now(es, n)
    ensures Now(es, m) <= Now(es, n)
    decreases n
  {
    hide Run, TrimSpace, ToLower, Refusal, Matches;
    if m < n {
      CountsFollowTheLog(es, m, n - 1, a);
      RequestRefinesHistory(es, n - 1, a);
      StoreMatchesLog(es, n - 1, a);
    }
  }

  /** A wrong guess uses up one of those left; only a granted request adds to them. */
  lemma EventIsPaidFor(es: seq<Event>, n: nat, a: string)
    requires n < |es|
    ensures (if WrongGuess(es, n, a) then 1 else 0) + GuessesLeft(LogOf(es, n + 1, a), Now(es, n + 1)) <=
            GuessesLeft(LogOf(es, n, a), Now(es, n)) + (if GrantedRequest(es, n, a) then OTP_MAX_TRIES else 0)
  {
    hide Run, TrimSpace, ToLower, Refusal, Verdict, Matches;
    RequestRefinesHistory(es, n, a);
    StoreMatchesLog(es, n, a);
    if es[n].Guessed? { VerifyRefinesHistory(es, n, a, TrimSpace(es[n].code)); }
  }

  /** Every wrong guess is paid for by a code: five for each. */
  lemma {:induction false} GuessesArePaidFor(es: seq<Event>, m: nat, n: nat, a: string)
    requires m <= n <= |es|
    ensures WrongGuesses(es, m, n, a) + GuessesLeft(LogOf(es, n, a), Now(es, n)) <=
            GuessesLeft(LogOf(es, m, a), Now(es, m)) + OTP_MAX_TRIES * GrantedRequests(es, m, n, a)
    decreases n
  {
    if m < n {
      hide GuessesLeft, LogOf, Now, WrongGuess, GrantedRequest;
      GuessesArePaidFor(es, m, n - 1, a);
      EventIsPaidFor(es, n - 1, a);
    }
  }

  /** In any stretch of a run shorter than a day, one address is granted at most
      ten codes, and at most fifty wrong guesses are compared with a live code:
      a code alive when the day begins counts among the ten, unless the counter
      lapses, and then too little of the day is left for more. */
  lemma {:induction false} GuessBound(es: seq<Event>, m: nat, n: nat, a: string)
    requires m <= n <= |es| && Now(es, n) < Now(es, m) + 24 * 60 * 60
    ensures GrantedRequests(es, m, n, a) <= 10
    ensures WrongGuesses(es, m, n, a) <= 50
  {
    var before, after := LogOf(es, m, a), LogOf(es, n, a);
    LogIsPaced(es, m, a);
    LogIsPaced(es, n, a);
    CountsFollowTheLog(es, m, n, a);
    GuessesArePaidFor(es, m, n, a);
    if after.grants != [] {
      if |before.grants| < |after.grants| { AtMostTen(after.grants, |before.grants|, Now(es, m)); }
      if OnOffer(before, Now(es, m)) { AtMostTen(after.grants, |before.grants| - 1, Now(es, m)); }
    }
  }

  /** Two granted requests for one address are at least a minute apart. */
  lemma {:induction false} GrantsAreSpaced(es: seq<Event>, j: nat, k: nat, a: string)
    requires j < k < |es| && GrantedRequest(es, j, a) && GrantedRequest(es, k, a)
    ensures Now(es, j) + 60 <= Now(es, k)
  {
    hide Run, TrimSpace, ToLower, Refusal, Matches;
    RequestRefinesHistory(es, j, a);
    RequestRefinesHistory(es, k, a);
    StoreMatchesLog(es, j, a);
    StoreMatchesLog(es, k, a);
    CountsFollowTheLog(es, j + 1, k, a);
    LogIsPaced(es, k, a);
    var log := LogOf(es, k, a);
    SpacedOut(log.grants, |LogOf(es, j, a).grants|, |log.grants| - 1);
  }
}
