/** Reaching the mail server within a budget (dialWithRetry, attemptTimeout and the
    deadline of send in internal/auth/mailer.go). Times are whole milliseconds. */
module Mailer {
  const MAIL_TIMEOUT := 20_000
  const DIAL_TIMEOUT := 8_000
  const DIAL_PAUSE := 300
  const DIAL_TRIES: nat := 3

  /** How the network would treat an attempt left to itself: how long it would take,
      and whether it would connect. */
  datatype Attempt = Attempt(takes: nat, connects: bool)

  /** An attempt cut off at its timeout: when it is over, and whether it connected. */
  function Dialled(a: Attempt, timeout: int): (int, bool)
    requires 0 < timeout
  {
    if a.takes <= timeout then (a.takes, a.connects) else (timeout, false)
  }

  /** The configured bound, or the default. */
  function Budget(configured: int): (b: int)
    ensures 0 < b && (0 < configured ==> b == configured) && (configured <= 0 ==> b == 20_000)
  {
    if configured > 0 then configured else MAIL_TIMEOUT
  }

  /** All the time that is left, but never more than eight seconds. */
  function AttemptTimeout(now: int, deadline: int): (timeout: int)
    ensures timeout <= 8_000 && now + timeout <= deadline
    ensures timeout == 8_000 || now + timeout == deadline
  {
    if deadline - now < DIAL_TIMEOUT then deadline - now else DIAL_TIMEOUT
  }

  /** attempts is how the network treats each try. On return now is the time, and
      given are the timeouts the tries were given, in order. Connected names the
      try that succeeded, LastError the one whose error is reported. */
  datatype DialResult = Connected(try: nat) | LastError(try: nat)

  /** When try k begins: each try follows the one before it after a pause. */
  function Begins(start: int, attempts: seq<Attempt>, given: seq<int>, k: nat): int
    requires k < |given| <= |attempts| && forall j :: 0 <= j < k ==> 0 < given[j]
  {
    if k == 0 then start
    else Begins(start, attempts, given, k - 1) + Dialled(attempts[k - 1], given[k - 1]).0 + 300
  }

  lemma {:induction false} BeginsIsStable(start: int, attempts: seq<Attempt>, given: seq<int>, more: int, k: nat)
    requires k < |given| < |attempts| && forall j :: 0 <= j < |given| ==> 0 < given[j]
    ensures Begins(start, attempts, given + [more], k) == Begins(start, attempts, given, k)
  {
    if k > 0 { BeginsIsStable(start, attempts, given, more, k - 1); }
  }

  /** The times of the tries made so far are those they were given. */
  ghost predicate Timed(start: int, deadline: int, attempts: seq<Attempt>, given: seq<int>) {
    && |given| <= |attempts| && (forall j :: 0 <= j < |given| ==> 0 < given[j])
    && forall k :: 0 <= k < |given| ==> given[k] == AttemptTimeout(Begins(start, attempts, given, k), deadline)
  }

  /** When the last try made is over. */
  ghost function Over(start: int, attempts: seq<Attempt>, given: seq<int>): int
    requires |given| <= |attempts| && forall j :: 0 <= j < |given| ==> 0 < given[j]
  {
    if given == [] then start - DIAL_PAUSE
    else Begins(start, attempts, given, |given| - 1) + Dialled(attempts[|given| - 1], given[|given| - 1]).0
  }

  lemma OneMoreTry(start: int, deadline: int, attempts: seq<Attempt>, given: seq<int>)
    requires Timed(start, deadline, attempts, given) && |given| < |attempts|
    requires var t := AttemptTimeout(Over(start, attempts, given) + DIAL_PAUSE, deadline); 0 < t
    ensures var t := AttemptTimeout(Over(start, attempts, given) + DIAL_PAUSE, deadline);
            && Timed(start, deadline, attempts, given + [t])
            && Over(start, attempts, given + [t]) ==
                 Over(start, attempts, given) + DIAL_PAUSE + Dialled(attempts[|given|], t).0
  {
    hide AttemptTimeout, Dialled;
    var t := AttemptTimeout(Over(start, attempts, given) + DIAL_PAUSE, deadline);
    assert forall j :: 0 <= j < |given + [t]| ==> (given + [t])[j] == if j < |given| then given[j] else t;
    forall k | 0 <= k < |given| ensures Begins(start, attempts, given + [t], k) == Begins(start, attempts, given, k) {
      BeginsIsStable(start, attempts, given, t, k);
    }
    assert Begins(start, attempts, given + [t], |given|) == Over(start, attempts, given) + DIAL_PAUSE;
  }

  method DialWithRetry(start: int, budget: int, attempts: seq<Attempt>)
    returns (r: DialResult, now: int, given: seq<int>)
    requires 0 < budget && |attempts| == 3
    ensures start <= now <= start + budget
    ensures 1 <= |given| <= 3 && r.try == |given| - 1
    ensures forall k :: 0 <= k < |given| ==> 0 < given[k] <= 8_000
    ensures forall k :: 0 <= k < |given| ==>
              (Dialled(attempts[k], given[k]).1 <==> r.Connected? && k == |given| - 1)
    ensures Timed(start, start + budget, attempts, given) && now == Over(start, attempts, given)
    ensures r.LastError? && |given| < 3 ==> start + budget <= now + 300
  {
    hide Timed, Over;
    now, given := start, [];
    var deadline := start + budget;
    r := LastError(0);
    var tries := 0;
    NoTriesYet(start, deadline, attempts);
    while tries < DIAL_TRIES
      invariant tries == |given| <= DIAL_TRIES && start <= now <= deadline
      invariant tries > 0 ==> r == LastError(tries - 1)
      invariant forall k :: 0 <= k < |given| ==> 0 < given[k] <= DIAL_TIMEOUT && !Dialled(attempts[k], given[k]).1
      invariant Timed(start, deadline, attempts, given)
      invariant tries == 0 ==> now == start == Over(start, attempts, given) + DIAL_PAUSE
      invariant tries > 0 ==> now == Over(start, attempts, given)
    {
      if tries > 0 {
        if deadline - now <= DIAL_PAUSE { break; }
        now := now + DIAL_PAUSE;
      }
      var timeout := AttemptTimeout(now, deadline);
      OneMoreTry(start, deadline, attempts, given);
      var (took, connected) := Dialled(attempts[tries], timeout);
      given := given + [timeout];
      now := now + took;
      if connected {
        r := Connected(tries);
        return;
      }
      r := LastError(tries);
      tries := tries + 1;
      if now > deadline { break; }
    }
  }

  lemma NoTriesYet(start: int, deadline: int, attempts: seq<Attempt>)
    ensures Timed(start, deadline, attempts, []) && Over(start, attempts, []) == start - DIAL_PAUSE
  {
  }

  /** The whole of send: dialling, then a conversation that the connection's deadline
      cuts short. It succeeds exactly when the last try connected and the conversation
      fits the deadline, and is over within twice the budget either way. */
  method Send(start: int, configured: int, attempts: seq<Attempt>, conversation: nat)
    returns (sent: bool, end: int, given: seq<int>)
    requires |attempts| == 3
    ensures start <= end <= start + 2 * Budget(configured)
    ensures 1 <= |given| <= 3 && Timed(start, start + Budget(configured), attempts, given)
    ensures forall k :: 0 <= k < |given| ==> 0 < given[k] <= 8_000
    ensures forall k :: 0 <= k < |given| - 1 ==> !Dialled(attempts[k], given[k]).1
    ensures var connected := Dialled(attempts[|given| - 1], given[|given| - 1]).1;
            && (sent <==> connected && conversation <= Budget(configured))
            && end == Over(start, attempts, given) +
                      (if !connected then 0 else if conversation <= Budget(configured) then conversation else Budget(configured))
            && (!connected && |given| < 3 ==> start + Budget(configured) <= end + 300)
  {
    hide Timed, Over;
    var r, now;
    r, now, given := DialWithRetry(start, Budget(configured), attempts);
    if r.LastError? { return false, now, given; }
    if conversation <= Budget(configured) { return true, now + conversation, given; }
    return false, now + Budget(configured), given;
  }
}
