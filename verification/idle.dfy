/** The sweeper that closes tunnels nobody signed in on (internal/vpn/idle.go).
    Moments and durations are whole nanoseconds, as Go's are; moments are counted
    from 1970, and the server reports connection times in whole seconds. */
module Idle {
  import opened Prelude
  import opened Numerals
  import opened Management

  const SECOND: int := 1_000_000_000
  const LEAST_INTERVAL: int := 30 * SECOND

  /** time.Duration. */
  type Duration = d: int | -INT64_MAX - 1 <= d <= INT64_MAX

  /** The sweeper's clock, from 1970 to 2262. */
  type Moment = t: int | 0 <= t <= INT64_MAX

  /** The zero time.Time, the first moment of the year 1, in seconds. */
  const ZERO_TIME: int := -62_135_596_800

  /** time.Unix counts from the year 1 in an int64, and so wraps. */
  function UnixSeconds(secs: int): int {
    if secs - ZERO_TIME > INT64_MAX then secs - 0x1_0000_0000_0000_0000 else secs
  }

  /** When the tunnel is held to have connected: a connection time that was not
      reported is left at the zero time. */
  function ConnectedAt(c: ConnectedClient): int {
    match c.connectedSince
    case None => ZERO_TIME * SECOND
    case Some(secs) => UnixSeconds(secs) * SECOND
  }

  /** time.Since, which stops at the longest and the shortest duration. */
  function Since(t: int, now: int): Duration {
    if now - t > INT64_MAX then INT64_MAX else if now - t < -INT64_MAX - 1 then -INT64_MAX - 1 else now - t
  }

  function IdleFor(c: ConnectedClient, now: int): Duration {
    Since(ConnectedAt(c), now)
  }

  /** What one sweep meets: the VPN's client list, if it answers, the addresses that
      are signed in, and the connections that cannot be closed. */
  datatype Round = Round(listing: Option<seq<ConnectedClient>>, signedIn: set<string>, unkillable: set<int>)

  /** The sweep may judge the tunnel, nobody is signed in on it, and it can be closed. */
  predicate Exposed(r: Round, c: ConnectedClient) {
    c.virtualAddress != "" && c.virtualAddress !in r.signedIn && c.clientID !in r.unkillable
  }

  /** The clients a sweep closes, in the order listed. */
  function Reaped(r: Round, now: int, after: Duration): seq<ConnectedClient> {
    match r.listing
    case None => []
    case Some(clients) => Closable(clients, r, now, after)
  }

  function Closable(clients: seq<ConnectedClient>, r: Round, now: int, after: Duration): seq<ConnectedClient> {
    if clients == [] then []
    else
      var last := clients[|clients| - 1];
      var before := Closable(clients[..|clients| - 1], r, now, after);
      if Exposed(r, last) && after <= IdleFor(last, now) then before + [last] else before
  }

  lemma {:induction false} ClosableExactly(clients: seq<ConnectedClient>, r: Round, now: int, after: Duration, c: ConnectedClient)
    ensures c in Closable(clients, r, now, after) <==>
            c in clients && Exposed(r, c) && after <= IdleFor(c, now)
  {
    if clients != [] {
      ClosableExactly(clients[..|clients| - 1], r, now, after, c);
      assert c in clients <==> c == clients[|clients| - 1] || c in clients[..|clients| - 1];
    }
  }

  /** What OnReap is told: each tunnel closed, and how long it had been idle. */
  function Reports(closed: seq<ConnectedClient>, now: int): seq<(ConnectedClient, Duration)> {
    if closed == [] then []
    else
      var last := closed[|closed| - 1];
      Reports(closed[..|closed| - 1], now) + [(last, IdleFor(last, now))]
  }

  /** How often to look: a sixth of the timeout, but no more often than every thirty seconds. */
  function Interval(after: Duration): (every: Duration)
    requires 0 < after
    ensures 30 * SECOND <= every
    ensures 6 * 30 * SECOND <= after ==> 6 * every <= after < 6 * (every + 1)
    ensures after < 6 * 30 * SECOND ==> every == 30 * SECOND
  {
    if after / 6 < LEAST_INTERVAL then LEAST_INTERVAL else after / 6
  }

  lemma OneMoreClient(clients: seq<ConnectedClient>, i: nat, r: Round, now: int, after: Duration)
    requires i < |clients|
    ensures var before := Closable(clients[..i], r, now, after);
            && Closable(clients[..i + 1], r, now, after) ==
                 (if Exposed(r, clients[i]) && after <= IdleFor(clients[i], now) then before + [clients[i]] else before)
            && Reports(before + [clients[i]], now) ==
                 Reports(before, now) + [(clients[i], IdleFor(clients[i], now))]
  {
    assert clients[..i + 1][..i] == clients[..i];
    var before := Closable(clients[..i], r, now, after);
    assert (before + [clients[i]])[..|before|] == before;
  }

  class IdleSweeper {
    const after: Duration
    const every: Duration

    /** Every tunnel closed, with how long it had been idle, as OnReap is told. */
    var reports: seq<(ConnectedClient, Duration)>

    /** NewIdleSweeper: no sweeper at all for a timeout that is not positive. */
    static method Create(after: Duration) returns (s: IdleSweeper?)
      ensures s == null <==> after <= 0
      ensures s != null ==> fresh(s) && s.after == after && s.every == Interval(after) && s.reports == []
    {
      if after <= 0 { return null; }
      s := new IdleSweeper(after);
    }

    constructor (after: Duration)
      requires 0 < after
      ensures this.after == after && every == Interval(after) && reports == []
    {
      this.after := after;
      this.every := Interval(after);
      this.reports := [];
    }

    method Sweep(r: Round, now: int) returns (closed: nat, failed: bool)
      modifies this
      ensures failed <==> r.listing.None?
      ensures closed == |Reaped(r, now, after)|
      ensures reports == old(reports) + Reports(Reaped(r, now, after), now)
    {
      if r.listing.None? {
        assert Reports([], now) == [] && reports + [] == reports;
        return 0, true;
      }
      assert Closable([], r, now, after) == [] && Reports([], now) == [] && reports + [] == reports;
      hide Closable, Reports;
      closed, failed := 0, false;
      var clients := r.listing.value;
      for i := 0 to |clients|
        invariant closed == |Closable(clients[..i], r, now, after)|
        invariant reports == old(reports) + Reports(Closable(clients[..i], r, now, after), now)
      {
        OneMoreClient(clients, i, r, now, after);
        var c := clients[i];
        if c.virtualAddress == "" { continue; }
        if c.virtualAddress in r.signedIn { continue; }
        var idle := IdleFor(c, now);
        if idle < after { continue; }
        if c.clientID in r.unkillable { continue; }
        closed := closed + 1;
        reports := reports + [(c, idle)];
      }
      assert clients[..|clients|] == clients;
    }
  }

  /** A sweep closes exactly the listed tunnels that have an address, nobody is
      signed in on, can be closed, and are held to have been idle long enough. */
  lemma ReapedExactly(r: Round, now: int, after: Duration, c: ConnectedClient)
    ensures c in Reaped(r, now, after) <==>
            && r.listing.Some? && c in r.listing.value
            && c.virtualAddress != "" && c.virtualAddress !in r.signedIn && c.clientID !in r.unkillable
            && after <= IdleFor(c, now)
  {
    if r.listing.Some? { ClosableExactly(r.listing.value, r, now, after, c); }
  }

  // ---- how old a tunnel is, and how old it is held to be ----

  /** What the server may say of a tunnel that began at some moment: the second it
      began in, or nothing. */
  predicate Describes(c: ConnectedClient, began: Moment) {
    c.connectedSince.Some? ==> c.connectedSince.value == began / SECOND
  }

  lemma ConnectedInTheSecond(c: ConnectedClient, began: Moment)
    requires Describes(c, began) && c.connectedSince.Some?
    ensures ConnectedAt(c) == began - began % SECOND
  {
    assert began == (began / SECOND) * SECOND + began % SECOND;
  }

  /** "No tunnel younger than the timeout is closed": a listed tunnel that is
      otherwise exposed is spared exactly when its connection time was reported and
      the second it began in is not yet the timeout ago; so one at least a second
      short of the timeout is spared exactly when its connection time was reported. */
  lemma {:induction false} SparedIff(r: Round, began: Moment, now: Moment, after: Duration, c: ConnectedClient)
    requires r.listing.Some? && c in r.listing.value && Exposed(r, c)
    requires Describes(c, began) && began <= now && 0 < after
    ensures c !in Reaped(r, now, after) <==> c.connectedSince.Some? && now - (began - began % SECOND) < after
    ensures now - began <= after - SECOND ==> (c !in Reaped(r, now, after) <==> c.connectedSince.Some?)
  {
    ReapedExactly(r, now, after, c);
    if c.connectedSince.Some? { ConnectedInTheSecond(c, began); }
  }

  /** A client line that stops before the connection time. */
  const EIGHT_FIELDS: seq<string> :=
    ["CLIENT_LIST", "ann@x.org", "203.0.113.9:50000", "10.8.0.6", "", "0", "0", "now"]

  /** A status reply with such a line and nothing else. */
  const OLD_STATUS: seq<string> := [Join(EIGHT_FIELDS, '\t'), "END"]

  lemma OldLineIsAClient(line: string)
    requires line == Join(EIGHT_FIELDS, '\t')
    ensures ParseClient(line).Some? && TrimCR(line) == line && !IsNotice(line) && line != "END"
    ensures ParseClient(line).value.virtualAddress == "10.8.0.6" && ParseClient(line).value.connectedSince.None?
  {
    hide Split, ParseInt, Join;
    SplitJoin(EIGHT_FIELDS, '\t');
    EndIsNoClient();
    JoinHoldsNo(EIGHT_FIELDS, '\t', '\r');
    JoinStarts(EIGHT_FIELDS, '\t');
  }

  lemma OldStatusLists()
    ensures |ParseClients(Reply(OLD_STATUS, EndsStatus))| == 1
    ensures var c := ParseClients(Reply(OLD_STATUS, EndsStatus))[0];
            c.virtualAddress == "10.8.0.6" && c.connectedSince.None?
  {
    var line := Join(EIGHT_FIELDS, '\t');
    hide Join, ParseClient;
    OldLineIsAClient(line);
    EndIsNoClient();
    assert [line, "END"][1..] == ["END"];
    assert ParseClients(["END"][1..]) == [];
  }

  /** Read from that reply, a tunnel that began this very moment is closed, whatever the
      timeout: its connection time was not reported. */
  lemma {:induction false} UnreportedTunnelIsClosed(now: Moment, after: Duration)
    requires 0 < after
    ensures var clients := ParseClients(Reply(OLD_STATUS, EndsStatus));
            && |clients| == 1 && Describes(clients[0], now)
            && clients[0] in Reaped(Round(Some(clients), {}, {}), now, after)
  {
    OldStatusLists();
    var clients := ParseClients(Reply(OLD_STATUS, EndsStatus));
    SparedIff(Round(Some(clients), {}, {}), now, now, after, clients[0]);
  }

  /** When the ticker fires for the k-th time after start. */
  function Tick(start: int, after: Duration, k: nat): int
    requires 0 < after
  {
    start + k * Interval(after)
  }

  /** The first tick at or after some moment. */
  function FirstTick(start: int, after: Duration, due: int): (k: nat)
    requires 0 < after && start < due
    ensures 0 < k && due <= Tick(start, after, k) < due + Interval(after)
  {
    var gap := due - start;
    var every := Interval(after);
    var k := (gap + every - 1) / every;
    assert gap <= k * every < gap + every by {
      assert gap + every - 1 == k * every + (gap + every - 1) % every;
    }
    assert k != 0;
    k
  }

  lemma {:induction false} Multiples(j: nat, k: nat, every: nat)
    requires j < k
    ensures j * every + every <= k * every
    decreases k
  {
    assert k * every == (k - 1) * every + every;
    if j < k - 1 { Multiples(j, k - 1, every); }
  }

  lemma TicksIncrease(start: int, after: Duration, j: nat, k: nat)
    requires 0 < after && j < k
    ensures Tick(start, after, j) + Interval(after) <= Tick(start, after, k)
  {
    hide Interval;
    Multiples(j, k, Interval(after));
  }

  /** When a tunnel is first there to be closed and held to be old enough. */
  function DueAt(began: Moment, after: Duration): int {
    var held := began - began % SECOND + after;
    if held < began then began else held
  }

  /** With the sweeper running and its ticks ideal, a tunnel that never signs in, is
      listed with the second it began in from that moment until it is closed, and can
      be closed, is closed at exactly one tick. That is the first one at which it is
      held to be old enough: less than a second before the timeout is over, and less
      than one interval after. */
  lemma {:induction false} AbandonedTunnelIsClosed(start: int, after: Duration, c: ConnectedClient, began: Moment,
                                                   rounds: seq<Round>)
    requires 0 < after && Describes(c, began) && c.connectedSince.Some? && start < DueAt(began, after)
    requires FirstTick(start, after, DueAt(began, after)) < |rounds|
    requires forall j :: 0 < j < |rounds| ==>
               if began <= Tick(start, after, j) && j <= FirstTick(start, after, DueAt(began, after)) then
                 rounds[j].listing.Some? && c in rounds[j].listing.value && Exposed(rounds[j], c)
               else rounds[j].listing.Some? ==> c !in rounds[j].listing.value
    ensures var k := FirstTick(start, after, DueAt(began, after));
            && c in Reaped(rounds[k], Tick(start, after, k), after)
            && began + after - SECOND < Tick(start, after, k) < began + after + Interval(after)
            && forall j :: 0 < j < |rounds| ==> (c in Reaped(rounds[j], Tick(start, after, j), after) <==> j == k)
  {
    var k := FirstTick(start, after, DueAt(began, after));
    ConnectedInTheSecond(c, began);
    ReapedExactly(rounds[k], Tick(start, after, k), after, c);
    forall j | 0 < j < |rounds| && j != k ensures c !in Reaped(rounds[j], Tick(start, after, j), after) {
      if j < k { TicksIncrease(start, after, j, k); }
      ReapedExactly(rounds[j], Tick(start, after, j), after, c);
    }
  }
}
