/** OpenVPN's control channel (internal/vpn/management.go): reading a reply, listing
    the live tunnels, and asking a person's clients to reconnect. */
module Management {
  import opened Prelude
  import opened Text
  import opened Numerals

  // ---- one reply ----

  /** strings.TrimRight(line, "\r"). */
  function TrimCR(line: string): (r: string)
    ensures r <= line && (r == "" || r[|r| - 1] != '\r')
    ensures forall k :: |r| <= k < |line| ==> line[k] == '\r'
  {
    if line != "" && line[|line| - 1] == '\r' then TrimCR(line[..|line| - 1]) else line
  }

  predicate IsNotice(line: string) { HasPrefix(line, ">") }

  lemma IsNoticeIff(line: string)
    ensures IsNotice(line) <==> line != "" && line[0] == '>'
  {
  }

  /** The lines of a reply: notices dropped, up to and including the line that ends it. */
  function Reply(lines: seq<string>, done: string -> bool): seq<string> {
    if lines == [] then []
    else
      var line := TrimCR(lines[0]);
      if IsNotice(line) then Reply(lines[1..], done)
      else if done(line) then [line]
      else [line] + Reply(lines[1..], done)
  }

  function WithoutNotices(lines: seq<string>): seq<string> {
    if lines == [] then []
    else if IsNotice(lines[0]) then WithoutNotices(lines[1..])
    else [lines[0]] + WithoutNotices(lines[1..])
  }

  method Command(lines: seq<string>, done: string -> bool) returns (reply: seq<string>)
    ensures reply == Reply(lines, done)
  {
    reply := [];
    for i := 0 to |lines|
      invariant Reply(lines, done) == reply + Reply(lines[i..], done)
    {
      assert lines[i..][1..] == lines[i + 1..];
      var line := TrimCR(lines[i]);
      if IsNotice(line) {
        continue;
      }
      reply := reply + [line];
      if done(line) {
        return;
      }
    }
    assert lines[|lines|..] == [];
  }

  lemma {:induction false} TrimCRKeepsStart(line: string)
    ensures IsNotice(TrimCR(line)) <==> IsNotice(line)
  {
    if line != "" && line[|line| - 1] == '\r' { TrimCRKeepsStart(line[..|line| - 1]); }
  }

  /** A reply depends on its lines that are not notices and on nothing else. */
  lemma {:induction false} NoticesAreTransparent(lines: seq<string>, done: string -> bool)
    ensures Reply(lines, done) == Reply(WithoutNotices(lines), done)
  {
    if lines != [] {
      TrimCRKeepsStart(lines[0]);
      NoticesAreTransparent(lines[1..], done);
      if !IsNotice(lines[0]) {
        assert ([lines[0]] + WithoutNotices(lines[1..]))[1..] == WithoutNotices(lines[1..]);
      }
    }
  }

  /** Inserting notices anywhere leaves the other lines as they were. */
  lemma {:induction false} InsertedNotices(before: seq<string>, notices: seq<string>, after: seq<string>)
    requires forall n :: n in notices ==> IsNotice(n)
    ensures WithoutNotices(before + notices + after) == WithoutNotices(before + after)
    decreases |before| + |notices|
  {
    if before != [] {
      assert (before + notices + after)[1..] == before[1..] + notices + after;
      assert (before + after)[1..] == before[1..] + after;
      InsertedNotices(before[1..], notices, after);
    } else if notices != [] {
      assert before + notices + after == notices + after;
      assert (notices + after)[1..] == notices[1..] + after;
      assert before + notices[1..] + after == notices[1..] + after;
      InsertedNotices(before, notices[1..], after);
    } else {
      assert before + notices + after == before + after;
    }
  }

  lemma InsertedNoticesChangeNothing(before: seq<string>, notices: seq<string>, after: seq<string>, done: string -> bool)
    requires forall n :: n in notices ==> n != "" && n[0] == '>'
    ensures Reply(before + notices + after, done) == Reply(before + after, done)
  {
    InsertedNotices(before, notices, after);
    NoticesAreTransparent(before + notices + after, done);
    NoticesAreTransparent(before + after, done);
  }

  // ---- the list of clients ----

  const INT64_MAX: int := 0x7FFF_FFFF_FFFF_FFFF

  /** strconv.ParseInt in base ten: the value, and whether the text was a number in
      range. Out of range it is the nearest bound; not a number, it is zero. */
  function ParseInt(s: string): (int, bool) {
    var negative := HasPrefix(s, "-");
    var digits := if negative || HasPrefix(s, "+") then s[1..] else s;
    if digits == "" || !AllDigits(digits) then (0, false)
    else
      var n: int := ValueOf(digits);
      var v := if negative then -n else n;
      if v < -INT64_MAX - 1 then (-INT64_MAX - 1, false)
      else if v > INT64_MAX then (INT64_MAX, false)
      else (v, true)
  }

  datatype ConnectedClient = ConnectedClient(
    commonName: string, realAddress: string, virtualAddress: string,
    bytesReceived: int, bytesSent: int, connectedSince: Option<int>, clientID: int)

  /** One line of a format 3 status, if it describes a client. */
  function ParseClient(line: string): Option<ConnectedClient> {
    var f := Split(line, '\t');
    if |f| < 8 || f[0] != "CLIENT_LIST" then None else Some(FromFields(f))
  }

  /** The fields by position; older servers stop before the ninth. */
  function FromFields(f: seq<string>): ConnectedClient
    requires |f| >= 8
  {
    ConnectedClient(
      f[1], f[2], f[3], ParseInt(f[5]).0, ParseInt(f[6]).0,
      if |f| > 8 && ParseInt(f[8]).1 then Some(ParseInt(f[8]).0) else None,
      if |f| > 10 then ParseInt(f[10]).0 else 0)
  }

  function ParseClients(lines: seq<string>): seq<ConnectedClient> {
    if lines == [] then []
    else
      (match ParseClient(lines[0])
       case None => []
       case Some(c) => [c]) + ParseClients(lines[1..])
  }

  predicate EndsStatus(line: string) { line == "END" }

  /** The fields of one client, as the loop fills them in. */
  method ReadClient(f: seq<string>) returns (c: ConnectedClient)
    requires |f| >= 8
    ensures c == FromFields(f)
  {
    hide ParseInt;
    var received := ParseInt(f[5]);
    var sent := ParseInt(f[6]);
    c := ConnectedClient(f[1], f[2], f[3], received.0, sent.0, None, 0);
    if |f| > 8 {
      var since := ParseInt(f[8]);
      if since.1 { c := c.(connectedSince := Some(since.0)); }
    }
    if |f| > 10 {
      var id := ParseInt(f[10]);
      c := c.(clientID := id.0);
    }
  }

  method Clients(lines: seq<string>) returns (clients: seq<ConnectedClient>)
    ensures clients == ParseClients(Reply(lines, EndsStatus))
  {
    hide Split, ParseInt, Reply, FromFields;
    var reply := Command(lines, EndsStatus);
    clients := [];
    for i := 0 to |reply|
      invariant ParseClients(reply) == clients + ParseClients(reply[i..])
    {
      assert reply[i..][1..] == reply[i + 1..];
      var f := Split(reply[i], '\t');
      if |f| < 8 || f[0] != "CLIENT_LIST" {
        continue;
      }
      var c := ReadClient(f);
      clients := clients + [c];
    }
    assert reply[|reply|..] == [];
  }

  // ---- rendering a list and reading it back ----

  /** What a field may hold: nothing that separates fields or lines. */
  predicate Plain(s: string) { '\t' !in s && '\n' !in s && '\r' !in s }

  predicate Renderable(c: ConnectedClient) {
    && Plain(c.commonName) && Plain(c.realAddress) && Plain(c.virtualAddress)
    && 0 <= c.bytesReceived <= INT64_MAX && 0 <= c.bytesSent <= INT64_MAX && 0 <= c.clientID <= INT64_MAX
    && c.connectedSince.Some? && 0 <= c.connectedSince.value <= INT64_MAX
  }

  /** What OpenVPN prints besides: the virtual IPv6 address, the time for humans, the
      user name, and any fields it adds after the client's number. */
  datatype Extras = Extras(ipv6: string, time: string, user: string, more: seq<string>)

  predicate PlainExtras(x: Extras) {
    Plain(x.ipv6) && Plain(x.time) && Plain(x.user) && forall f :: f in x.more ==> Plain(f)
  }

  function Fields(c: ConnectedClient, x: Extras): seq<string>
    requires Renderable(c)
  {
    ["CLIENT_LIST", c.commonName, c.realAddress, c.virtualAddress, x.ipv6,
     Digits(c.bytesReceived), Digits(c.bytesSent), x.time, Digits(c.connectedSince.value), x.user, Digits(c.clientID)]
    + x.more
  }

  function Render(c: ConnectedClient, x: Extras): string
    requires Renderable(c)
  {
    Join(Fields(c, x), '\t')
  }

  lemma ParseIntDigits(n: nat)
    requires n <= INT64_MAX
    ensures ParseInt(Digits(n)) == (n, true)
  {
    ValueOfDigits(n);
    var s := Digits(n);
    assert IsDigit(s[0]);
  }

  lemma FieldsArePlain(c: ConnectedClient, x: Extras)
    requires Renderable(c) && PlainExtras(x)
    ensures forall f :: f in Fields(c, x) ==> Plain(f)
  {
  }

  lemma ParseRendered(c: ConnectedClient, x: Extras)
    requires Renderable(c) && PlainExtras(x)
    ensures ParseClient(Render(c, x)) == Some(c)
  {
    FieldsArePlain(c, x);
    SplitJoin(Fields(c, x), '\t');
    ParseIntDigits(c.bytesReceived); ParseIntDigits(c.bytesSent);
    ParseIntDigits(c.connectedSince.value); ParseIntDigits(c.clientID);
  }

  // ---- the channel as text ----

  /** bufio.Scanner: the lines of the text; what follows the last line break is a
      line if there is anything there. Carriage returns are trimmed by the reader. */
  function ScanLines(text: string): seq<string> {
    var lines := Split(text, '\n');
    if lines[|lines| - 1] == "" then lines[..|lines| - 1] else lines
  }

  /** Lines as the server sends them. */
  function Transmit(lines: seq<string>): string {
    if lines == [] then "" else lines[0] + "\r\n" + Transmit(lines[1..])
  }

  function WithCR(lines: seq<string>): seq<string> {
    if lines == [] then [] else [lines[0] + "\r"] + WithCR(lines[1..])
  }

  predicate OneLine(s: string) { '\n' !in s && '\r' !in s }

  lemma {:induction false} SplitTransmitted(lines: seq<string>)
    requires forall l :: l in lines ==> OneLine(l)
    ensures Split(Transmit(lines), '\n') == WithCR(lines) + [""]
  {
    if lines != [] {
      assert OneLine(lines[0]);
      SplitTransmitted(lines[1..]);
      var line := lines[0] + "\r";
      SplitAtFirst(line, Transmit(lines[1..]), '\n');
      assert Transmit(lines) == line + ['\n'] + Transmit(lines[1..]);
    }
  }

  lemma TrimOneCR(line: string)
    requires '\r' !in line
    ensures TrimCR(line + "\r") == line
  {
  }

  /** A reply with no notices in it, ended by its last line, is read line by line. */
  lemma {:induction false} ReplyIsWhole(lines: seq<string>, done: string -> bool)
    requires lines != [] && (forall l :: l in lines ==> OneLine(l) && !IsNotice(l))
    requires done(lines[|lines| - 1]) && forall k :: 0 <= k < |lines| - 1 ==> !done(lines[k])
    ensures Reply(WithCR(lines), done) == lines
  {
    assert OneLine(lines[0]);
    TrimOneCR(lines[0]);
    assert WithCR(lines)[0] == lines[0] + "\r" && WithCR(lines)[1..] == WithCR(lines[1..]);
    if |lines| > 1 { ReplyIsWhole(lines[1..], done); }
  }

  lemma {:induction false} NoticesWithCR(lines: seq<string>)
    requires forall l :: l in lines ==> OneLine(l)
    ensures WithoutNotices(WithCR(lines)) == WithCR(WithoutNotices(lines))
  {
    if lines != [] {
      assert OneLine(lines[0]);
      NoticesWithCR(lines[1..]);
      TrimOneCR(lines[0]);
      TrimCRKeepsStart(lines[0] + "\r");
      assert WithCR(lines)[1..] == WithCR(lines[1..]);
      if !IsNotice(lines[0]) {
        assert ([lines[0]] + WithoutNotices(lines[1..]))[1..] == WithoutNotices(lines[1..]);
      }
    }
  }

  lemma {:induction false} WithoutNoticesHasNone(lines: seq<string>)
    ensures forall l :: l in WithoutNotices(lines) ==> l in lines && !IsNotice(l)
  {
    if lines != [] { WithoutNoticesHasNone(lines[1..]); }
  }

  lemma {:induction false} ParseClientsConcat(a: seq<string>, b: seq<string>)
    ensures ParseClients(a + b) == ParseClients(a) + ParseClients(b)
  {
    if a == [] {
      assert a + b == b;
    } else {
      assert (a + b)[1..] == a[1..] + b;
      ParseClientsConcat(a[1..], b);
    }
  }

  lemma {:induction false} NothingToParse(lines: seq<string>)
    requires forall l :: l in lines ==> ParseClient(l).None?
    ensures ParseClients(lines) == []
  {
    if lines != [] { NothingToParse(lines[1..]); }
  }

  function RenderAll(cs: seq<ConnectedClient>, xs: seq<Extras>): seq<string>
    requires |cs| == |xs| && forall c :: c in cs ==> Renderable(c)
  {
    if cs == [] then [] else [Render(cs[0], xs[0])] + RenderAll(cs[1..], xs[1..])
  }

  lemma ParseHead(line: string, rest: seq<string>, c: ConnectedClient)
    requires ParseClient(line) == Some(c)
    ensures ParseClients([line] + rest) == [c] + ParseClients(rest)
  {
  }

  lemma {:induction false} ParseRenderAll(cs: seq<ConnectedClient>, xs: seq<Extras>)
    requires |cs| == |xs| && (forall c :: c in cs ==> Renderable(c)) && forall x :: x in xs ==> PlainExtras(x)
    ensures ParseClients(RenderAll(cs, xs)) == cs
  {
    assert ParseClients([]) == [];
    hide Render, ParseClient, ParseClients, Renderable, PlainExtras;
    if cs == [] {
    } else {
      assert cs[0] in cs && xs[0] in xs;
      assert (forall c :: c in cs[1..] ==> c in cs) && forall x :: x in xs[1..] ==> x in xs;
      assert RenderAll(cs, xs) == [Render(cs[0], xs[0])] + RenderAll(cs[1..], xs[1..]);
      hide RenderAll;
      ParseRendered(cs[0], xs[0]);
      ParseRenderAll(cs[1..], xs[1..]);
      ParseHead(Render(cs[0], xs[0]), RenderAll(cs[1..], xs[1..]), cs[0]);
      assert [cs[0]] + cs[1..] == cs;
    }
  }

  lemma {:induction false} RenderAllHasNoEnd(cs: seq<ConnectedClient>, xs: seq<Extras>)
    requires |cs| == |xs| && (forall c :: c in cs ==> Renderable(c)) && forall x :: x in xs ==> PlainExtras(x)
    ensures forall l :: l in RenderAll(cs, xs) ==> l != "END"
  {
    hide Render, ParseClient, Renderable, PlainExtras;
    if cs != [] {
      assert cs[0] in cs && xs[0] in xs;
      assert (forall c :: c in cs[1..] ==> c in cs) && forall x :: x in xs[1..] ==> x in xs;
      ParseRendered(cs[0], xs[0]);
      EndIsNoClient();
      RenderAllHasNoEnd(cs[1..], xs[1..]);
    }
  }

  lemma EndIsNoClient()
    ensures ParseClient("END").None?
  {
  }

  /** Read back through the channel, text sent is its lines without the notices, when
      only the last of those ends the reply. */
  lemma TransmittedReply(sent: seq<string>, done: string -> bool)
    requires forall l :: l in sent ==> OneLine(l)
    requires var lines := WithoutNotices(sent);
             lines != [] && done(lines[|lines| - 1]) && forall k :: 0 <= k < |lines| - 1 ==> !done(lines[k])
    ensures Reply(ScanLines(Transmit(sent)), done) == WithoutNotices(sent)
  {
    hide WithCR, Transmit, Reply, WithoutNotices, Split, OneLine, IsNotice;
    SplitTransmitted(sent);
    assert (WithCR(sent) + [""])[..|WithCR(sent)|] == WithCR(sent);
    NoticesAreTransparent(WithCR(sent), done);
    NoticesWithCR(sent);
    WithoutNoticesHasNone(sent);
    ReplyIsWhole(WithoutNotices(sent), done);
  }

  /** A list of clients among lines that describe none. */
  function Status(header: seq<string>, cs: seq<ConnectedClient>, xs: seq<Extras>, trailer: seq<string>): seq<string>
    requires |cs| == |xs| && forall c :: c in cs ==> Renderable(c)
  {
    header + RenderAll(cs, xs) + trailer + ["END"]
  }

  lemma StatusParses(header: seq<string>, cs: seq<ConnectedClient>, xs: seq<Extras>, trailer: seq<string>)
    requires |cs| == |xs| && (forall c :: c in cs ==> Renderable(c)) && forall x :: x in xs ==> PlainExtras(x)
    requires forall l :: l in header || l in trailer ==> ParseClient(l).None?
    ensures ParseClients(Status(header, cs, xs, trailer)) == cs
  {
    hide ParseClients, ParseClient, RenderAll, Renderable, PlainExtras;
    ParseRenderAll(cs, xs);
    NothingToParse(header);
    NothingToParse(trailer);
    EndIsNoClient();
    NothingToParse(["END"]);
    ParseClientsConcat(header + RenderAll(cs, xs) + trailer, ["END"]);
    ParseClientsConcat(header + RenderAll(cs, xs), trailer);
    ParseClientsConcat(header, RenderAll(cs, xs));
  }

  /** Whatever notices arrive among its lines, a status reply that lists some clients
      among lines that describe none is read back as exactly those clients. */
  lemma StatusRoundTrip(sent: seq<string>, cs: seq<ConnectedClient>, xs: seq<Extras>,
                        header: seq<string>, trailer: seq<string>)
    requires |cs| == |xs| && (forall c :: c in cs ==> Renderable(c)) && forall x :: x in xs ==> PlainExtras(x)
    requires forall l :: l in header || l in trailer ==> ParseClient(l).None? && l != "END"
    requires forall l :: l in sent ==> OneLine(l)
    requires WithoutNotices(sent) == Status(header, cs, xs, trailer)
    ensures ParseClients(Reply(ScanLines(Transmit(sent)), EndsStatus)) == cs
  {
    hide ParseClients, ParseClient, RenderAll, Renderable, PlainExtras, Reply, WithoutNotices, Transmit, ScanLines;
    var status := Status(header, cs, xs, trailer);
    RenderAllHasNoEnd(cs, xs);
    var middle := RenderAll(cs, xs);
    forall k | 0 <= k < |status| - 1 ensures !EndsStatus(status[k]) {
      if k < |header| {
        assert status[k] == header[k] && header[k] in header;
      } else if k < |header| + |middle| {
        assert status[k] == middle[k - |header|] && middle[k - |header|] in middle;
      } else {
        assert status[k] == trailer[k - |header| - |middle|] && trailer[k - |header| - |middle|] in trailer;
      }
    }
    TransmittedReply(sent, EndsStatus);
    StatusParses(header, cs, xs, trailer);
  }

  // ---- reconnecting a person's clients ----

  function RestartCommand(c: ConnectedClient): string {
    "client-kill " + (if c.clientID < 0 then "-" + Digits(-c.clientID) else Digits(c.clientID)) + " RESTART"
  }

  /** The clients that hold a certificate's name, in the order listed. */
  function Matching(clients: seq<ConnectedClient>, commonName: string): seq<ConnectedClient> {
    if clients == [] then []
    else if clients[0].commonName == commonName then [clients[0]] + Matching(clients[1..], commonName)
    else Matching(clients[1..], commonName)
  }

  lemma {:induction false} MatchingExactly(clients: seq<ConnectedClient>, commonName: string)
    ensures multiset(Matching(clients, commonName)) <= multiset(clients)
    ensures forall c :: multiset(Matching(clients, commonName))[c] ==
              if c.commonName == commonName then multiset(clients)[c] else 0
  {
    if clients != [] {
      assert clients == [clients[0]] + clients[1..];
      MatchingExactly(clients[1..], commonName);
    }
  }

  /** Whether the client at i is one of them, and then those after it. */
  lemma MatchingFrom(clients: seq<ConnectedClient>, i: nat, commonName: string)
    requires i <= |clients|
    ensures Matching(clients[i..], commonName) ==
            if i == |clients| then []
            else (if clients[i].commonName == commonName then [clients[i]] else []) + Matching(clients[i + 1..], commonName)
  {
    if i < |clients| { assert clients[i..][1..] == clients[i + 1..]; }
  }

  lemma ParseIntNegative(n: nat)
    requires 0 < n <= INT64_MAX
    ensures ParseInt("-" + Digits(n)).0 == 0 - n && ParseInt("-" + Digits(n)).1
  {
    hide Digits, ValueOf;
    ValueOfDigits(n);
    assert ("-" + Digits(n))[1..] == Digits(n);
  }

  /** The command names the client by its own number, which reads back as that number. */
  lemma {:induction false} RestartNamesTheClient(c: ConnectedClient) returns (number: string)
    requires -INT64_MAX <= c.clientID <= INT64_MAX
    ensures RestartCommand(c) == "client-kill " + number + " RESTART"
    ensures ParseInt(number) == (c.clientID, true)
  {
    hide Digits, ParseInt;
    if c.clientID < 0 {
      ParseIntNegative(-c.clientID);
      number := "-" + Digits(-c.clientID);
    } else {
      ParseIntDigits(c.clientID);
      number := Digits(c.clientID);
    }
  }

  /** answers says which commands, in order, reach the server. One restart is sent
      for each client with the name, in order, up to the first that fails; asked
      counts those that did not. */
  method Reconnect(status: seq<string>, commonName: string, answers: seq<bool>)
    returns (asked: nat, failed: bool, sent: seq<string>)
    requires |answers| >= |Matching(ParseClients(Reply(status, EndsStatus)), commonName)|
    ensures var matching := Matching(ParseClients(Reply(status, EndsStatus)), commonName);
            && asked <= |matching| && |sent| == (if failed then asked + 1 else asked) <= |matching|
            && (forall k :: 0 <= k < |sent| ==> sent[k] == RestartCommand(matching[k]))
            && (forall k :: 0 <= k < asked ==> answers[k])
            && (failed ==> !answers[asked])
            && (!failed ==> asked == |matching|)
  {
    hide RestartCommand, Reply, ParseClients, Matching;
    var clients := Clients(status);
    asked, failed, sent := 0, false, [];
    ghost var matching := Matching(clients, commonName);
    assert clients[0..] == clients;
    for i := 0 to |clients|
      invariant asked == |sent| <= |matching| && !failed
      invariant matching[asked..] == Matching(clients[i..], commonName)
      invariant forall k :: 0 <= k < asked ==> sent[k] == RestartCommand(matching[k]) && answers[k]
    {
      MatchingFrom(clients, i, commonName);
      var c := clients[i];
      if c.commonName != commonName { continue; }
      assert matching[asked..][0] == c && matching[asked..][1..] == matching[asked + 1..];
      sent := sent + [RestartCommand(c)];
      if !answers[asked] {
        failed := true;
        return;
      }
      asked := asked + 1;
    }
    MatchingFrom(clients, |clients|, commonName);
  }
}
