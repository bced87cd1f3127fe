/** The listing of live sessions (Active in internal/auth/session.go): what one
    sweep over both key families adds up to. */
module Active {
  import opened Prelude
  import opened Cells
  import opened Sessions

  datatype ActiveSession = ActiveSession(session: Session, remaining: int, onTunnel: bool)

  /** One key of the sweep that could be read: the session in it, whether the key
      is an address, and the key's time to live. */
  datatype Sighting = Sighting(session: Session, tunnel: bool, ttl: int)

  type Tally = map<string, ActiveSession>

  /** One turn of the sweep's loop. */
  function Note(m: Tally, g: Sighting): Tally {
    var t := g.session.token;
    var existing := if t in m then m[t] else ActiveSession(g.session, 0, false);
    var marked := if g.tunnel then existing.(onTunnel := true) else existing;
    m[t := if 0 < g.ttl && (marked.remaining == 0 || g.ttl < marked.remaining) then marked.(remaining := g.ttl) else marked]
  }

  function NoteAll(gs: seq<Sighting>): Tally {
    if gs == [] then map[] else Note(NoteAll(gs[..|gs| - 1]), gs[|gs| - 1])
  }

  /** What the sweep sees of the keys of one family, in the order given. */
  function Seen(cells: Cells<Session>, now: int, keys: seq<string>, tunnel: bool): seq<Sighting> {
    if keys == [] then []
    else
      var k := keys[|keys| - 1];
      Seen(cells, now, keys[..|keys| - 1], tunnel)
      + (match Fetch(cells, k, now)
         case None => []
         case Some(s) => [Sighting(s, tunnel, Ttl(cells, k, now))])
  }

  function Sweep(b: Book, now: int, addresses: seq<string>, tokens: seq<string>): seq<Sighting> {
    Seen(b.addresses, now, addresses, true) + Seen(b.sessions, now, tokens, false)
  }

  /** One turn of the sweep's loop adds what the next key shows. */
  lemma NoteNext(gs: seq<Sighting>, cells: Cells<Session>, now: int, keys: seq<string>, i: nat, tunnel: bool)
    requires i < |keys|
    ensures var shown := Fetch(cells, keys[i], now);
            var before, after := gs + Seen(cells, now, keys[..i], tunnel), gs + Seen(cells, now, keys[..i + 1], tunnel);
            && (shown.None? ==> after == before)
            && (shown.Some? ==>
                  NoteAll(after) == Note(NoteAll(before), Sighting(shown.value, tunnel, Ttl(cells, keys[i], now))))
  {
    assert keys[..i + 1][..i] == keys[..i];
    var seen := Seen(cells, now, keys[..i], tunnel);
    var shown := Fetch(cells, keys[i], now);
    if shown.Some? {
      var g := Sighting(shown.value, tunnel, Ttl(cells, keys[i], now));
      assert gs + (seen + [g]) == (gs + seen) + [g];
      assert ((gs + seen) + [g])[..|gs + seen|] == gs + seen;
    } else {
      assert seen + [] == seen;
    }
  }

  // ---- what the tally says about the sightings ----

  /** The session filed under t, and its marks, sum up the sightings of t: on the
      tunnel if any of them was an address, and with the least positive time to
      live among them (zero if there is none). */
  ghost predicate SumsUp(a: ActiveSession, gs: seq<Sighting>, t: string) {
    && (exists i :: 0 <= i < |gs| && gs[i].session.token == t && a.session == gs[i].session)
    && (a.onTunnel <==> exists i :: 0 <= i < |gs| && gs[i].session.token == t && gs[i].tunnel)
    && (forall i :: 0 <= i < |gs| && gs[i].session.token == t && 0 < gs[i].ttl ==> 0 < a.remaining <= gs[i].ttl)
    && (a.remaining != 0 ==> exists i :: 0 <= i < |gs| && gs[i].session.token == t && a.remaining == gs[i].ttl)
    && 0 <= a.remaining
  }

  lemma {:induction false} TallySumsUp(gs: seq<Sighting>, t: string)
    ensures t in NoteAll(gs) <==> exists i :: 0 <= i < |gs| && gs[i].session.token == t
    ensures t in NoteAll(gs) ==> SumsUp(NoteAll(gs)[t], gs, t)
  {
    if gs != [] {
      var front, g := gs[..|gs| - 1], gs[|gs| - 1];
      TallySumsUp(front, t);
      assert forall i :: 0 <= i < |gs| ==> gs[i] == if i < |front| then front[i] else g;
      if g.session.token == t {
        assert gs[|gs| - 1].session.token == t;
        if t in NoteAll(front) { SumsUpMore(NoteAll(front)[t], front, g, t); }
      } else if t in NoteAll(front) {
        SumsUpSame(NoteAll(front)[t], front, g, t);
      }
    }
  }

  lemma SumsUpMore(a: ActiveSession, front: seq<Sighting>, g: Sighting, t: string)
    requires SumsUp(a, front, t) && g.session.token == t
    ensures SumsUp(Note(map[t := a], g)[t], front + [g], t)
  {
    var gs := front + [g];
    var a' := Note(map[t := a], g)[t];
    assert gs[|front|] == g;
    var i :| 0 <= i < |front| && front[i].session.token == t && a.session == front[i].session;
    assert gs[i].session.token == t;
    if a.onTunnel {
      var j :| 0 <= j < |front| && front[j].session.token == t && front[j].tunnel;
      assert gs[j].tunnel;
    }
    if a.remaining != 0 {
      var j :| 0 <= j < |front| && front[j].session.token == t && a.remaining == front[j].ttl;
      assert gs[j].ttl == a.remaining;
    }
  }

  lemma SumsUpSame(a: ActiveSession, front: seq<Sighting>, g: Sighting, t: string)
    requires SumsUp(a, front, t) && g.session.token != t
    ensures SumsUp(a, front + [g], t)
  {
    var gs := front + [g];
    var i :| 0 <= i < |front| && front[i].session.token == t && a.session == front[i].session;
    assert gs[i].session.token == t;
    if a.onTunnel {
      var j :| 0 <= j < |front| && front[j].session.token == t && front[j].tunnel;
      assert gs[j].tunnel;
    }
    if a.remaining != 0 {
      var j :| 0 <= j < |front| && front[j].session.token == t && a.remaining == front[j].ttl;
      assert gs[j].ttl == a.remaining;
    }
  }

  // ---- what a sweep sees ----

  lemma {:induction false} SeenIsReadable(cells: Cells<Session>, now: int, keys: seq<string>, tunnel: bool, i: nat)
    requires i < |Seen(cells, now, keys, tunnel)|
    ensures var g := Seen(cells, now, keys, tunnel)[i];
            g.tunnel == tunnel && exists k :: k in keys && Fetch(cells, k, now) == Some(g.session) && g.ttl == Ttl(cells, k, now)
  {
    var front := keys[..|keys| - 1];
    if i < |Seen(cells, now, front, tunnel)| {
      SeenIsReadable(cells, now, front, tunnel, i);
    } else {
      assert keys[|keys| - 1] in keys;
    }
  }

  lemma {:induction false} ReadableIsSeen(cells: Cells<Session>, now: int, keys: seq<string>, tunnel: bool, k: string)
    requires k in keys && Fetch(cells, k, now).Some?
    ensures Sighting(Fetch(cells, k, now).value, tunnel, Ttl(cells, k, now)) in Seen(cells, now, keys, tunnel)
  {
    if keys[|keys| - 1] != k {
      assert k in keys[..|keys| - 1];
      ReadableIsSeen(cells, now, keys[..|keys| - 1], tunnel, k);
    }
  }

  /** A scan turns up every live key, in any order, any number of times. */
  ghost predicate Complete<T>(cells: Cells<T>, now: int, keys: seq<string>) {
    forall k :: Live(cells, k, now) ==> k in keys
  }

  /** The listing agrees with the lookups: one entry for each token that can be
      looked up and no other, holding that session; marked as on the tunnel exactly
      when the lookup by its address leads back to it; and with the time its keys
      have left, which is the same for both. */
  lemma ListingAgrees(b: Book, now: int, addresses: seq<string>, tokens: seq<string>, t: string)
    requires Agree(b, now) && Complete(b.addresses, now, addresses) && Complete(b.sessions, now, tokens)
    ensures var m := NoteAll(Sweep(b, now, addresses, tokens));
            && (t in m <==> Get(b, now, t).Some?)
            && (t in m ==>
                  && Get(b, now, t) == Some(m[t].session)
                  && (m[t].onTunnel <==> GetByClientIP(b, now, m[t].session.clientIP) == Some(m[t].session))
                  && m[t].remaining == Ttl(b.sessions, t, now) > 0
                  && (m[t].onTunnel ==> m[t].remaining == Ttl(b.addresses, m[t].session.clientIP, now)))
  {
    var gs := Sweep(b, now, addresses, tokens);
    var m := NoteAll(gs);
    TallySumsUp(gs, t);
    forall i | 0 <= i < |gs| && gs[i].session.token == t
      ensures Get(b, now, t) == Some(gs[i].session) && gs[i].ttl == Ttl(b.sessions, t, now) > 0
      ensures gs[i].tunnel ==> GetByClientIP(b, now, gs[i].session.clientIP) == Some(gs[i].session)
    {
      SightingAgrees(b, now, addresses, tokens, i);
    }
    if Get(b, now, t).Some? {
      ReadableIsSeen(b.sessions, now, tokens, false, t);
      assert Sighting(Get(b, now, t).value, false, Ttl(b.sessions, t, now)) in gs;
      var s := Get(b, now, t).value;
      if GetByClientIP(b, now, s.clientIP) == Some(s) {
        ReadableIsSeen(b.addresses, now, addresses, true, s.clientIP);
        var g := Sighting(s, true, Ttl(b.addresses, s.clientIP, now));
        assert g in gs;
        var j :| 0 <= j < |gs| && gs[j] == g;
        assert gs[j].tunnel;
      }
    }
  }

  lemma SightingAgrees(b: Book, now: int, addresses: seq<string>, tokens: seq<string>, i: nat)
    requires Agree(b, now) && i < |Sweep(b, now, addresses, tokens)|
    ensures var g := Sweep(b, now, addresses, tokens)[i];
            && Get(b, now, g.session.token) == Some(g.session) && g.ttl == Ttl(b.sessions, g.session.token, now) > 0
            && (g.tunnel ==> GetByClientIP(b, now, g.session.clientIP) == Some(g.session))
  {
    var seen := Seen(b.addresses, now, addresses, true);
    if i < |seen| {
      SeenIsReadable(b.addresses, now, addresses, true, i);
    } else {
      SeenIsReadable(b.sessions, now, tokens, false, i - |seen|);
    }
  }

  // ---- newest first ----

  ghost predicate NewestFirst(xs: seq<ActiveSession>) {
    forall i, j :: 0 <= i < j < |xs| ==> xs[i].session.issuedAt >= xs[j].session.issuedAt
  }

  /** No token is listed twice. */
  ghost predicate TokensApart(xs: seq<ActiveSession>) {
    forall i, j :: 0 <= i < j < |xs| ==> xs[i].session.token != xs[j].session.token
  }

  /** Each entry of the tally is listed exactly once. */
  ghost predicate Lists(xs: seq<ActiveSession>, m: Tally) {
    && TokensApart(xs)
    && (forall t :: t in m ==> m[t] in xs)
    && (forall x :: x in xs ==> x.session.token in m && m[x.session.token] == x)
  }

  function Insert(x: ActiveSession, xs: seq<ActiveSession>): (r: seq<ActiveSession>)
    requires NewestFirst(xs)
    ensures NewestFirst(r) && forall y :: y in r <==> y == x || y in xs
  {
    if xs == [] then [x]
    else if x.session.issuedAt >= xs[0].session.issuedAt then [x] + xs
    else
      var rest := Insert(x, xs[1..]);
      assert forall y :: y in xs <==> y == xs[0] || y in xs[1..];
      assert forall k :: 0 <= k < |rest| ==> rest[k] in rest;
      [xs[0]] + rest
  }

  lemma {:induction false} InsertApart(x: ActiveSession, xs: seq<ActiveSession>)
    requires NewestFirst(xs) && TokensApart(xs) && forall y :: y in xs ==> y.session.token != x.session.token
    ensures TokensApart(Insert(x, xs))
  {
    if xs != [] && x.session.issuedAt < xs[0].session.issuedAt {
      var rest := Insert(x, xs[1..]);
      InsertApart(x, xs[1..]);
      assert forall k :: 0 <= k < |rest| ==> rest[k] in rest;
      assert forall y :: y in xs[1..] ==> exists k :: 1 <= k < |xs| && xs[k] == y;
    }
  }

  /** A listing of exactly the sessions that can be looked up: newest first, each
      token once, each on the tunnel exactly when its address leads back to it, and
      with the time both its keys have left. */
  ghost predicate ListsTheLive(xs: seq<ActiveSession>, b: Book, now: int) {
    && NewestFirst(xs) && TokensApart(xs)
    && (forall t :: Get(b, now, t).Some? ==> exists x :: x in xs && x.session.token == t)
    && (forall x :: x in xs ==> EntryIsLive(x, b, now))
  }

  ghost predicate EntryIsLive(x: ActiveSession, b: Book, now: int) {
    var s := x.session;
    && Get(b, now, s.token) == Some(s)
    && (x.onTunnel <==> GetByClientIP(b, now, s.clientIP) == Some(s))
    && x.remaining == Ttl(b.sessions, s.token, now) > 0
    && (x.onTunnel ==> x.remaining == Ttl(b.addresses, s.clientIP, now))
  }

  lemma {:induction false} ListingIsLive(b: Book, now: int, addresses: seq<string>, tokens: seq<string>, xs: seq<ActiveSession>)
    requires Agree(b, now) && Complete(b.addresses, now, addresses) && Complete(b.sessions, now, tokens)
    requires NewestFirst(xs) && Lists(xs, NoteAll(Sweep(b, now, addresses, tokens)))
    ensures ListsTheLive(xs, b, now)
  {
    hide Complete, NewestFirst, TokensApart, NoteAll, Sweep;
    forall x | x in xs ensures EntryIsLive(x, b, now) { ListingAgrees(b, now, addresses, tokens, x.session.token); }
    forall t | Get(b, now, t).Some? ensures exists x :: x in xs && x.session.token == t {
      ListingAgrees(b, now, addresses, tokens, t);
      var x := NoteAll(Sweep(b, now, addresses, tokens))[t];
      assert x in xs && x.session.token == t;
    }
  }
}
