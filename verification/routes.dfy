/** From grants to the routes a VPN client is given (toRoutes and grantedResources
    in internal/api/vpnapi/vpn.go). */
module Routes {
  import opened Prelude
  import opened Text
  import opened Ipv4
  import opened Permissions

  datatype Route = Route(target: Target, resource: string, permission: Permission, viaGroup: string)

  /** The network and netmask a grant leads to, if its resource can be routed to. */
  function Place(g: AccessGrant): Option<Target> {
    var ip := TrimSpace(g.resource.ipAddress);
    if ip == "" then None else SplitCIDR(ip)
  }

  /** Grant k is the first to lead to its network and netmask. */
  ghost predicate IsFirst(grants: seq<AccessGrant>, k: nat) {
    && k < |grants| && Place(grants[k]).Some?
    && forall h :: 0 <= h < k ==> Place(grants[h]) != Place(grants[k])
  }

  /** The route leads where the grant does, and names its resource, its level of access
      and the group it came through. */
  predicate Carries(r: Route, g: AccessGrant) {
    && Place(g) == Some(r.target)
    && r.resource == g.resource.name && r.permission == g.permission && r.viaGroup == g.viaGroup
  }

  /** The routes are those of these grants, which are all the first ones, in order. */
  ghost predicate FromFirsts(routes: seq<Route>, grants: seq<AccessGrant>, firsts: seq<nat>) {
    && |firsts| == |routes|
    && (forall k :: 0 <= k < |firsts| ==> IsFirst(grants, firsts[k]) && Carries(routes[k], grants[firsts[k]]))
    && (forall k, l :: 0 <= k < l < |firsts| ==> firsts[k] < firsts[l])
    && (forall g :: IsFirst(grants, g) ==> g in firsts)
  }

  ghost predicate AreRoutesOf(routes: seq<Route>, grants: seq<AccessGrant>) {
    exists firsts :: FromFirsts(routes, grants, firsts)
  }

  /** The routes of the first i grants, and the places they lead to. */
  ghost predicate SoFar(routes: seq<Route>, grants: seq<AccessGrant>, firsts: seq<nat>, seen: set<Target>, i: nat)
    requires i <= |grants|
  {
    && |firsts| == |routes|
    && (forall k :: 0 <= k < |firsts| ==>
          firsts[k] < i && IsFirst(grants, firsts[k]) && Carries(routes[k], grants[firsts[k]]))
    && (forall k, l :: 0 <= k < l < |firsts| ==> firsts[k] < firsts[l])
    && (forall g: nat :: g < i && IsFirst(grants, g) ==> g in firsts)
    && (forall t :: t in seen <==> exists h :: 0 <= h < i && Place(grants[h]) == Some(t))
  }

  lemma SoFarSkips(routes: seq<Route>, grants: seq<AccessGrant>, firsts: seq<nat>, seen: set<Target>, i: nat)
    requires i < |grants| && SoFar(routes, grants, firsts, seen, i)
    requires Place(grants[i]).None? || Place(grants[i]).value in seen
    ensures SoFar(routes, grants, firsts, seen, i + 1)
  {
    hide Place, Carries;
  }

  lemma SoFarAdds(routes: seq<Route>, grants: seq<AccessGrant>, firsts: seq<nat>, seen: set<Target>, i: nat, route: Route)
    requires i < |grants| && SoFar(routes, grants, firsts, seen, i)
    requires Carries(route, grants[i]) && route.target !in seen
    ensures SoFar(routes + [route], grants, firsts + [i], seen + {route.target}, i + 1)
  {
    hide Place;
    assert IsFirst(grants, i);
  }

  method ToRoutes(grants: seq<AccessGrant>) returns (routes: seq<Route>)
    ensures AreRoutesOf(routes, grants)
  {
    hide SplitCIDR, TrimSpace, SoFar;
    routes := [];
    ghost var firsts: seq<nat> := [];
    var seen: set<Target> := {};
    NothingSoFar(grants);
    for i := 0 to |grants|
      invariant SoFar(routes, grants, firsts, seen, i)
    {
      var g := grants[i];
      var ip := TrimSpace(g.resource.ipAddress);
      var target := if ip == "" then None else SplitCIDR(ip);
      if target.None? || target.value in seen {
        SoFarSkips(routes, grants, firsts, seen, i);
        continue;
      }
      var route := Route(target.value, g.resource.name, g.permission, g.viaGroup);
      SoFarAdds(routes, grants, firsts, seen, i, route);
      seen := seen + {target.value};
      routes := routes + [route];
      firsts := firsts + [i];
    }
    SoFarIsAll(routes, grants, firsts, seen);
  }

  lemma NothingSoFar(grants: seq<AccessGrant>)
    ensures SoFar([], grants, [], {}, 0)
  {
  }

  lemma SoFarIsAll(routes: seq<Route>, grants: seq<AccessGrant>, firsts: seq<nat>, seen: set<Target>)
    requires SoFar(routes, grants, firsts, seen, |grants|)
    ensures AreRoutesOf(routes, grants)
  {
    hide Place;
    assert FromFirsts(routes, grants, firsts);
  }

  /** Grant k is the first of the resource it names. */
  ghost predicate FirstNamed(grants: seq<AccessGrant>, k: nat) {
    k < |grants| && forall h :: 0 <= h < k ==> grants[h].resource.name != grants[k].resource.name
  }

  /** The names are those of these grants, which are in order. */
  ghost predicate NamedInOrder(names: seq<string>, grants: seq<AccessGrant>, firsts: seq<nat>) {
    && |firsts| == |names|
    && (forall k :: 0 <= k < |firsts| ==> FirstNamed(grants, firsts[k]) && names[k] == grants[firsts[k]].resource.name)
    && (forall k, l :: 0 <= k < l < |firsts| ==> firsts[k] < firsts[l])
  }

  /** The names of the resources, each once, in the order first granted. */
  method GrantedResources(grants: seq<AccessGrant>) returns (names: seq<string>)
    ensures forall n :: n in names <==> exists g :: g in grants && g.resource.name == n
    ensures forall k, l :: 0 <= k < l < |names| ==> names[k] != names[l]
    ensures exists firsts :: NamedInOrder(names, grants, firsts)
  {
    names := [];
    ghost var firsts: seq<nat> := [];
    for i := 0 to |grants|
      invariant forall n :: n in names <==> exists h :: 0 <= h < i && grants[h].resource.name == n
      invariant forall k, l :: 0 <= k < l < |names| ==> names[k] != names[l]
      invariant NamedInOrder(names, grants, firsts) && forall k :: 0 <= k < |firsts| ==> firsts[k] < i
    {
      if grants[i].resource.name !in names {
        assert FirstNamed(grants, i);
        names := names + [grants[i].resource.name];
        firsts := firsts + [i];
      }
    }
  }

  // ---- what the routes cover ----

  ghost predicate CoveredByRoutes(routes: seq<Route>, q: Quad) {
    exists r :: r in routes && Covers(r.target, q)
  }

  /** The address lies in the block the resource names. */
  predicate InResource(r: Resource, q: Quad) {
    var c := ParseCidr(TrimSpace(r.ipAddress));
    c.Some? && c.value.bits <= 32 && InBlock(c.value.addr, c.value.bits, q)
  }

  lemma RouteCoversResource(g: AccessGrant, q: Quad)
    ensures Place(g).Some? && Covers(Place(g).value, q) <==> InResource(g.resource, q)
  {
    hide SplitCIDR, ParseCidr, Covers, InBlock, TrimSpace;
    var ip := TrimSpace(g.resource.ipAddress);
    TrimTwice(g.resource.ipAddress);
    SplitCoversBlock(ip, q);
    EmptyIsNoAddress();
  }

  /** The least grant that leads to the same place. */
  lemma {:induction false} HasFirst(grants: seq<AccessGrant>, k: nat) returns (f: nat)
    requires k < |grants| && Place(grants[k]).Some?
    ensures f <= k && IsFirst(grants, f) && Place(grants[f]) == Place(grants[k])
  {
    if IsFirst(grants, k) {
      f := k;
    } else {
      var h :| 0 <= h < k && Place(grants[h]) == Place(grants[k]);
      f := HasFirst(grants, h);
    }
  }

  lemma RoutesCoverGrants(routes: seq<Route>, grants: seq<AccessGrant>, q: Quad)
    requires AreRoutesOf(routes, grants)
    ensures CoveredByRoutes(routes, q) <==> exists g :: g in grants && InResource(g.resource, q)
  {
    var firsts :| FromFirsts(routes, grants, firsts);
    if CoveredByRoutes(routes, q) {
      var r :| r in routes && Covers(r.target, q);
      var k :| 0 <= k < |routes| && routes[k] == r;
      RouteCoversResource(grants[firsts[k]], q);
      assert grants[firsts[k]] in grants;
    }
    if exists g :: g in grants && InResource(g.resource, q) {
      var g :| g in grants && InResource(g.resource, q);
      RouteCoversResource(g, q);
      var k :| 0 <= k < |grants| && grants[k] == g;
      var f := HasFirst(grants, k);
      var l :| 0 <= l < |firsts| && firsts[l] == f;
      assert routes[l] in routes;
    }
  }

  /** No two routes lead to the same network and netmask. */
  lemma RoutesAreDistinct(routes: seq<Route>, grants: seq<AccessGrant>, k: nat, l: nat)
    requires AreRoutesOf(routes, grants) && k < l < |routes|
    ensures routes[k].target != routes[l].target
  {
  }

  /** The address lies in the block of a resource that has not been deleted, granted
      to a group that has not been deleted, that the user directly belongs to. */
  ghost predicate MayReach(t: Tables, user: nat, q: Quad) {
    exists g :: Opens(t, user, g) && InResource(t.resources[g.resource], q)
  }

  /** A user's routes cover exactly the union of those blocks. */
  lemma {:induction false} RoutesPreserveMeaning(t: Tables, user: nat, rows: seq<AccessGrant>, routes: seq<Route>, q: Quad)
    requires Answers(t, user, rows) && AreRoutesOf(routes, rows)
    ensures CoveredByRoutes(routes, q) <==> MayReach(t, user, q)
  {
    hide AreRoutesOf, CoveredByRoutes, InResource, ByResource;
    RoutesCoverGrants(routes, rows, q);
    if exists row :: row in rows && InResource(row.resource, q) {
      var row :| row in rows && InResource(row.resource, q);
      var g :| Joins(t, user, g, row);
      assert InResource(t.resources[g.resource], q);
    }
    if MayReach(t, user, q) {
      var g :| Opens(t, user, g) && InResource(t.resources[g.resource], q);
      var row := AccessGrant(t.resources[g.resource], g.permission, t.groups[g.group].name);
      assert Joins(t, user, g, row);
      assert row in rows && InResource(row.resource, q);
    }
  }

  /** Each route is that of a grant of the user's: it names the resource, the level of
      access and the group of the tables, and leads to the block of that resource. */
  ghost predicate ComesFrom(t: Tables, user: nat, r: Route, g: Grant) {
    && Opens(t, user, g)
    && TrimSpace(t.resources[g.resource].ipAddress) != ""
    && SplitCIDR(TrimSpace(t.resources[g.resource].ipAddress)) == Some(r.target)
    && r.resource == t.resources[g.resource].name
    && r.permission == g.permission
    && r.viaGroup == t.groups[g.group].name
  }

  lemma RouteComesFromGrant(t: Tables, user: nat, rows: seq<AccessGrant>, row: AccessGrant, r: Route)
    requires Answers(t, user, rows) && row in rows && Carries(r, row)
    ensures exists g :: ComesFrom(t, user, r, g)
  {
    hide SplitCIDR, TrimSpace, ByResource, Opens;
    var g :| Joins(t, user, g, row);
    OpensIsThere(t, user, g);
    assert ComesFrom(t, user, r, g);
  }

  lemma OpensIsThere(t: Tables, user: nat, g: Grant)
    requires Opens(t, user, g)
    ensures g.resource in t.resources && g.group in t.groups
  {
  }

  lemma {:induction false} RoutesComeFromGrants(t: Tables, user: nat, rows: seq<AccessGrant>, routes: seq<Route>)
    requires Answers(t, user, rows) && AreRoutesOf(routes, rows)
    ensures forall r :: r in routes ==> exists g :: ComesFrom(t, user, r, g)
  {
    hide Answers, IsFirst, Carries, ComesFrom;
    var firsts :| FromFirsts(routes, rows, firsts);
    forall r | r in routes ensures exists g :: ComesFrom(t, user, r, g) {
      var k :| 0 <= k < |routes| && routes[k] == r;
      FirstIsThere(rows, firsts[k]);
      RouteComesFromGrant(t, user, rows, rows[firsts[k]], r);
    }
  }

  lemma FirstIsThere(grants: seq<AccessGrant>, k: nat)
    requires IsFirst(grants, k)
    ensures k < |grants|
  {
  }

  lemma RoutesCoverReach(t: Tables, user: nat, rows: seq<AccessGrant>, routes: seq<Route>)
    requires Answers(t, user, rows) && AreRoutesOf(routes, rows)
    ensures forall q :: CoveredByRoutes(routes, q) <==> MayReach(t, user, q)
  {
    hide CoveredByRoutes, MayReach, AreRoutesOf, Answers;
    forall q ensures CoveredByRoutes(routes, q) <==> MayReach(t, user, q) {
      RoutesPreserveMeaning(t, user, rows, routes, q);
    }
  }

  /** No address that was accepted when its resource was created is skipped. */
  lemma AcceptedIsRouted(table: map<string, Resource>, id: nat, name: string, kind: string, ip: string,
                         permission: Permission, group: string)
    requires CreateResource(table, id, name, kind, ip).Ok? && TrimSpace(ip) != ""
    ensures Place(AccessGrant(CreateResource(table, id, name, kind, ip).value, permission, group)).Some?
  {
  }
}
