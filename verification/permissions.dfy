/** Resources, grants and the join behind a user's access
    (internal/services/resource.go and internal/services/permission.go). */
module Permissions {
  import opened Prelude
  import opened Text
  import opened Ipv4
  import opened Accounts
  import opened UserStore

  datatype Kind = Dashboard | VM | Database | Service

  datatype Resource = Resource(id: nat, name: string, kind: Kind, ipAddress: string, deleted: bool)

  datatype ResourceError = InvalidResource | ResourceExists

  function KindOf(text: string): Option<Kind> {
    match Normalise(text)
    case "dashboard" => Some(Dashboard)
    case "vm" => Some(VM)
    case "database" => Some(Database)
    case "service" => Some(Service)
    case _ => None
  }

  /** The checks of CreateResource, in its order; id is the new row's. */
  function CreateResource(rows: map<string, Resource>, id: nat, name: string, kind: string, ip: string)
    : Result<Resource, ResourceError>
  {
    var n, address := TrimSpace(name), TrimSpace(ip);
    if n == "" then Err(InvalidResource)
    else
      match KindOf(kind)
      case None => Err(InvalidResource)
      case Some(k) =>
        if (k == VM || k == Database) && ip == "" then Err(InvalidResource)
        else if address != "" && SplitCIDR(address).None? then Err(InvalidResource)
        else if n in rows && !rows[n].deleted then Err(ResourceExists)
        else Ok(Resource(id, n, k, address, false))
  }

  /** The names of the kinds of resource. */
  function KindName(k: Kind): string {
    match k
    case Dashboard => "dashboard"
    case VM => "vm"
    case Database => "database"
    case Service => "service"
  }

  lemma KindOfIff(text: string, k: Kind)
    ensures KindOf(text) == Some(k) <==> Normalise(text) == KindName(k)
  {
    hide Normalise;
    assert KindName(k)[0] == (match k case Dashboard => 'd' case VM => 'v' case Database => 'd' case Service => 's');
    assert KindName(Dashboard)[2] == 's' && KindName(Database)[2] == 't';
  }

  /** Exactly which requests make a resource, and which resource they make. */
  lemma CreateResourceIff(rows: map<string, Resource>, id: nat, name: string, kind: string, ip: string, r: Resource)
    ensures CreateResource(rows, id, name, kind, ip) == Ok(r) <==>
            && r.id == id && !r.deleted
            && r.name == TrimSpace(name) != "" && (r.name in rows ==> rows[r.name].deleted)
            && Normalise(kind) == KindName(r.kind)
            && r.ipAddress == TrimSpace(ip)
            && (r.ipAddress != "" ==> ParseCidr(r.ipAddress).Some?)
            && (r.kind in {VM, Database} ==> ip != "")
  {
    hide KindOf, SplitCIDR, ParseCidr, TrimSpace, Normalise, KindName;
    TrimTwice(ip);
    SplitIsMasking(TrimSpace(ip));
    KindOfIff(kind, r.kind);
    if KindOf(kind).Some? { KindOfIff(kind, KindOf(kind).value); }
  }

  lemma TrimTwice(s: string)
    ensures TrimSpace(TrimSpace(s)) == TrimSpace(s)
  {
  }

  /** An accepted resource is stored trimmed, and is routed if it has an address. */
  lemma AcceptedIsRoutable(rows: map<string, Resource>, id: nat, name: string, kind: string, ip: string)
    requires CreateResource(rows, id, name, kind, ip).Ok?
    ensures var r := CreateResource(rows, id, name, kind, ip).value;
            && TrimSpace(r.ipAddress) == r.ipAddress
            && (r.ipAddress != "" ==> SplitCIDR(r.ipAddress).Some?)
  {
  }

  /** "vm and database resources need an address so that routes can be pushed" is
      kept exactly when the request's address is not all blanks: the check looks at
      the address before it is trimmed. */
  lemma MachineIsRoutableIff(rows: map<string, Resource>, id: nat, name: string, kind: string, ip: string)
    requires CreateResource(rows, id, name, kind, ip).Ok?
    requires CreateResource(rows, id, name, kind, ip).value.kind in {VM, Database}
    ensures SplitCIDR(CreateResource(rows, id, name, kind, ip).value.ipAddress).Some? <==> TrimSpace(ip) != ""
  {
  }

  lemma EmptyIsNoAddress()
    ensures SplitCIDR("").None?
  {
  }

  /** A machine registered with a blank address is accepted and reaches nothing. */
  lemma BlankMachineAccepted()
    ensures CreateResource(map[], 1, "db1", "vm", " ") == Ok(Resource(1, "db1", VM, "", false))
  {
    assert TrimSpace(" ") == "" by { assert " "[1..] == ""; }
    assert Normalise("vm") == "vm";
    assert KindOf("vm") == Some(VM);
  }

  // ---- grants ----

  datatype Permission = ReadOnly | Write | Admin | SSH | Full

  datatype Group = Group(name: string, deleted: bool)

  datatype Grant = Grant(group: nat, resource: nat, permission: Permission)

  /** user_groups, group_permissions, groups and resources. */
  datatype Tables = Tables(members: set<(nat, nat)>, grants: set<Grant>, groups: map<nat, Group>, resources: map<nat, Resource>)

  datatype AccessGrant = AccessGrant(resource: Resource, permission: Permission, viaGroup: string)

  /** A membership leads to this grant, and neither its group nor its resource has
      been deleted. */
  predicate Opens(t: Tables, user: nat, g: Grant) {
    && (user, g.group) in t.members && g in t.grants
    && g.group in t.groups && !t.groups[g.group].deleted
    && g.resource in t.resources && !t.resources[g.resource].deleted
  }

  /** This row of the join comes from a membership, a grant, and a group and a
      resource that have not been deleted. */
  predicate Joins(t: Tables, user: nat, g: Grant, row: AccessGrant) {
    && Opens(t, user, g)
    && row == AccessGrant(t.resources[g.resource], g.permission, t.groups[g.group].name)
  }

  /** The database's answer to ResourcesForUser: the rows of the join, every one of
      them, ordered by resource. */
  ghost predicate Answers(t: Tables, user: nat, rows: seq<AccessGrant>) {
    && (forall row :: row in rows ==> exists g :: Joins(t, user, g, row))
    && (forall g, row :: Joins(t, user, g, row) ==> row in rows)
    && ByResource(rows)
  }

  ghost predicate ByResource(rows: seq<AccessGrant>) {
    forall i, j :: 0 <= i < j < |rows| ==> rows[i].resource.id <= rows[j].resource.id
  }

  function InsertRow(row: AccessGrant, rows: seq<AccessGrant>): (r: seq<AccessGrant>)
    requires ByResource(rows)
    ensures ByResource(r) && forall x :: x in r <==> x == row || x in rows
  {
    if rows == [] then [row]
    else if row.resource.id <= rows[0].resource.id then [row] + rows
    else
      var rest := InsertRow(row, rows[1..]);
      assert forall x :: x in rows <==> x == rows[0] || x in rows[1..];
      assert forall k :: 0 <= k < |rest| ==> rest[k] in rest;
      [rows[0]] + rest
  }

  datatype PermissionError = InvalidPermission | GroupNotFound | ResourceNotFound

  function PermissionOf(text: string): Option<Permission> {
    match Normalise(text)
    case "read" => Some(ReadOnly)
    case "write" => Some(Write)
    case "admin" => Some(Admin)
    case "ssh" => Some(SSH)
    case "full" => Some(Full)
    case _ => None
  }

  /** The names of the levels of access. */
  function PermissionName(p: Permission): string {
    match p
    case ReadOnly => "read"
    case Write => "write"
    case Admin => "admin"
    case SSH => "ssh"
    case Full => "full"
  }

  lemma PermissionOfIff(text: string, p: Permission)
    ensures PermissionOf(text) == Some(p) <==> Normalise(text) == PermissionName(p)
  {
    hide Normalise;
    assert PermissionName(p)[0] ==
           (match p case ReadOnly => 'r' case Write => 'w' case Admin => 'a' case SSH => 's' case Full => 'f');
  }

  predicate GroupNamed(t: Tables, name: string, id: nat) {
    id in t.groups && !t.groups[id].deleted && t.groups[id].name == TrimSpace(name)
  }

  predicate ResourceNamed(t: Tables, name: string, id: nat) {
    id in t.resources && !t.resources[id].deleted && t.resources[id].name == TrimSpace(name)
  }

  /** What a request names: the level of access, and the first group and the first
      resource of those names that have not been deleted. */
  ghost predicate Names(t: Tables, group: string, resource: string, permission: string, g: Grant) {
    && PermissionOf(permission) == Some(g.permission)
    && GroupNamed(t, group, g.group) && (forall id: nat :: id < g.group ==> !GroupNamed(t, group, id))
    && ResourceNamed(t, resource, g.resource) && (forall id: nat :: id < g.resource ==> !ResourceNamed(t, resource, id))
  }

  /** Why a request names nothing. */
  ghost predicate Fails(t: Tables, group: string, resource: string, permission: string, e: PermissionError) {
    match e
    case InvalidPermission => PermissionOf(permission).None?
    case GroupNotFound => PermissionOf(permission).Some? && forall id: nat :: !GroupNamed(t, group, id)
    case ResourceNotFound =>
      && PermissionOf(permission).Some? && (exists id: nat :: GroupNamed(t, group, id))
      && forall id: nat :: !ResourceNamed(t, resource, id)
  }

  /** PermissionService: the tables as grants and revocations change them. */
  class PermissionService {
    const users: UserService
    var tables: Tables

    constructor (tables: Tables, users: UserService)
      ensures this.tables == tables && this.users == users
    {
      this.tables, this.users := tables, users;
    }

    /** The least of some ids, if there is one: rows are looked up in order of their key. */
    static method First(ids: set<nat>) returns (least: Option<nat>)
      ensures least.None? <==> ids == {}
      ensures least.Some? ==> least.value in ids && forall id :: id in ids ==> least.value <= id
    {
      least := None;
      var left := ids;
      while left != {}
        invariant left <= ids
        invariant least.None? <==> left == ids
        invariant least.Some? ==> least.value in ids && forall id :: id in ids && id !in left ==> least.value <= id
        decreases left
      {
        var id :| id in left;
        if least.None? || id < least.value { least := Some(id); }
        left := left - {id};
      }
    }

    method Lookup(group: string, resource: string, permission: string) returns (r: Result<Grant, PermissionError>)
      ensures r.Ok? ==> Names(tables, group, resource, permission, r.value)
      ensures r.Err? ==> Fails(tables, group, resource, permission, r.error)
    {
      hide PermissionOf;
      var kind := PermissionOf(permission);
      if kind.None? { return Err(InvalidPermission); }
      var groupName, resourceName := TrimSpace(group), TrimSpace(resource);
      var groups := set id | id in tables.groups && !tables.groups[id].deleted && tables.groups[id].name == groupName;
      var resources := set id | id in tables.resources && !tables.resources[id].deleted
                                && tables.resources[id].name == resourceName;
      assert forall id: nat :: GroupNamed(tables, group, id) <==> id in groups;
      assert forall id: nat :: ResourceNamed(tables, resource, id) <==> id in resources;
      hide GroupNamed, ResourceNamed;
      var g := First(groups);
      if g.None? { return Err(GroupNotFound); }
      var found := First(resources);
      if found.None? { return Err(ResourceNotFound); }
      return Ok(Grant(g.value, found.value, kind.value));
    }

    /** Granting what is already granted changes nothing. */
    method AddGrant(group: string, resource: string, permission: string) returns (r: Result<Grant, PermissionError>)
      modifies this
      ensures r.Ok? ==> Names(old(tables), group, resource, permission, r.value)
                        && tables == old(tables).(grants := old(tables).grants + {r.value})
      ensures r.Err? ==> Fails(old(tables), group, resource, permission, r.error) && tables == old(tables)
    {
      r := Lookup(group, resource, permission);
      if r.Ok? && r.value !in tables.grants {
        tables := tables.(grants := tables.grants + {r.value});
      }
    }

    method RemoveGrant(group: string, resource: string, permission: string) returns (r: Result<Grant, PermissionError>)
      modifies this
      ensures r.Ok? ==> Names(old(tables), group, resource, permission, r.value)
                        && tables == old(tables).(grants := old(tables).grants - {r.value})
      ensures r.Err? ==> Fails(old(tables), group, resource, permission, r.error) && tables == old(tables)
    {
      r := Lookup(group, resource, permission);
      if r.Ok? {
        tables := tables.(grants := tables.grants - {r.value});
      }
    }

    /** Everything the user may reach, through any group they belong to. The loop is
        the database's join. */
    method ResourcesForUser(email: string) returns (r: Result<seq<AccessGrant>, AccountError>)
      ensures match FindUser(users.users, email)
              case Err(e) => r == Err(e)
              case Ok(user) => r.Ok? && Answers(tables, user.id, r.value)
    {
      hide FindUser;
      var user := users.GetUserByEmail(email);
      if user.Err? { return Err(user.error); }
      var id, t := user.value.id, tables;
      var rows: seq<AccessGrant> := [];
      var left := t.grants;
      while left != {}
        invariant left <= t.grants && ByResource(rows)
        invariant forall row :: row in rows ==> exists g :: Joins(t, id, g, row)
        invariant forall g, row :: Joins(t, id, g, row) && g !in left ==> row in rows
        decreases left
      {
        var g :| g in left;
        if (id, g.group) in t.members
           && g.group in t.groups && !t.groups[g.group].deleted
           && g.resource in t.resources && !t.resources[g.resource].deleted {
          var row := AccessGrant(t.resources[g.resource], g.permission, t.groups[g.group].name);
          assert Joins(t, id, g, row);
          rows := InsertRow(row, rows);
        }
        left := left - {g};
      }
      return Ok(rows);
    }
  }

  /** The user may reach the resource, at any level of access. */
  ghost predicate Reaches(t: Tables, user: nat, resource: nat) {
    exists g, row :: Joins(t, user, g, row) && g.resource == resource
  }

  /** Revoking one grant takes a resource from a user exactly when no other grant,
      at another level or through another group, still leads there; and granting it
      again restores what was reached. */
  lemma RevokeTakesAwayIff(t: Tables, user: nat, g: Grant, resource: nat)
    ensures var revoked := t.(grants := t.grants - {g});
            && (Reaches(revoked, user, resource) <==>
                  exists h, row :: Joins(t, user, h, row) && h.resource == resource && h != g)
            && (g in t.grants ==> revoked.(grants := revoked.grants + {g}) == t)
  {
    var revoked := t.(grants := t.grants - {g});
    if Reaches(revoked, user, resource) {
      var h, row :| Joins(revoked, user, h, row) && h.resource == resource;
      assert Joins(t, user, h, row);
    }
    if exists h, row :: Joins(t, user, h, row) && h.resource == resource && h != g {
      var h, row :| Joins(t, user, h, row) && h.resource == resource && h != g;
      assert Joins(revoked, user, h, row);
    }
  }
}
