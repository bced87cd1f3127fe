/** The endpoints the VPN server itself calls (internal/api/vpnapi/vpn.go). */
module VpnApi {
  import opened Prelude
  import opened Sessions
  import opened Accounts
  import opened Login
  import opened Keys
  import opened AuthService
  import opened Permissions
  import opened Routes

  datatype Reason = NoActiveSession | BelongsToSomebodyElse | NoLongerAuthorisedUser | Refused

  datatype AccessResponse = Granted(email: string, groups: seq<string>, routes: seq<Route>) | Denied(reason: Reason)

  class Handler {
    const auth: Service
    const perms: PermissionService

    constructor (auth: Service, perms: PermissionService)
      ensures this.auth == auth && this.perms == perms
    {
      this.auth, this.perms := auth, perms;
    }

    /** Both services stand on the same accounts. */
    ghost predicate Valid()
      reads auth, auth.rdb, auth.users
    {
      auth.Valid() && perms.users == auth.users
    }

    /** The routes of whoever is let on cover exactly the blocks of the resources that
        their own account may reach. */
    method Access(clientIP: string, commonName: string) returns (response: AccessResponse)
      requires Valid()
      modifies auth.rdb
      ensures Valid() && auth.rdb.now == old(auth.rdb.now)
      ensures auth.Keyspace() == Login.Access(old(auth.Keyspace()), auth.users.users, clientIP, commonName)
      ensures match Login.Admit(old(auth.Keyspace()), auth.users.users, clientIP, commonName)
              case NoSessionHere => response == Denied(NoActiveSession)
              case SomebodyElse => response == Denied(BelongsToSomebodyElse)
              case NoLongerAuthorised => response == Denied(NoLongerAuthorisedUser)
              case Admitted(s) =>
                && response.Granted? && response.email == s.email && response.groups == s.groups
                && FindUser(auth.users.users, s.email).Ok?
                && var user := FindUser(auth.users.users, s.email).value;
                   && (exists rows :: Answers(perms.tables, user.id, rows) && AreRoutesOf(response.routes, rows))
                   && (forall q :: CoveredByRoutes(response.routes, q) <==> MayReach(perms.tables, user.id, q))
                   && forall r :: r in response.routes ==> exists g :: ComesFrom(perms.tables, user.id, r, g)
    {
      hide View, SameIdentity, Reconnected, AreRoutesOf, ComesFrom, CoveredByRoutes, MayReach, Answers;
      var found := auth.SessionForClientIP(clientIP);
      if found == Err(NoSession) {
        response := Denied(NoActiveSession);
        return;
      }
      if found.Err? {
        response := Denied(Refused);
        return;
      }
      var s := found.value;
      if !SameIdentity(commonName, s.email) {
        response := Denied(BelongsToSomebodyElse);
        return;
      }
      var user := auth.users.IsAuthorised(s.email);
      if user.Err? {
        response := Denied(NoLongerAuthorisedUser);
        return;
      }
      hide FindUser;
      var _ := auth.ClientReconnected(clientIP);
      var grants := perms.ResourcesForUser(s.email);
      if grants.Err? {
        response := Denied(Refused);
        return;
      }
      var routes := ToRoutes(grants.value);
      response := Granted(s.email, s.groups, routes);
      RoutesCoverReach(perms.tables, user.value.id, grants.value, routes);
      RoutesComeFromGrants(perms.tables, user.value.id, grants.value, routes);
    }

    /** The session at the address is shortened, not ended; what is returned is whose
        it was, for the record. */
    method Disconnect(clientIP: string) returns (left: Option<Session>)
      requires auth.Valid()
      modifies auth.rdb
      ensures auth.Valid() && auth.rdb.now == old(auth.rdb.now)
      ensures auth.Keyspace() ==
              old(auth.Keyspace()).(book := Disconnected(old(auth.Keyspace()).book, auth.rdb.now, clientIP))
      ensures left == GetByClientIP(old(auth.Keyspace()).book, auth.rdb.now, clientIP)
    {
      hide View;
      var found := auth.SessionForClientIP(clientIP);
      var _ := auth.ClientDisconnected(clientIP);
      return if found.Ok? then Some(found.value) else None;
    }
  }
}
