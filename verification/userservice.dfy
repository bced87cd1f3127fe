/** UserService (internal/services/user.go): the account table and the optional
    hook that closes a person's tunnels. */
module UserStore {
  import opened Prelude
  import opened Text
  import opened Accounts

  class UserService {
    var users: Users
    var nextId: nat
    /** Whether the VPN offers a way to close tunnels, and whose it was asked to. */
    var disconnect: bool
    var killed: seq<string>

    ghost predicate Valid()
      reads this
    {
      Indexed(users)
    }

    constructor ()
      ensures Valid() && users == map[] && !disconnect && killed == []
    {
      users, nextId, disconnect, killed := map[], 1, false, [];
    }

    method EnableDisconnect()
      modifies this`disconnect
      ensures disconnect
    {
      disconnect := true;
    }

    method GetUserByEmail(email: string) returns (r: Result<User, AccountError>)
      ensures r == FindUser(users, email)
    {
      var e := Normalise(email);
      if e !in users || users[e].deleted { return Err(UserNotFound); }
      return Ok(users[e]);
    }

    method IsAuthorised(email: string) returns (r: Result<User, AccountError>)
      ensures var a := Normalise(email);
              && (r.Ok? <==> a in users && !users[a].deleted && users[a].status == Active)
              && (r.Ok? ==> r.value == users[a])
              && (r == Err(UserNotFound) <==> a !in users || users[a].deleted)
              && (r == Err(UserInactive) <==> a in users && !users[a].deleted && users[a].status != Active)
      ensures r == Accounts.IsAuthorised(users, email)
    {
      r := GetUserByEmail(email);
      if r.Ok? && r.value.status != Active { return Err(UserInactive); }
    }

    method CreateUser(email: string) returns (e: Option<AccountError>)
      requires Valid()
      modifies this`users, this`nextId
      ensures Valid()
      ensures (users, e) == Accounts.CreateUser(old(users), email, old(nextId))
      ensures nextId == if e.None? then old(nextId) + 1 else old(nextId)
    {
      var a := Normalise(email);
      CreateTakesNothing(users, email, nextId);
      if !LooksLikeEmail(a) { return Some(InvalidEmail); }
      if a in users { return Some(UserExists); }
      users := users[a := User(nextId, a, Active, [], false)];
      nextId := nextId + 1;
      return None;
    }

    /** The tunnels are closed after the account is, and only if there is a way to. */
    method DeactivateUser(email: string) returns (e: Option<AccountError>)
      requires Valid()
      modifies this`users, this`killed
      ensures Valid()
      ensures (users, e) == Accounts.DeactivateUser(old(users), email)
      ensures killed == if e.None? && disconnect then old(killed) + [Normalise(email)] else old(killed)
    {
      hide TrimSpace, ToLower;
      var r := GetUserByEmail(email);
      match r {
        case Err(error) => return Some(error);
        case Ok(user) =>
          users := users[user.email := user.(status := Inactive)];
          if disconnect { killed := killed + [user.email]; }
          return None;
      }
    }

    method ActivateUser(email: string) returns (e: Option<AccountError>)
      requires Valid()
      modifies this`users
      ensures Valid()
      ensures (users, e) == Accounts.ActivateUser(old(users), email)
    {
      hide TrimSpace, ToLower;
      var r := GetUserByEmail(email);
      match r {
        case Err(error) => return Some(error);
        case Ok(user) =>
          if user.status == Active { return None; }
          users := users[user.email := user.(status := Active)];
          return None;
      }
    }
  }
}
