/** User accounts (internal/services/user.go): who may be granted access at all. */
module Accounts {
  import opened Prelude
  import opened Text

  datatype Status = Active | Inactive | Suspended

  datatype User = User(id: nat, email: string, status: Status, groups: seq<string>, deleted: bool)

  /** The users table by its unique email column; soft-deleted rows keep their place. */
  type Users = map<string, User>

  datatype AccountError = UserNotFound | UserExists | InvalidEmail | UserInactive

  function FindUser(users: Users, email: string): Result<User, AccountError> {
    var e := Normalise(email);
    if e in users && !users[e].deleted then Ok(users[e]) else Err(UserNotFound)
  }

  function IsAuthorised(users: Users, email: string): Result<User, AccountError> {
    match FindUser(users, email)
    case Err(e) => Err(e)
    case Ok(user) => if user.status == Active then Ok(user) else Err(UserInactive)
  }

  /** strings.Index(email, "@"), or -1. */
  function At(email: string): int {
    if '@' !in email then -1 else if email[0] == '@' then 0 else 1 + At(email[1..])
  }

  /** looksLikeEmail: an @ with something on both sides, and no blanks. */
  predicate LooksLikeEmail(email: string) {
    var at := At(email);
    0 < at < |email| - 1 && ' ' !in email && '\t' !in email
  }

  lemma {:induction false} AtIsFirst(email: string)
    requires '@' in email
    ensures 0 <= At(email) < |email| && email[At(email)] == '@' && '@' !in email[..At(email)]
  {
    if email[0] != '@' {
      AtIsFirst(email[1..]);
      assert email[..At(email)] == [email[0]] + email[1..][..At(email[1..])];
    }
  }

  lemma {:induction false} AtOfParts(name: string, domain: string)
    requires '@' !in name
    ensures At(name + "@" + domain) == |name|
  {
    if name != "" {
      AtOfParts(name[1..], domain);
      assert (name + "@" + domain)[1..] == name[1..] + "@" + domain;
    }
  }

  /** An address is accepted exactly when it splits at its first @ into two parts that
      are not empty, and holds no blank. */
  lemma {:induction false} LooksLikeEmailIff(email: string)
    ensures LooksLikeEmail(email) <==>
            && (exists name, domain :: name != "" && domain != "" && '@' !in name && email == name + "@" + domain)
            && ' ' !in email && '\t' !in email
  {
    if '@' in email {
      AtIsFirst(email);
      var at := At(email);
      assert email == email[..at] + "@" + email[at + 1..];
    }
    if exists name, domain :: name != "" && domain != "" && '@' !in name && email == name + "@" + domain {
      var name, domain :| name != "" && domain != "" && '@' !in name && email == name + "@" + domain;
      AtOfParts(name, domain);
    }
  }

  function CreateUser(users: Users, email: string, id: nat): (Users, Option<AccountError>) {
    var e := Normalise(email);
    if !LooksLikeEmail(e) then (users, Some(InvalidEmail))
    else if e in users then (users, Some(UserExists))
    else (users[e := User(id, e, Active, [], false)], None)
  }

  function SetStatus(users: Users, email: string, status: Status): (Users, Option<AccountError>) {
    match FindUser(users, email)
    case Err(e) => (users, Some(e))
    case Ok(user) => (users[user.email := user.(status := status)], None)
  }

  function DeactivateUser(users: Users, email: string): (Users, Option<AccountError>) {
    SetStatus(users, email, Inactive)
  }

  function ActivateUser(users: Users, email: string): (Users, Option<AccountError>) {
    match FindUser(users, email)
    case Err(e) => (users, Some(e))
    case Ok(user) => if user.status == Active then (users, None) else SetStatus(users, email, Active)
  }

  /** Rows are filed under their own, normalised, address. */
  ghost predicate Indexed(users: Users) {
    forall e :: e in users ==> users[e].email == e && Normalise(e) == e
  }

  /** A new account is made exactly when its address is one and nobody has it, a
      deleted account included; every other row stays as it was. */
  lemma CreateTakesNothing(users: Users, email: string, id: nat)
    requires Indexed(users)
    ensures var a, (users', e) := Normalise(email), CreateUser(users, email, id);
            && Indexed(users')
            && (e.None? <==> LooksLikeEmail(a) && a !in users)
            && (forall x :: x in users ==> x in users' && users'[x] == users[x])
            && (e.Some? ==> users' == users)
            && (e.None? ==>
                  && users'.Keys == users.Keys + {a}
                  && IsAuthorised(users', email) == Ok(User(id, a, Active, [], false)))
  {
    hide TrimSpace, ToLower, LooksLikeEmail;
    NormaliseIdempotent(email);
  }

  /** An authorised account is authorised under its own address. */
  lemma AuthorisedByOwnEmail(users: Users, email: string)
    requires Indexed(users) && IsAuthorised(users, email).Ok?
    ensures IsAuthorised(users, IsAuthorised(users, email).value.email) == IsAuthorised(users, email)
  {
  }

  /** Deactivating closes exactly one account, and activating it again is the way back. */
  lemma DeactivateThenActivate(users: Users, email: string, other: string)
    requires Indexed(users) && FindUser(users, email).Ok?
    ensures var closed := DeactivateUser(users, email).0;
            && Indexed(closed)
            && IsAuthorised(closed, email) == Err(UserInactive)
            && (Normalise(other) != Normalise(email) ==> IsAuthorised(closed, other) == IsAuthorised(users, other))
            && var reopened := ActivateUser(closed, email).0;
               Indexed(reopened) && IsAuthorised(reopened, email) == Ok(FindUser(users, email).value.(status := Active))
  {
    hide TrimSpace, ToLower;
    var user := FindUser(users, email).value;
    assert user.email == Normalise(email);
    var closed := DeactivateUser(users, email).0;
    assert closed == users[user.email := user.(status := Inactive)];
    assert FindUser(closed, email) == Ok(user.(status := Inactive));
    assert ActivateUser(closed, email).0 == closed[user.email := user.(status := Active)];
  }
}
