/** The account service: registration with its ordered checks, and the
    exchange of a user's role. */
module Users {

  import opened Results
  import opened Domain
  import opened Requests
  import opened Persistence

  const UsernameTaken := "Username already exists"
  const EmailTaken := "Email already exists"
  const PasswordsDiffer := "Password and confirmation don't match"
  const UserRoleMissing := "Error: Role USER not found."
  const UserMissing := "User not found."
  const RoleMissing := "Error: Role not found."

  // ------------------------------------------------------------ role names

  /** `ERole.name()`. */
  function RoleName(r: ERole): string {
    match r
    case USER => "USER"
    case ADMIN => "ADMIN"
  }

  /** `ERole.valueOf`: the constant whose name is exactly `s`, or the
      `IllegalArgumentException` it throws otherwise (as `None`). */
  function ParseRole(s: string): (r: Option<ERole>)
    ensures r.Some? <==> s == "USER" || s == "ADMIN"
  {
    if s == "USER" then Some(USER)
    else if s == "ADMIN" then Some(ADMIN)
    else None
  }

  /** Parsing inverts naming, and names are the only strings that parse. */
  lemma ParseRoleInvertsName(r: ERole, s: string)
    ensures ParseRole(RoleName(r)) == Some(r)
    ensures ParseRole(s) == Some(r) <==> s == RoleName(r)
  {
  }

  /** Upper-casing of one character; only ASCII letters change. */
  function UpperChar(c: char): (u: char)
    ensures 'a' <= c <= 'z' ==> 'A' <= u <= 'Z' && u as int - c as int == 'A' as int - 'a' as int
    ensures !('a' <= c <= 'z') ==> u == c
  {
    if 'a' <= c <= 'z' then (c as int - 'a' as int + 'A' as int) as char else c
  }

  /** `String.toUpperCase` on ASCII text. */
  function ToUpper(s: string): (r: string)
    ensures |r| == |s| && forall i :: 0 <= i < |s| ==> r[i] == UpperChar(s[i])
  {
    if s == [] then [] else [UpperChar(s[0])] + ToUpper(s[1..])
  }

  /** Upper-casing twice is upper-casing once. */
  lemma ToUpperIdempotent(s: string)
    ensures ToUpper(ToUpper(s)) == ToUpper(s)
  {
  }

  /** The role name the exchange request carries is read case-insensitively:
      "admin", "Admin" and "ADMIN" all name the administrator role, and no
      spelling of "superuser" names any role. */
  lemma RoleNameCaseInsensitive()
    ensures ParseRole(ToUpper("admin")) == Some(ADMIN)
    ensures ParseRole(ToUpper("Admin")) == Some(ADMIN)
    ensures ParseRole(ToUpper("user")) == Some(USER)
    ensures ParseRole(ToUpper("superuser")).None?
  {
    assert ToUpper("admin") == "ADMIN";
    assert ToUpper("Admin") == "ADMIN";
    assert ToUpper("user") == "USER";
    assert ToUpper("superuser")[0] == 'S';
  }

  // ------------------------------------------------------------ uniqueness

  /** `existsByUserName`: a case-sensitive exact match. */
  predicate NameTaken(users: map<int, User>, name: string) {
    exists k :: k in users && users[k].userName == name
  }

  /** `existsByEmail`. A null email is looked up as `IS NULL`, so it is taken
      when some account has no email. */
  predicate EmailInUse(users: map<int, User>, email: Option<string>) {
    exists k :: k in users && users[k].email == email
  }

  /** No two accounts share a user name or an email. */
  ghost predicate Unique(users: map<int, User>) {
    forall j, k :: j in users && k in users && j != k ==>
      users[j].userName != users[k].userName && users[j].email != users[k].email
  }

  // ---------------------------------------------------------- registration

  /** The outcome of `createUser` on the given tables: the user-name check,
      then the email check, then the password confirmation, then the USER role
      lookup; the new account gets `newId`, the encoded password and the USER
      role only. */
  function Register(users: map<int, User>, roles: map<ERole, Role>, dto: UserRequest,
                    encode: string -> string, newId: int): (r: Result<User, Error>)
    requires dto.userName.Some? && dto.password.Some?
    ensures r == Err(UsernameAlreadyExists(UsernameTaken)) <==> NameTaken(users, dto.userName.value)
    ensures r == Err(EmailAlreadyExists(EmailTaken)) <==>
      !NameTaken(users, dto.userName.value) && EmailInUse(users, dto.email)
    ensures r == Err(PasswordMismatch(PasswordsDiffer)) <==>
      !NameTaken(users, dto.userName.value) && !EmailInUse(users, dto.email) && dto.passwordConfirm != dto.password
    ensures r == Err(ResourceNotFound(UserRoleMissing)) <==>
      !NameTaken(users, dto.userName.value) && !EmailInUse(users, dto.email)
      && dto.passwordConfirm == dto.password && USER !in roles
    ensures r.Ok? <==>
      !NameTaken(users, dto.userName.value) && !EmailInUse(users, dto.email)
      && dto.passwordConfirm == dto.password && USER in roles
    ensures r.Ok? ==>
      && r.value.userId == newId
      && r.value.userName == dto.userName.value
      && r.value.email == dto.email
      && r.value.password == encode(dto.password.value)
      && |r.value.roles| == 1 && r.value.roles[0] == roles[USER]
  {
    if NameTaken(users, dto.userName.value) then Err(UsernameAlreadyExists(UsernameTaken))
    else if EmailInUse(users, dto.email) then Err(EmailAlreadyExists(EmailTaken))
    else if dto.password != dto.passwordConfirm then Err(PasswordMismatch(PasswordsDiffer))
    else if USER !in roles then Err(ResourceNotFound(UserRoleMissing))
    else Ok(User(newId, dto.userName.value, dto.email, encode(dto.password.value), [roles[USER]]))
  }

  /** Registration keeps user names and emails unique: the account it adds
      clashes with no existing one. */
  lemma RegisterKeepsUnique(users: map<int, User>, roles: map<ERole, Role>, dto: UserRequest,
                            encode: string -> string, newId: int)
    requires dto.userName.Some? && dto.password.Some?
    requires newId !in users
    requires Register(users, roles, dto, encode, newId).Ok?
    ensures Unique(users) ==> Unique(users[newId := Register(users, roles, dto, encode, newId).value])
  {
    var u := Register(users, roles, dto, encode, newId).value;
    var users' := users[newId := u];
    if Unique(users) {
    forall j, k | j in users' && k in users' && j != k
      ensures users'[j].userName != users'[k].userName && users'[j].email != users'[k].email
    {
      if j == newId {
        assert users'[k] == users[k];
      } else if k == newId {
        assert users'[j] == users[j];
      }
    }
    }
  }

  /** A duplicate user name is reported as such even when the email is taken
      and the passwords differ too: the user-name check comes first. */
  lemma UserNameCheckedFirst(users: map<int, User>, roles: map<ERole, Role>, dto: UserRequest,
                             encode: string -> string, newId: int, k: int)
    requires dto.userName.Some? && dto.password.Some?
    requires k in users && users[k].userName == dto.userName.value
    ensures Register(users, roles, dto, encode, newId) == Err(UsernameAlreadyExists(UsernameTaken))
  {
  }

  // ---------------------------------------------------------- role exchange

  /** The outcome of `exchangepaperUser`: the user lookup, then the role name
      (upper-cased, then parsed), then the role record; the user's roles become
      the new role alone. */
  function ExchangeRoleResult(users: map<int, User>, roles: map<ERole, Role>, id: int, roleName: string): (r: Result<User, Error>)
    ensures id !in users ==> r == Err(ResourceNotFound(UserMissing))
    ensures id in users && ParseRole(ToUpper(roleName)).None? ==> r == Err(IllegalArgument)
    ensures id in users && ParseRole(ToUpper(roleName)).Some? && ParseRole(ToUpper(roleName)).value !in roles ==>
      r == Err(ResourceNotFound(RoleMissing))
    ensures r.Ok? <==>
      id in users && ParseRole(ToUpper(roleName)).Some? && ParseRole(ToUpper(roleName)).value in roles
    ensures r.Ok? ==>
      && id in users
      && ParseRole(ToUpper(roleName)).Some?
      && r.value == users[id].(roles := [roles[ParseRole(ToUpper(roleName)).value]])
  {
    if id !in users then Err(ResourceNotFound(UserMissing))
    else
      match ParseRole(ToUpper(roleName))
      case None => Err(IllegalArgument)
      case Some(name) =>
        if name !in roles then Err(ResourceNotFound(RoleMissing))
        else Ok(users[id].(roles := [roles[name]]))
  }

  /** The exchange replaces the role set rather than adding to it: an admin
      given USER is no longer an admin, whatever roles they held before. */
  lemma ExchangeReplacesRoles(users: map<int, User>, roles: map<ERole, Role>, id: int, roleName: string)
    requires forall n :: n in roles ==> roles[n].roleName == n
    requires ExchangeRoleResult(users, roles, id, roleName).Ok?
    ensures var u := ExchangeRoleResult(users, roles, id, roleName).value;
      |u.roles| == 1 && Some(u.roles[0].roleName) == ParseRole(ToUpper(roleName))
    ensures var u := ExchangeRoleResult(users, roles, id, roleName).value;
      u.userId == users[id].userId && u.userName == users[id].userName
      && u.email == users[id].email && u.password == users[id].password
  {
  }

  // -------------------------------------------------------------- service

  class UserService {
    const db: Database

    constructor (db: Database)
      ensures this.db == db
    {
      this.db := db;
    }

    /** `createUser`: the new account is stored under a fresh id; on any
        failure nothing is stored. The request has been validated, so the user
        name and the password are present. */
    method CreateUser(dto: UserRequest, encode: string -> string) returns (r: Result<User, Error>)
      requires db.Valid()
      requires dto.userName.Some? && dto.password.Some?
      modifies db
      ensures db.Valid()
      ensures r == Register(old(db.users), old(db.roles), dto, encode, old(db.nextUserId))
      ensures r.Err? ==> db.users == old(db.users)
      ensures db.nextUserId == if r.Ok? then old(db.nextUserId) + 1 else old(db.nextUserId)
      ensures db.nextProjectId == old(db.nextProjectId)
      ensures r.Ok? ==> db.users == old(db.users)[r.value.userId := r.value] && r.value.userId !in old(db.users)
      ensures Unique(old(db.users)) ==> Unique(db.users)
      ensures db.roles == old(db.roles) && db.projects == old(db.projects) && db.tasks == old(db.tasks)
    {
      var name := dto.userName.value;
      if exists k :: k in db.users && db.users[k].userName == name {
        return Err(UsernameAlreadyExists(UsernameTaken));
      }
      if exists k :: k in db.users && db.users[k].email == dto.email {
        return Err(EmailAlreadyExists(EmailTaken));
      }
      if dto.password != dto.passwordConfirm {
        return Err(PasswordMismatch(PasswordsDiffer));
      }
      var userRole := db.FindRole(USER);
      if userRole.None? {
        return Err(ResourceNotFound(UserRoleMissing));
      }
      var user := User(db.nextUserId, name, dto.email, encode(dto.password.value), [userRole.value]);
      RegisterKeepsUnique(db.users, db.roles, dto, encode, db.nextUserId);
      db.users := db.users[user.userId := user];
      db.nextUserId := db.nextUserId + 1;
      r := Ok(user);
    }

    /** `exchangepaperUser`: the stored user's role set is cleared and the new
        role added; on any failure nothing changes. */
    method ExchangeRole(id: int, roleName: string) returns (r: Result<User, Error>)
      requires db.Valid()
      modifies db
      ensures db.Valid()
      ensures r == ExchangeRoleResult(old(db.users), old(db.roles), id, roleName)
      ensures r.Err? ==> db.users == old(db.users)
      ensures r.Ok? ==> db.users == old(db.users)[id := r.value]
      ensures Unique(old(db.users)) ==> Unique(db.users)
      ensures db.roles == old(db.roles) && db.projects == old(db.projects) && db.tasks == old(db.tasks)
      ensures db.nextUserId == old(db.nextUserId) && db.nextProjectId == old(db.nextProjectId)
    {
      var found := db.FindUser(id);
      if found.None? {
        return Err(ResourceNotFound(UserMissing));
      }
      var user := found.value;
      var parsed := ParseRole(ToUpper(roleName));
      if parsed.None? {
        return Err(IllegalArgument);
      }
      var newRole := db.FindRole(parsed.value);
      if newRole.None? {
        return Err(ResourceNotFound(RoleMissing));
      }
      user := user.(roles := [newRole.value]);
      db.users := db.users[id := user];
      r := Ok(user);
    }
  }
}
