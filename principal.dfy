/** The authenticated principal, which adapts a user to the security
    framework, and the converter that turns a verified token into an
    authentication. */
module Principal {

  import opened Results
  import opened Domain
  import opened Users
  import Projects

  /** The granted authority of one role. */
  function Authority(r: Role): string {
    "ROLE_" + RoleName(r.roleName)
  }

  /** The role an authority string names, if any. */
  function AuthorityRole(a: string): (r: Option<ERole>)
    ensures r.Some? ==> a == "ROLE_" + RoleName(r.value)
  {
    if |a| > 5 && a[..5] == "ROLE_" then ParseRole(a[5..]) else None
  }

  /** Each role's authority names that role back. */
  lemma AuthorityRoundTrip(r: Role)
    ensures AuthorityRole(Authority(r)) == Some(r.roleName)
  {
    var a := Authority(r);
    assert a[..5] == "ROLE_" && a[5..] == RoleName(r.roleName);
  }

  /** The principal wrapping a user. Every accessor reads the wrapped user at
      the time of the call; nothing is cached. */
  datatype UserAuthenticated = UserAuthenticated(user: User) {

    /** `getUser`. */
    function GetUser(): (u: User)
      ensures UserAuthenticated(u) == this
    {
      user
    }

    /** `getAuthorities`: one authority per role, in the roles' order. */
    function GetAuthorities(): (auths: seq<string>)
      ensures |auths| == |user.roles|
      ensures forall i :: 0 <= i < |auths| ==> AuthorityRole(auths[i]) == Some(user.roles[i].roleName)
    {
      AuthoritiesOf(user.roles)
    }

    /** `getPassword`: the stored hash. */
    function GetPassword(): (p: string)
      ensures p == user.password
    {
      user.password
    }

    /** `getUsername`: the account's user name, not its id or email. */
    function GetUsername(): (n: string)
      ensures n == user.userName
    {
      user.userName
    }

    predicate IsAccountNonExpired() { true }
    predicate IsAccountNonLocked() { true }
    predicate IsCredentialsNonExpired() { true }
    predicate IsEnabled() { true }
  }

  /** The authorities of a role list, element by element. */
  function AuthoritiesOf(roles: seq<Role>): (auths: seq<string>)
    ensures |auths| == |roles|
    ensures forall i :: 0 <= i < |roles| ==> auths[i] == Authority(roles[i])
    ensures forall i :: 0 <= i < |roles| ==> AuthorityRole(auths[i]) == Some(roles[i].roleName)
  {
    if roles == [] then []
    else
      AuthorityRoundTrip(roles[0]);
      [Authority(roles[0])] + AuthoritiesOf(roles[1..])
  }

  /** Every account is usable: the four status flags always hold. */
  lemma AccountAlwaysUsable(p: UserAuthenticated)
    ensures p.IsAccountNonExpired() && p.IsAccountNonLocked()
    ensures p.IsCredentialsNonExpired() && p.IsEnabled()
  {
  }

  /** The service's administrator test agrees with the framework's view of the
      authorities: a user is an administrator exactly when "ROLE_ADMIN" is
      among the principal's authorities. */
  lemma {:induction false} AdminIffAdminAuthority(u: User)
    ensures Projects.IsAdm(u) <==> "ROLE_ADMIN" in UserAuthenticated(u).GetAuthorities()
  {
    var auths := UserAuthenticated(u).GetAuthorities();
    if "ROLE_ADMIN" in auths {
      var i :| 0 <= i < |auths| && auths[i] == "ROLE_ADMIN";
      assert "ROLE_ADMIN"[..5] == "ROLE_" && "ROLE_ADMIN"[5..] == "ADMIN";
      assert u.roles[i].roleName == ADMIN;
    }
    if Projects.IsAdm(u) {
      var i :| 0 <= i < |u.roles| && u.roles[i].roleName == ADMIN;
      assert auths[i] == Authority(u.roles[i]) == "ROLE_ADMIN";
    }
  }

  /** After a role exchange the principal of the changed user carries exactly
      one authority, that of the new role. */
  lemma ExchangedUserAuthorities(users: map<int, User>, roles: map<ERole, Role>, id: int, roleName: string)
    requires forall n :: n in roles ==> roles[n].roleName == n
    requires ExchangeRoleResult(users, roles, id, roleName).Ok?
    ensures UserAuthenticated(ExchangeRoleResult(users, roles, id, roleName).value).GetAuthorities()
      == ["ROLE_" + RoleName(ParseRole(ToUpper(roleName)).value)]
  {
  }

  // ------------------------------------------------------------ converter

  /** The claims of a verified token the converter reads; `userId` is absent
      when the token carries no such claim. */
  datatype Jwt = Jwt(subject: string, userId: Option<int>)

  /** `UsernamePasswordAuthenticationToken` built from a principal, the
      credentials and the granted authorities. */
  datatype AuthenticationToken = AuthenticationToken(
    principal: UserAuthenticated,
    credentials: Option<string>,
    authorities: seq<string>,
    authenticated: bool)

  /** `extractUser`: the user whose id the `userId` claim holds. A missing
      claim reaches the repository as a null id, which it refuses with an
      illegal-argument failure; an unknown id is `UsernameNotFoundException`. */
  function ExtractUser(users: map<int, User>, jwt: Jwt): (r: Result<UserAuthenticated, Error>)
    ensures jwt.userId.None? ==> r == Err(IllegalArgument)
    ensures jwt.userId.Some? && jwt.userId.value !in users ==> r == Err(UsernameNotFound(jwt.userId.value))
    ensures jwt.userId.Some? && jwt.userId.value in users ==> r == Ok(UserAuthenticated(users[jwt.userId.value]))
  {
    match jwt.userId
    case None => Err(IllegalArgument)
    case Some(id) => if id in users then Ok(UserAuthenticated(users[id])) else Err(UsernameNotFound(id))
  }

  /** `convert`: an authenticated token for the resolved principal, with no
      credentials and a copy of the principal's authorities. */
  function Convert(users: map<int, User>, jwt: Jwt): (r: Result<AuthenticationToken, Error>)
    ensures r.Ok? <==> jwt.userId.Some? && jwt.userId.value in users
    ensures r.Err? ==> r.error == ExtractUser(users, jwt).error
    ensures r.Ok? ==>
      && r.value.principal.user == users[jwt.userId.value]
      && r.value.credentials.None?
      && r.value.authenticated
      && r.value.authorities == r.value.principal.GetAuthorities()
  {
    match ExtractUser(users, jwt)
    case Err(e) => Err(e)
    case Ok(principal) => Ok(AuthenticationToken(principal, None, principal.GetAuthorities(), true))
  }

  /** A token converted for a user grants the administrator authority exactly
      when the service treats that user as an administrator. */
  lemma ConvertedAdminAuthority(users: map<int, User>, jwt: Jwt)
    requires Convert(users, jwt).Ok?
    ensures "ROLE_ADMIN" in Convert(users, jwt).value.authorities <==> Projects.IsAdm(users[jwt.userId.value])
  {
    AdminIffAdminAuthority(users[jwt.userId.value]);
  }
}
