/**
 * NextAuth configuration: the credentials provider's `authorize`, and the `signIn`, `jwt`
 * and `session` callbacks. The environment variables ADMIN_USER and ADMIN_PASSWORD are
 * parameters (`None` when unset).
 */
module Auth {
  import opened Wrappers
  import opened Strings

  /** A user as NextAuth hands it to the callbacks (from `authorize` or from the OAuth adapter). */
  datatype UserInfo = UserInfo(
    id: Option<string>,
    name: Option<string>,
    email: Option<string>,
    isAdmin: Option<bool>)

  /** The submitted sign-in form. */
  datatype Credentials = Credentials(username: Option<string>, password: Option<string>)

  /** The claims of a JSON Web Token. */
  datatype Claims = Claims(
    id: Option<string>,
    isAdmin: Option<bool>,
    name: Option<string>,
    email: Option<string>)

  /** What a template literal or `includes` makes of a string that may be undefined. */
  function TextOf(s: Option<string>): string {
    s.GetOr("undefined")
  }

  function Username(credentials: Option<Credentials>): Option<string> {
    if credentials.Some? then credentials.value.username else None
  }

  function Password(credentials: Option<Credentials>): Option<string> {
    if credentials.Some? then credentials.value.password else None
  }

  /**
   * `authorize`: the fixed administrator when both fields equal (`===`) the configured values,
   * otherwise no user. Equality is on possibly-undefined values, as in the source.
   */
  function Authorize(credentials: Option<Credentials>, adminUser: Option<string>, adminPassword: Option<string>)
    : (r: Option<UserInfo>)
    ensures r.Some? <==> Username(credentials) == adminUser && Password(credentials) == adminPassword
    ensures r.Some? ==> r.value.id == Some("admin-1") && r.value.name == adminUser
    ensures r.Some? ==> r.value.email == Some(TextOf(adminUser) + "@admin.com")
    ensures r.Some? ==> r.value.isAdmin == Some(true)
  {
    if Username(credentials) == adminUser && Password(credentials) == adminPassword then
      Some(UserInfo(Some("admin-1"), adminUser, Some(TextOf(adminUser) + "@admin.com"), Some(true)))
    else
      None
  }

  /**
   * The `signIn` callback: credentials sign-ins are let through (already checked by
   * `authorize`); an OAuth sign-in needs an e-mail, and the e-mail or the name must
   * contain ADMIN_USER.
   */
  function SignIn(provider: Option<string>, user: UserInfo, adminUser: Option<string>): (allowed: bool)
    ensures provider == Some("credentials") ==> allowed
    ensures provider != Some("credentials") && (user.email.None? || user.email == Some("")) ==> !allowed
    ensures provider != Some("credentials") && user.email.Some? && user.email.value != "" ==>
      (allowed <==> Contains(user.email.value, TextOf(adminUser))
                    || (user.name.Some? && Contains(user.name.value, TextOf(adminUser))))
  {
    if provider == Some("credentials") then true
    else if user.email.None? || user.email.value == "" then false
    else (Contains(user.email.value, TextOf(adminUser))
          || (user.name.Some? && Contains(user.name.value, TextOf(adminUser))))
  }

  /** The claims the `jwt` callback leaves: with a user, `isAdmin ?? false` and `id ?? 'admin-1'`. */
  function JwtClaims(claims: Claims, user: Option<UserInfo>): (r: Claims)
    ensures user.None? ==> r == claims
    ensures user.Some? ==> r.isAdmin == Some(user.value.isAdmin.GetOr(false))
    ensures user.Some? ==> r.id == Some(user.value.id.GetOr("admin-1"))
    ensures r.name == claims.name && r.email == claims.email
  {
    match user
    case None => claims
    case Some(u) => claims.(isAdmin := Some(u.isAdmin.GetOr(false)), id := Some(u.id.GetOr("admin-1")))
  }

  /** The `session` callback: `id` and `isAdmin` are copied from the token onto an existing user. */
  function SessionUser(user: Option<UserInfo>, claims: Claims): (r: Option<UserInfo>)
    ensures r.Some? <==> user.Some?
    ensures r.Some? ==> r.value.id == claims.id && r.value.isAdmin == claims.isAdmin
    ensures r.Some? ==> r.value.name == user.value.name && r.value.email == user.value.email
  {
    match user
    case None => None
    case Some(u) => Some(u.(id := claims.id, isAdmin := claims.isAdmin))
  }

  /** `session?.user?.isAdmin` is truthy. */
  predicate IsAdminUser(user: Option<UserInfo>) {
    user.Some? && user.value.isAdmin == Some(true)
  }

  class Token {
    var id: Option<string>
    var isAdmin: Option<bool>
    var name: Option<string>
    var email: Option<string>

    constructor (name: Option<string>, email: Option<string>)
      ensures View() == Claims(None, None, name, email)
    {
      this.id, this.isAdmin := None, None;
      this.name, this.email := name, email;
    }

    /** The claims the token carries. */
    function View(): Claims
      reads this
    {
      Claims(id, isAdmin, name, email)
    }
  }

  class Session {
    var user: Option<UserInfo>

    constructor (user: Option<UserInfo>)
      ensures this.user == user
    {
      this.user := user;
    }
  }

  /** The `jwt` callback: assigns `isAdmin` and `id` on the token it is given, and returns it. */
  method Jwt(token: Token, user: Option<UserInfo>) returns (r: Token)
    modifies token
    ensures r == token
    ensures token.View() == JwtClaims(old(token.View()), user)
  {
    if user.Some? {
      token.isAdmin := Some(user.value.isAdmin.GetOr(false));
      token.id := Some(user.value.id.GetOr("admin-1"));
    }
    r := token;
  }

  /** The `session` callback: assigns `id` and `isAdmin` on `session.user` when there is one. */
  method SessionCallback(session: Session, token: Token) returns (r: Session)
    modifies session
    ensures r == session
    ensures session.user == SessionUser(old(session.user), token.View())
  {
    if session.user.Some? {
      session.user := Some(session.user.value.(id := token.id, isAdmin := token.isAdmin));
    }
    r := session;
  }

  /**
   * Signing in with the configured credentials yields, through `jwt` and `session`, a session
   * whose user is an administrator with id `admin-1`.
   */
  lemma CredentialsLoginMakesAdmin(
    credentials: Option<Credentials>, adminUser: Option<string>, adminPassword: Option<string>,
    claims: Claims, sessionUser: UserInfo)
    requires Username(credentials) == adminUser && Password(credentials) == adminPassword
    ensures Authorize(credentials, adminUser, adminPassword).Some?
    ensures SignIn(Some("credentials"), Authorize(credentials, adminUser, adminPassword).value, adminUser)
    ensures var token := JwtClaims(claims, Authorize(credentials, adminUser, adminPassword));
      token.isAdmin == Some(true) && token.id == Some("admin-1")
      && IsAdminUser(SessionUser(Some(sessionUser), token))
  {
  }
}
