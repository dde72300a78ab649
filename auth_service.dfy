/** AuthService: the credential check behind login, login itself, and
    logout by blacklisting the presented token. */
module AuthService {
  import opened Common
  import opened Crypto
  import opened TokenBlacklist
  import opened UsersService

  /** The one response to an unknown email and to a wrong password. */
  const InvalidCredentialsBody := Detail("Invalid credentials", "The email or password you entered is incorrect")
  /** The response to any other failure during the credential check. */
  const LoginFailedBody := Detail("Login failed", "An error occurred during login")

  /** A user record without its `password` key; every other column,
      the reset fields included, is still there. */
  datatype CredentialUser = CredentialUser(id: int, email: string, name: string,
                                           resetToken: Option<string>, resetTokenExpires: Option<int>)

  /** The user part of a login response. */
  datatype UserView = UserView(id: int, email: string, name: string)

  datatype LoginResponse = LoginResponse(accessToken: string, user: UserView)

  /** `const { password: _, ...result } = user`. */
  function WithoutPassword(u: User): (c: CredentialUser)
    ensures WithPassword(c, u.password) == u
  {
    CredentialUser(u.id, u.email, u.name, u.resetToken, u.resetTokenExpires)
  }

  /** Puts a password column back on a stripped record. */
  function WithPassword(c: CredentialUser, password: string): User {
    User(c.id, c.email, password, c.name, c.resetToken, c.resetTokenExpires)
  }

  /** Only the password goes: the stripped record and the digest together
      give back the user exactly, and records that differ elsewhere stay
      apart. */
  lemma WithoutPasswordRemovesOnlyPassword(u: User, v: User)
    ensures WithPassword(WithoutPassword(u), u.password) == u
    ensures WithoutPassword(u) == WithoutPassword(v) <==> u == v.(password := u.password)
  {
  }

  /** The catch block of validateCredentials: Unauthorized and BadRequest
      are rethrown as they are, anything else becomes the generic login
      failure. */
  function Rethrown(e: Exception): (f: Exception)
    ensures f.Unauthorized? || f.BadRequest?
    ensures e.Unauthorized? ==> f == e
    ensures !e.Unauthorized? && !e.BadRequest? ==> f == Unauthorized(LoginFailedBody)
    ensures e.BadRequest? ==> f == e
  {
    match e
    case Unauthorized(_) => e
    case BadRequest(_) => e
    case _ => Unauthorized(LoginFailedBody)
  }

  /** validateCredentials, given what the email lookup settled to: it may
      resolve to a record or to nothing, or reject when the store fails. */
  function CheckCredentials(lookup: Result<Option<User>>, hasher: Hasher, password: string): (r: Result<CredentialUser>)
    ensures lookup.Failure? ==> r == Failure(Rethrown(lookup.error))
    ensures lookup.Success? ==> (r.Success? <==> lookup.value.Some? && hasher.compare(password, lookup.value.value.password))
    ensures lookup.Success? && r.Success? ==> r.value == WithoutPassword(lookup.value.value)
    ensures lookup.Success? && r.Failure? ==> r.error == Unauthorized(InvalidCredentialsBody)
  {
    var attempt :=
      match lookup
      case Failure(e) => Failure(e)
      case Success(None) => Failure(Unauthorized(InvalidCredentialsBody))
      case Success(Some(user)) =>
        if hasher.compare(password, user.password) then Success(WithoutPassword(user))
        else Failure(Unauthorized(InvalidCredentialsBody));
    match attempt
    case Success(u) => Success(u)
    case Failure(e) => Failure(Rethrown(e))
  }

  /** The credential check on the user table. Success exactly when the
      email is known and the password matches its digest; an unknown email
      and a wrong password get the identical response. */
  function ValidateCredentials(users: Table, hasher: Hasher, email: string, password: string): (r: Result<CredentialUser>)
    requires WellFormed(users)
    ensures r.Success? <==> exists id :: id in users && users[id].email == email && hasher.compare(password, users[id].password)
    ensures r.Success? ==> exists id :: id in users && users[id].email == email && r.value == WithoutPassword(users[id])
    ensures r.Failure? ==> r.error == Unauthorized(InvalidCredentialsBody)
  {
    CheckCredentials(Success(FindByEmail(users, email)), hasher, password)
  }

  /** The payload login signs. */
  function Claims(u: CredentialUser): (o: Object)
    ensures o.Keys == {"email", "sub", "name"}
    ensures o["email"] == Str(u.email) && o["sub"] == Num(u.id) && o["name"] == Str(u.name)
  {
    map["email" := Str(u.email), "sub" := Num(u.id), "name" := Str(u.name)]
  }

  /** The body of login after validateCredentials has settled: a failure
      is propagated unchanged and no token is signed; otherwise the claims
      are signed and the user is shown as id, email and name only. */
  function IssueSession(checked: Result<CredentialUser>, jwt: JwtService): (r: Result<LoginResponse>)
    ensures checked.Failure? ==> r == Failure(checked.error)
    ensures checked.Success? ==> r.Success?
    ensures r.Success? ==>
      var u := checked.value;
      && r.value.accessToken == jwt.sign(map["email" := Str(u.email), "sub" := Num(u.id), "name" := Str(u.name)])
      && r.value.user == UserView(u.id, u.email, u.name)
  {
    match checked
    case Failure(e) => Failure(e)
    case Success(u) => Success(LoginResponse(jwt.sign(Claims(u)), UserView(u.id, u.email, u.name)))
  }

  /** login on the user table: a session for the user with this email when
      the password matches, the identical credentials error otherwise. */
  function Login(users: Table, hasher: Hasher, jwt: JwtService, email: string, password: string): (r: Result<LoginResponse>)
    requires WellFormed(users)
    ensures r.Success? <==> exists id :: id in users && users[id].email == email && hasher.compare(password, users[id].password)
    ensures r.Failure? ==> r.error == Unauthorized(InvalidCredentialsBody)
    ensures r.Success? ==>
      exists id ::
        && id in users && users[id].email == email
        && r.value.user == UserView(id, email, users[id].name)
        && r.value.accessToken == jwt.sign(map["email" := Str(email), "sub" := Num(id), "name" := Str(users[id].name)])
  {
    IssueSession(ValidateCredentials(users, hasher, email, password), jwt)
  }

  class AuthService {
    const jwtService: JwtService
    const tokenBlacklist: TokenBlacklistService

    constructor (jwtService: JwtService, tokenBlacklist: TokenBlacklistService)
      ensures this.jwtService == jwtService && this.tokenBlacklist == tokenBlacklist
    {
      this.jwtService := jwtService;
      this.tokenBlacklist := tokenBlacklist;
    }

    /** Blacklists `token` until its own `exp` claim (seconds, made
        milliseconds). A token that does not decode makes reading `exp`
        throw; an `exp` that is not a number makes an invalid date, which
        the store refuses. Either way nothing is written. */
    method Logout(token: string) returns (r: Result<()>)
      modifies tokenBlacklist
      ensures jwtService.decode(token).None? ==>
        r == Failure(TypeError("Cannot read properties of null (reading 'exp')")) &&
        tokenBlacklist.rows == old(tokenBlacklist.rows)
      ensures jwtService.decode(token).Some? && !Get(jwtService.decode(token).value, "exp").Num? ==>
        r == Failure(PrismaError("Invalid Date")) && tokenBlacklist.rows == old(tokenBlacklist.rows)
      ensures jwtService.decode(token).Some? && Get(jwtService.decode(token).value, "exp").Num? ==>
        && r == Success(())
        && tokenBlacklist.rows == old(tokenBlacklist.rows) + [Row(token, Get(jwtService.decode(token).value, "exp").n * 1000)]
      ensures r.Success? ==> tokenBlacklist.IsBlacklisted(token)
    {
      var decoded := jwtService.decode(token);
      if decoded.None? {
        return Failure(TypeError("Cannot read properties of null (reading 'exp')"));
      }
      var exp := Get(decoded.value, "exp");
      if !exp.Num? {
        return Failure(PrismaError("Invalid Date"));
      }
      tokenBlacklist.AddToBlacklist(token, exp.n * 1000);
      r := Success(());
    }
  }
}
