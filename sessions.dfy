/** Properties of the services working together: a new account can log in,
    a failed login does not say why, the token it issues passes the guard
    until logout, and a reset token works once and only within its hour. */
module Sessions {
  import opened Common
  import opened Crypto
  import opened TokenBlacklist
  import opened UsersService
  import opened AuthService
  import opened JwtStrategy

  /** The claims a session for this user carries. */
  function SessionClaims(id: int, email: string, name: string): Object {
    Claims(CredentialUser(id, email, name, None, None))
  }

  /** After create stores an account, logging in with the same email and
      password succeeds and shows that account, signed with its claims. */
  lemma LoginAfterCreate(users: Table, hasher: Hasher, jwt: JwtService, id: int, email: string, password: string, name: string)
    requires WellFormed(users) && hasher.Sound()
    requires id !in users && !HasEmail(users, email)
    ensures WellFormed(users[id := User(id, email, hasher.hash(password), name, None, None)])
    ensures Login(users[id := User(id, email, hasher.hash(password), name, None, None)], hasher, jwt, email, password)
            == Success(LoginResponse(jwt.sign(SessionClaims(id, email, name)), UserView(id, email, name)))
  {
    var after := users[id := User(id, email, hasher.hash(password), name, None, None)];
    assert hasher.compare(password, hasher.hash(password));
    assert after[id].email == email;
    var r := Login(after, hasher, jwt, email, password);
    assert r.Success?;
    var k :| k in after && after[k].email == email && r.value.user == UserView(k, email, after[k].name)
      && r.value.accessToken == jwt.sign(SessionClaims(k, email, after[k].name));
    assert k == id;
  }

  /** An unknown email and a wrong password for a known one get the very
      same response. */
  lemma LoginFailuresIndistinguishable(users: Table, hasher: Hasher, jwt: JwtService,
                                       unknown: string, p1: string, id: int, p2: string)
    requires WellFormed(users)
    requires !HasEmail(users, unknown)
    requires id in users && !hasher.compare(p2, users[id].password)
    ensures Login(users, hasher, jwt, unknown, p1) == Login(users, hasher, jwt, users[id].email, p2)
    ensures Login(users, hasher, jwt, unknown, p1) == Failure(Unauthorized(InvalidCredentialsBody))
  {
  }

  /** A freshly issued token that nobody has revoked passes the guard, and
      the principal names the user who logged in. */
  lemma GuardAcceptsIssuedToken(users: Table, hasher: Hasher, jwt: JwtService, email: string, password: string,
                                blacklist: TokenBlacklistService)
    requires WellFormed(users) && jwt.Sound()
    requires Login(users, hasher, jwt, email, password).Success?
    requires !Listed(blacklist.rows, Login(users, hasher, jwt, email, password).value.accessToken)
    ensures var session := Login(users, hasher, jwt, email, password).value;
      && jwt.decode(session.accessToken).Some?
      && var r := Validate(Some("Bearer " + session.accessToken), jwt.decode(session.accessToken).value, blacklist);
      && r.Success?
      && r.value["sub"] == Num(session.user.id)
      && r.value["email"] == Str(email)
      && ValidateVerified(Some("Bearer " + session.accessToken), jwt.decode(session.accessToken).value, blacklist) == r
  {
    var session := Login(users, hasher, jwt, email, password).value;
    var id :| id in users && users[id].email == email && session.user == UserView(id, email, users[id].name)
      && session.accessToken == jwt.sign(SessionClaims(id, email, users[id].name));
    var claims := SessionClaims(id, email, users[id].name);
    assert TokenShaped(jwt.sign(claims)) && Keeps(jwt.decode(jwt.sign(claims)), claims);
    BearerHeaderYieldsToken(session.accessToken);
    var payload := jwt.decode(session.accessToken).value;
    assert "sub" in claims && "email" in claims;
    assert payload["sub"] == Num(id) && payload["email"] == Str(email);
    GuardsAgreeOnBearer(session.accessToken, payload, blacklist);
  }

  /** Logout ends a session: once its token is blacklisted, the guard
      refuses it whatever payload the signature check accepts, in the
      intended guard for every header passport reads it from, and no later
      blacklisting takes that back. */
  method LogoutEndsSession(auth: AuthService, token: string, payload: Object, later: seq<Row>)
    returns (r: Result<()>)
    requires TokenShaped(token)
    requires auth.jwtService.decode(token).Some? && Get(auth.jwtService.decode(token).value, "exp").Num?
    modifies auth.tokenBlacklist
    ensures r == Success(())
    ensures Validate(Some("Bearer " + token), payload, auth.tokenBlacklist) == Failure(Unauthorized(Text("No authorization header")))
    ensures forall header :: PassportToken(header) == Some(token) ==>
      ValidateVerified(Some(header), payload, auth.tokenBlacklist) == Failure(Unauthorized(Text("No authorization header")))
    ensures Listed(auth.tokenBlacklist.rows + later, token)
  {
    r := auth.Logout(token);
    RevokedTokenRefused(token, payload, auth.tokenBlacklist);
    ListedStaysListed(auth.tokenBlacklist.rows, later, token);
  }

  /** A reset token opens the account at any time before its hour is up,
      and not at or after it. */
  lemma ResetWindow(u: User, token: string, issuedAt: int, now: int)
    requires u.resetToken == Some(token) && u.resetTokenExpires == Some(issuedAt + ResetTokenLifetime)
    ensures Redeemable(u, token, now) <==> now < issuedAt + ResetTokenLifetime
  {
  }

  /** After a completed reset the new password logs in to that account. */
  lemma NewPasswordWorksAfterReset(users: Table, hasher: Hasher, id: int, password: string)
    requires WellFormed(users) && hasher.Sound() && id in users
    ensures WellFormed(users[id := Redeemed(users[id], hasher.hash(password))])
    ensures ValidateUser(users[id := Redeemed(users[id], hasher.hash(password))], hasher, users[id].email, password)
            == Success(ExcludePassword(users[id]))
  {
    var after := users[id := Redeemed(users[id], hasher.hash(password))];
    assert hasher.compare(password, hasher.hash(password));
    assert after[id].email == users[id].email;
    var r := ValidateUser(after, hasher, users[id].email, password);
    var k :| k in after && after[k].email == users[id].email && r.value == ExcludePassword(after[k]);
    assert k == id;
  }

  /** The reset flow end to end: a token issued for an account, not held by
      anyone else, resets the password once within its hour; a second
      attempt with it fails whenever it comes, and the new password logs in. */
  method ResetTokenIsSingleUse(svc: UsersService, email: string, entropy: seq<byte>, issuedAt: int, now: int,
                               first: string, later: int, second: string)
    returns (r1: Result<string>, r2: Result<string>)
    requires svc.Valid() && svc.hasher.Sound()
    requires |entropy| == 4 && HasEmail(svc.users, email) && Holders(svc.users, Hex(entropy)) == {}
    requires issuedAt <= now < issuedAt + ResetTokenLifetime
    modifies svc
    ensures svc.Valid()
    ensures r1 == Success(ResetDone)
    ensures r2 == Failure(InvalidResetToken)
    ensures ValidateUser(svc.users, svc.hasher, email, first).Success?
  {
    var token := Hex(entropy);
    var message := svc.InitiatePasswordReset(email, entropy, issuedAt);
    ghost var id :| id in old(svc.users) && old(svc.users)[id].email == email &&
      svc.users == old(svc.users)[id := old(svc.users)[id].(resetToken := Some(token),
                                                           resetTokenExpires := Some(issuedAt + ResetTokenLifetime))];
    assert Redeemable(svc.users[id], token, now);
    assert Holders(svc.users, token) <= {id};
    ghost var issued := svc.users;
    r1 := svc.CompletePasswordReset(token, first, now);
    assert Holders(svc.users, token) == {};
    assert svc.users == issued[id := Redeemed(issued[id], svc.hasher.hash(first))];
    NewPasswordWorksAfterReset(issued, svc.hasher, id, first);
    ghost var afterFirst := svc.users;
    assert forall k :: k in afterFirst ==> !Redeemable(afterFirst[k], token, later) by {
      forall k | k in afterFirst ensures !Redeemable(afterFirst[k], token, later) {
        assert k !in Holders(afterFirst, token);
      }
    }
    r2 := svc.CompletePasswordReset(token, second, later);
  }
}
