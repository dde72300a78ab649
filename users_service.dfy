/** UsersService: the user table, account operations and the two-step
    password reset. Reads of the table are functions of the table; the
    operations that write it are methods of the service object. */
module UsersService {
  import opened Common
  import opened Crypto
  import opened TokenBlacklist

  /** addHours(new Date(), 1), in milliseconds. */
  const ResetTokenLifetime := 3600 * 1000
  /** The fixed expiry given to the caller's token when an account is deleted. */
  const DeletedSessionLifetime := 3600 * 1000

  const ResetRequested := "If an account with that email exists, a reset link has been sent"
  const ResetDone := "Password reset successfully"
  const InvalidResetToken := BadRequest("Invalid or expired token")
  const InvalidCredentials := Unauthorized(Text("Invalid credentials"))

  /** A row of the user table; `password` holds the bcrypt digest. */
  datatype User = User(id: int, email: string, password: string, name: string,
                       resetToken: Option<string>, resetTokenExpires: Option<int>)

  /** What excludePassword leaves of a user: no digest, no reset fields. */
  datatype SafeUser = SafeUser(id: int, email: string, name: string)

  /** The fields an update may carry, each optional. */
  datatype UpdateUserDto = UpdateUserDto(password: Option<string>, name: Option<string>)

  datatype RemoveResult = RemoveResult(success: bool, message: string)

  /** The user table, by id. */
  type Table = map<int, User>

  /** The unique index on email. */
  ghost predicate UniqueEmails(users: Table) {
    forall a, b :: a in users && b in users && users[a].email == users[b].email ==> a == b
  }

  /** What the schema guarantees of the table: rows are keyed by their id,
      emails are unique, and the two reset fields are set together. */
  ghost predicate WellFormed(users: Table) {
    && UniqueEmails(users)
    && forall id :: id in users ==>
         users[id].id == id && (users[id].resetToken.Some? <==> users[id].resetTokenExpires.Some?)
  }

  ghost predicate HasEmail(users: Table, email: string) {
    exists id :: id in users && users[id].email == email
  }

  /** The reset token `token` is set on `u` and has not expired at `now`:
      the filter completePasswordReset gives the store. A record without
      an expiry never matches, and the expiry instant itself is too late. */
  predicate Redeemable(u: User, token: string, now: int)
    ensures Redeemable(u, token, now) ==> u.resetToken == Some(token)
    ensures u.resetTokenExpires.None? ==> !Redeemable(u, token, now)
    ensures u.resetTokenExpires == Some(now) ==> !Redeemable(u, token, now)
  {
    u.resetToken == Some(token) && u.resetTokenExpires.Some? && u.resetTokenExpires.value > now
  }

  /** A token that works now worked at every earlier instant, and one that
      has stopped working never works again. */
  lemma RedeemableEarlier(u: User, token: string, earlier: int, now: int)
    requires earlier <= now
    ensures Redeemable(u, token, now) ==> Redeemable(u, token, earlier)
    ensures !Redeemable(u, token, earlier) ==> !Redeemable(u, token, now)
  {
  }

  /** The users whose reset token is `token`, expired or not. */
  ghost function Holders(users: Table, token: string): set<int> {
    set id | id in users && users[id].resetToken == Some(token)
  }

  /** `excludePassword`: the record without the digest and the reset
      fields; the result type has no field for them. */
  function ExcludePassword(u: User): (s: SafeUser)
    ensures s.id == u.id && s.email == u.email && s.name == u.name
  {
    SafeUser(u.id, u.email, u.name)
  }

  /** The projection depends on nothing secret: changing the digest or
      the reset fields does not change it. */
  lemma ExcludePasswordHidesSecrets(u: User, password: string, token: Option<string>, expires: Option<int>)
    ensures ExcludePassword(u) == ExcludePassword(u.(password := password, resetToken := token, resetTokenExpires := expires))
    ensures ExcludePassword(u).id == u.id && ExcludePassword(u).email == u.email && ExcludePassword(u).name == u.name
  {
  }

  function FindOne(users: Table, id: int): (r: Result<SafeUser>)
    ensures r.Success? <==> id in users
    ensures r.Success? ==> r.value == ExcludePassword(users[id])
    ensures r.Failure? ==> r.error == NotFound("User not found")
  {
    if id in users then Success(ExcludePassword(users[id])) else Failure(NotFound("User not found"))
  }

  /** findUnique on the email column: the whole record, digest included. */
  function FindByEmail(users: Table, email: string): (r: Option<User>)
    requires WellFormed(users)
    ensures r.Some? <==> HasEmail(users, email)
    ensures r.Some? ==> r.value.email == email && r.value.id in users && users[r.value.id] == r.value
  {
    if exists id :: id in users && users[id].email == email then
      var id :| id in users && users[id].email == email;
      Some(users[id])
    else
      None
  }

  /** Unknown email and wrong password fail alike; success gives the
      projection of the one user with that email. */
  function ValidateUser(users: Table, hasher: Hasher, email: string, password: string): (r: Result<SafeUser>)
    requires WellFormed(users)
    ensures r.Success? <==> exists id :: id in users && users[id].email == email && hasher.compare(password, users[id].password)
    ensures r.Success? ==> exists id :: id in users && users[id].email == email && r.value == ExcludePassword(users[id])
    ensures r.Failure? ==> r.error == InvalidCredentials
  {
    match FindByEmail(users, email)
    case None => Failure(InvalidCredentials)
    case Some(u) =>
      if hasher.compare(password, u.password) then Success(ExcludePassword(u))
      else Failure(InvalidCredentials)
  }

  /** The record after an update: `{...dto}`, with the password replaced
      by its digest when it is truthy. */
  function Patched(u: User, dto: UpdateUserDto, hasher: Hasher): (v: User)
    ensures v.id == u.id && v.email == u.email
    ensures v.resetToken == u.resetToken && v.resetTokenExpires == u.resetTokenExpires
    ensures Truthy(dto.password) ==> v.password == hasher.hash(dto.password.value)
    ensures dto.password.None? ==> v.password == u.password
    ensures dto.password == Some("") ==> v.password == ""
    ensures v.name == if dto.name.Some? then dto.name.value else u.name
  {
    var password :=
      match dto.password
      case None => u.password
      case Some(p) => if p != "" then hasher.hash(p) else p;
    var name := if dto.name.Some? then dto.name.value else u.name;
    u.(password := password, name := name)
  }

  /** The record after a completed reset: the new digest, reset fields cleared. */
  function Redeemed(u: User, digest: string): (v: User)
    ensures v.id == u.id && v.email == u.email && v.name == u.name && v.password == digest
    ensures v.resetToken.None? && v.resetTokenExpires.None?
  {
    u.(password := digest, resetToken := None, resetTokenExpires := None)
  }

  class UsersService {
    var users: Table
    /** The next value of the autoincrement id column. */
    var nextId: int
    const tokenBlacklist: TokenBlacklistService
    const hasher: Hasher

    ghost predicate Valid()
      reads this
    {
      WellFormed(users) && 0 < nextId && forall id :: id in users ==> 0 < id < nextId
    }

    constructor (tokenBlacklist: TokenBlacklistService, hasher: Hasher)
      ensures Valid() && users == map[]
      ensures this.tokenBlacklist == tokenBlacklist && this.hasher == hasher
    {
      this.tokenBlacklist := tokenBlacklist;
      this.hasher := hasher;
      users := map[];
      nextId := 1;
    }

    /** prisma.user.create: the unique index refuses a second row with the
        same email (P2002); otherwise the row gets a fresh id and no reset
        token. */
    method Insert(email: string, password: string, name: string) returns (r: Result<User>)
      requires Valid()
      modifies this
      ensures Valid()
      ensures HasEmail(old(users), email) ==> r == Failure(PrismaError("P2002")) && users == old(users)
      ensures !HasEmail(old(users), email) ==>
        && r.Success? && r.value == User(r.value.id, email, password, name, None, None)
        && r.value.id !in old(users) && users == old(users)[r.value.id := r.value]
    {
      if FindByEmail(users, email).Some? {
        r := Failure(PrismaError("P2002"));
      } else {
        var u := User(nextId, email, password, name, None, None);
        users := users[nextId := u];
        nextId := nextId + 1;
        r := Success(u);
      }
    }

    /** Stores the digest of the password, never the plaintext, and
        answers with the projection; a taken email is a conflict and
        leaves the table as it was. */
    method Create(email: string, password: string, name: string) returns (r: Result<SafeUser>)
      requires Valid()
      modifies this
      ensures Valid()
      ensures HasEmail(old(users), email) ==> r == Failure(Conflict("Email already exists")) && users == old(users)
      ensures !HasEmail(old(users), email) ==>
        && r.Success? && r.value == SafeUser(r.value.id, email, name) && r.value.id !in old(users)
        && users == old(users)[r.value.id := User(r.value.id, email, hasher.hash(password), name, None, None)]
    {
      var hashed := hasher.hash(password);
      var stored := Insert(email, hashed, name);
      match stored
      case Success(u) =>
        r := Success(ExcludePassword(u));
      case Failure(e) =>
        if e == PrismaError("P2002") {
          r := Failure(Conflict("Email already exists"));
        } else {
          r := Failure(e);
        }
    }

    /** prisma.user.update on `id`: a missing id is the store's P2025 and
        propagates; otherwise only that row changes, and the whole updated
        record, digest included, is returned. */
    method Update(id: int, dto: UpdateUserDto) returns (r: Result<User>)
      requires Valid()
      modifies this
      ensures Valid()
      ensures id !in old(users) ==> r == Failure(PrismaError("P2025")) && users == old(users)
      ensures id in old(users) ==> users == old(users)[id := Patched(old(users)[id], dto, hasher)] && r == Success(users[id])
    {
      if id !in users {
        r := Failure(PrismaError("P2025"));
        return;
      }
      var u := Patched(users[id], dto, hasher);
      users := users[id := u];
      r := Success(u);
    }

    /** Deletes account `id`. An unknown id is reported, not thrown, and
        nothing changes. Otherwise a truthy caller token is first
        blacklisted for one hour from `now`, and then only that row goes. */
    method Remove(id: int, token: Option<string>, now: int) returns (r: RemoveResult)
      requires Valid()
      modifies this, tokenBlacklist
      ensures Valid()
      ensures id !in old(users) ==>
        && r == RemoveResult(false, "User not found")
        && users == old(users) && tokenBlacklist.rows == old(tokenBlacklist.rows)
      ensures id in old(users) ==>
        && r == RemoveResult(true, "User deleted successfully")
        && users == old(users) - {id}
        && tokenBlacklist.rows == old(tokenBlacklist.rows) +
             (if Truthy(token) then [Row(token.value, now + DeletedSessionLifetime)] else [])
    {
      if id !in users {
        return RemoveResult(false, "User not found");
      }
      if Truthy(token) {
        tokenBlacklist.AddToBlacklist(token.value, now + DeletedSessionLifetime);
      }
      users := users - {id};
      r := RemoveResult(true, "User deleted successfully");
    }

    /** Answers the same message whether or not the email is known. For a
        known email only that user's reset token (the hex of `entropy`, the
        four random bytes) and its expiry, one hour from `now`, change. */
    method InitiatePasswordReset(email: string, entropy: seq<byte>, now: int) returns (message: string)
      requires Valid()
      requires |entropy| == 4
      modifies this
      ensures Valid()
      ensures message == ResetRequested
      ensures !HasEmail(old(users), email) ==> users == old(users)
      ensures HasEmail(old(users), email) ==>
        exists id :: id in old(users) && old(users)[id].email == email &&
          users == old(users)[id := old(users)[id].(resetToken := Some(Hex(entropy)),
                                                    resetTokenExpires := Some(now + ResetTokenLifetime))]
    {
      var found := FindByEmail(users, email);
      if found.None? {
        return ResetRequested;
      }
      var u := found.value;
      var resetToken := Hex(entropy);
      var resetTokenExpires := now + ResetTokenLifetime;
      users := users[u.id := u.(resetToken := Some(resetToken), resetTokenExpires := Some(resetTokenExpires))];
      message := ResetRequested;
    }

    /** Succeeds exactly when some user holds `token` unexpired at `now`
        (which one, when several do, is up to the store). That user gets
        the digest of the new password and loses the token; no other row
        changes, and the token has one holder fewer. */
    method CompletePasswordReset(token: string, newPassword: string, now: int) returns (r: Result<string>)
      requires Valid()
      modifies this
      ensures Valid()
      ensures r.Success? <==> exists id :: id in old(users) && Redeemable(old(users)[id], token, now)
      ensures r.Failure? ==> r.error == InvalidResetToken && users == old(users)
      ensures r.Success? ==> r.value == ResetDone
      ensures r.Success? ==>
        exists id :: id in old(users) && Redeemable(old(users)[id], token, now) &&
          users == old(users)[id := Redeemed(old(users)[id], hasher.hash(newPassword))]
      ensures r.Success? ==> Holders(users, token) < Holders(old(users), token)
    {
      if !exists id :: id in users && Redeemable(users[id], token, now) {
        return Failure(InvalidResetToken);
      }
      var id :| id in users && Redeemable(users[id], token, now);
      var hashed := hasher.hash(newPassword);
      ghost var before := users;
      users := users[id := Redeemed(users[id], hashed)];
      assert Holders(users, token) == Holders(before, token) - {id};
      r := Success(ResetDone);
    }
  }
}
