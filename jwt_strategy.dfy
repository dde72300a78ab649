/** JwtStrategy.validate: the check that runs on every protected request
    once the token's signature and expiry have been verified. It reads the
    Authorization header again, takes the token from it, refuses a
    blacklisted token and builds the principal from the verified payload. */
module JwtStrategy {
  import opened Common
  import opened TokenBlacklist
  import opened Crypto

  function IndexOfSpace(s: string): (i: nat)
    requires ' ' in s
    ensures i < |s| && s[i] == ' ' && ' ' !in s[..i]
  {
    if s[0] == ' ' then 0 else 1 + IndexOfSpace(s[1..])
  }

  /** String.prototype.split(' '): the pieces between single spaces, so
      two spaces in a row leave an empty piece between them. */
  function Split(s: string): (parts: seq<string>)
    ensures |parts| >= 1
    ensures forall i :: 0 <= i < |parts| ==> ' ' !in parts[i]
    decreases |s|
  {
    if ' ' !in s then [s]
    else
      var i := IndexOfSpace(s);
      [s[..i]] + Split(s[i + 1..])
  }

  /** Array.prototype.join(' '). */
  function Join(parts: seq<string>): string
    requires |parts| >= 1
  {
    if |parts| == 1 then parts[0] else parts[0] + " " + Join(parts[1..])
  }

  /** Splitting at the first space: what comes before it is the first piece. */
  lemma SplitAtFirstSpace(a: string, b: string)
    requires ' ' !in a
    ensures Split(a + " " + b) == [a] + Split(b)
  {
    var s := a + " " + b;
    assert s[|a|] == ' ';
    var i := IndexOfSpace(s);
    assert s[..|a|] == a;
    assert s[..i] == a;
    assert s[i + 1..] == b;
  }

  /** Joining the pieces with spaces gives the header back. */
  lemma {:induction false} JoinSplit(s: string)
    ensures Join(Split(s)) == s
    decreases |s|
  {
    if ' ' in s {
      var i := IndexOfSpace(s);
      var a, b := s[..i], s[i + 1..];
      assert s == a + " " + b;
      SplitAtFirstSpace(a, b);
      JoinSplit(b);
    }
  }

  /** Pieces without spaces are split back into themselves. */
  lemma {:induction false} SplitJoin(parts: seq<string>)
    requires |parts| >= 1
    requires forall i :: 0 <= i < |parts| ==> ' ' !in parts[i]
    ensures Split(Join(parts)) == parts
  {
    if |parts| > 1 {
      var rest := parts[1..];
      assert Join(parts) == parts[0] + " " + Join(rest);
      assert forall i :: 0 <= i < |rest| ==> ' ' !in rest[i] by {
        forall i | 0 <= i < |rest| ensures ' ' !in rest[i] {
          assert rest[i] == parts[i + 1];
        }
      }
      SplitAtFirstSpace(parts[0], Join(rest));
      SplitJoin(rest);
      assert parts == [parts[0]] + rest;
    }
  }

  /** `authHeader.split(' ')[1]`: none (undefined) when the header holds no space. */
  function SecondPiece(header: string): (t: Option<string>)
    ensures t.None? <==> ' ' !in header
    ensures t.Some? ==> ' ' !in t.value
  {
    var parts := Split(header);
    if |parts| >= 2 then Some(parts[1]) else None
  }

  /** `{ id: payload.sub, email: payload.email, ...payload }`: every key
      of the payload wins over the two defaults. */
  function Principal(payload: Object): (p: Object)
    ensures p.Keys == payload.Keys + {"id", "email"}
    ensures forall k :: k in payload ==> p[k] == payload[k]
    ensures "id" !in payload ==> p["id"] == Get(payload, "sub")
    ensures "email" !in payload ==> p["email"] == Get(payload, "email")
  {
    map["id" := Get(payload, "sub"), "email" := Get(payload, "email")] + payload
  }

  /** The length of the run of whitespace that starts `s`. */
  function SpaceRun(s: string): (n: nat)
    ensures n <= |s|
    ensures forall i :: 0 <= i < n ==> IsJsSpace(s[i])
    ensures n < |s| ==> !IsJsSpace(s[n])
  {
    if s != [] && IsJsSpace(s[0]) then 1 + SpaceRun(s[1..]) else 0
  }

  /** The length of the run of non-whitespace that starts `s`. */
  function WordRun(s: string): (n: nat)
    ensures n <= |s|
    ensures forall i :: 0 <= i < n ==> !IsJsSpace(s[i])
    ensures n < |s| ==> IsJsSpace(s[n])
  {
    if s != [] && !IsJsSpace(s[0]) then 1 + WordRun(s[1..]) else 0
  }

  /** `s` without its leading whitespace. */
  function TrimSpace(s: string): string {
    s[SpaceRun(s)..]
  }

  /** The word `s` starts with. */
  function FirstWord(s: string): string {
    s[..WordRun(s)]
  }

  lemma {:induction false} SpaceRunOf(a: string, b: string)
    requires forall i :: 0 <= i < |a| ==> IsJsSpace(a[i])
    requires b == [] || !IsJsSpace(b[0])
    ensures SpaceRun(a + b) == |a|
  {
    if a != [] {
      assert (a + b)[1..] == a[1..] + b;
      SpaceRunOf(a[1..], b);
    }
  }

  lemma {:induction false} WordRunOf(a: string, b: string)
    requires forall i :: 0 <= i < |a| ==> !IsJsSpace(a[i])
    requires b == [] || IsJsSpace(b[0])
    ensures WordRun(a + b) == |a|
  {
    if a != [] {
      assert (a + b)[1..] == a[1..] + b;
      WordRunOf(a[1..], b);
    }
  }

  lemma TrimSpaceOf(a: string, b: string)
    requires forall i :: 0 <= i < |a| ==> IsJsSpace(a[i])
    requires b == [] || !IsJsSpace(b[0])
    ensures TrimSpace(a + b) == b
  {
    SpaceRunOf(a, b);
    assert (a + b)[|a|..] == b;
  }

  lemma FirstWordOf(a: string, b: string)
    requires forall i :: 0 <= i < |a| ==> !IsJsSpace(a[i])
    requires b == [] || IsJsSpace(b[0])
    ensures FirstWord(a + b) == a
  {
    WordRunOf(a, b);
    assert (a + b)[..|a|] == a;
  }

  /** ASCII lower-casing, as String.prototype.toLowerCase does on ASCII. */
  function Lower(s: string): (t: string)
    ensures |t| == |s|
  {
    if s == [] then []
    else [if 'A' <= s[0] <= 'Z' then (s[0] as int + 32) as char else s[0]] + Lower(s[1..])
  }

  /** How passport-jwt's fromAuthHeaderAsBearerToken (line 15) finds the
      token it verifies: the header is matched against `(\S+)\s+(\S+)`,
      the first word must be `bearer` in any case, and the token is the
      second word. Runs of any whitespace separate the words. */
  function PassportToken(header: string): (t: Option<string>)
    ensures t.Some? ==> t.value != "" && forall i :: 0 <= i < |t.value| ==> !IsJsSpace(t.value[i])
  {
    var s1 := TrimSpace(header);
    var scheme := FirstWord(s1);
    var s3 := TrimSpace(s1[|scheme|..]);
    var token := FirstWord(s3);
    if scheme != "" && token != "" && Lower(scheme) == "bearer" then Some(token) else None
  }

  lemma LowerBearer()
    ensures Lower("Bearer") == "bearer"
  {
  }

  /** Passport reads a header made of two words and a run of whitespace
      between them: the token is the second word when the first is
      `bearer` in any case. */
  lemma PassportReadsWords(scheme: string, gap: string, token: string)
    requires scheme != [] && forall i :: 0 <= i < |scheme| ==> !IsJsSpace(scheme[i])
    requires gap != [] && forall i :: 0 <= i < |gap| ==> IsJsSpace(gap[i])
    requires TokenShaped(token)
    requires Lower(scheme) == "bearer"
    ensures PassportToken(scheme + gap + token) == Some(token)
  {
    WordsOf(scheme, gap, token);
    PassportTokenOf(scheme + gap + token, scheme, token);
  }

  /** Where each step of PassportToken lands on such a header. */
  lemma WordsOf(scheme: string, gap: string, token: string)
    requires scheme != [] && forall i :: 0 <= i < |scheme| ==> !IsJsSpace(scheme[i])
    requires gap != [] && forall i :: 0 <= i < |gap| ==> IsJsSpace(gap[i])
    requires TokenShaped(token)
    ensures TrimSpace(scheme + gap + token) == scheme + gap + token
    ensures FirstWord(scheme + gap + token) == scheme
    ensures TrimSpace((scheme + gap + token)[|scheme|..]) == token
    ensures FirstWord(token) == token
  {
    var header := scheme + gap + token;
    var rest := gap + token;
    assert header == scheme + rest;
    assert TrimSpace(header) == header by {
      assert header[0] == scheme[0];
      assert [] + header == header;
      TrimSpaceOf([], header);
    }
    assert FirstWord(header) == scheme by {
      assert rest[0] == gap[0];
      FirstWordOf(scheme, rest);
    }
    assert TrimSpace(header[|scheme|..]) == token by {
      assert header[|scheme|..] == rest;
      TrimSpaceOf(gap, token);
    }
    assert FirstWord(token) == token by {
      assert token + [] == token;
      FirstWordOf(token, []);
    }
  }

  /** The steps of PassportToken, once each word is known. */
  lemma PassportTokenOf(header: string, scheme: string, token: string)
    requires FirstWord(TrimSpace(header)) == scheme && scheme != "" && Lower(scheme) == "bearer"
    requires TrimSpace(TrimSpace(header)[|scheme|..]) == token && FirstWord(token) == token && token != ""
    ensures PassportToken(header) == Some(token)
  {
  }

  /** Passport reads the token `t` from `Bearer`, then `gap`, then `t`,
      for any gap of whitespace. */
  lemma PassportReadsBearer(gap: string, token: string)
    requires gap != [] && forall i :: 0 <= i < |gap| ==> IsJsSpace(gap[i])
    requires TokenShaped(token)
    ensures PassportToken("Bearer" + gap + token) == Some(token)
  {
    LowerBearer();
    PassportReadsWords("Bearer", gap, token);
  }

  /** The guard, given the Authorization header (none when absent) and
      the payload that signature and expiry checks have already accepted. A
      missing or empty header and a missing or empty token are plain
      errors; a blacklisted token is Unauthorized; the blacklist is only
      read. */
  function Validate(authHeader: Option<string>, payload: Object, blacklist: TokenBlacklistService): (r: Result<Object>)
    reads blacklist
    ensures !Truthy(authHeader) ==> r == Failure(PlainError("No authorization header"))
    ensures Truthy(authHeader) && !Truthy(SecondPiece(authHeader.value)) ==> r == Failure(PlainError("No token provided"))
    ensures Truthy(authHeader) && Truthy(SecondPiece(authHeader.value)) && Listed(blacklist.rows, SecondPiece(authHeader.value).value) ==>
      r == Failure(Unauthorized(Text("No authorization header")))
    ensures r.Success? <==>
      Truthy(authHeader) && Truthy(SecondPiece(authHeader.value)) && !Listed(blacklist.rows, SecondPiece(authHeader.value).value)
    ensures r.Success? ==> r.value == Principal(payload)
  {
    if !Truthy(authHeader) then Failure(PlainError("No authorization header"))
    else
      var token := SecondPiece(authHeader.value);
      if !Truthy(token) then Failure(PlainError("No token provided"))
      else if blacklist.IsBlacklisted(token.value) then Failure(Unauthorized(Text("No authorization header")))
      else Success(Principal(payload))
  }

  /** A well-formed `Bearer <token>` header yields exactly that token. */
  lemma BearerHeaderYieldsToken(token: string)
    requires token != "" && ' ' !in token
    ensures SecondPiece("Bearer " + token) == Some(token)
  {
    assert Join(["Bearer", token]) == "Bearer " + token;
    SplitJoin(["Bearer", token]);
  }

  /** A header with a second space right after the scheme gives an empty
      token, which is refused even though a token follows (the request
      `Bearer  x` fails). */
  lemma DoubleSpaceGivesNoToken(rest: string, payload: Object, blacklist: TokenBlacklistService)
    ensures SecondPiece("Bearer  " + rest) == Some("")
    ensures Validate(Some("Bearer  " + rest), payload, blacklist) == Failure(PlainError("No token provided"))
  {
    assert "Bearer  " + rest == "Bearer" + " " + ("" + " " + rest);
    SplitAtFirstSpace("Bearer", "" + " " + rest);
    SplitAtFirstSpace("", rest);
  }

  /** `Bearer` alone has no second piece and is refused. */
  lemma SchemeAloneGivesNoToken(payload: Object, blacklist: TokenBlacklistService)
    ensures SecondPiece("Bearer") == None
    ensures Validate(Some("Bearer"), payload, blacklist) == Failure(PlainError("No token provided"))
  {
  }

  /** Revocation wins: whatever payload the signature check accepted, a
      blacklisted token is refused as Unauthorized. */
  lemma RevokedTokenRefused(token: string, payload: Object, blacklist: TokenBlacklistService)
    requires token != "" && ' ' !in token
    requires Listed(blacklist.rows, token)
    ensures Validate(Some("Bearer " + token), payload, blacklist) == Failure(Unauthorized(Text("No authorization header")))
  {
    BearerHeaderYieldsToken(token);
  }

  /** As written, the guard can let a revoked token through: with a tab
      after the space, passport still finds and verifies the revoked token,
      while `split(' ')[1]` keeps the tab, so the blacklist is asked about a
      string that was never listed. */
  lemma RevokedTokenPassesSplitGuard(token: string, payload: Object, blacklist: TokenBlacklistService)
    requires TokenShaped(token) && Listed(blacklist.rows, token)
    requires !Listed(blacklist.rows, "\t" + token)
    ensures PassportToken("Bearer \t" + token) == Some(token)
    ensures Validate(Some("Bearer \t" + token), payload, blacklist) == Success(Principal(payload))
  {
    PassportReadsTab(token);
    TabKeptBySplit(token);
    AcceptedPiece("Bearer \t" + token, payload, blacklist);
  }

  lemma PassportReadsTab(token: string)
    requires TokenShaped(token)
    ensures PassportToken("Bearer \t" + token) == Some(token)
  {
    PassportReadsBearer(" \t", token);
    assert "Bearer" + " \t" + token == "Bearer \t" + token;
  }

  /** The guard accepts a header whose second piece is a non-empty,
      unlisted string. */
  lemma AcceptedPiece(header: string, payload: Object, blacklist: TokenBlacklistService)
    requires header != "" && Truthy(SecondPiece(header)) && !Listed(blacklist.rows, SecondPiece(header).value)
    ensures Validate(Some(header), payload, blacklist) == Success(Principal(payload))
  {
  }

  lemma TabKeptBySplit(token: string)
    requires TokenShaped(token)
    ensures SecondPiece("Bearer \t" + token) == Some("\t" + token)
  {
    var piece := "\t" + token;
    assert ' ' !in token;
    assert ' ' !in piece by {
      assert piece == ['\t'] + token;
    }
    assert "Bearer \t" + token == "Bearer" + " " + piece;
    SplitAtFirstSpace("Bearer", piece);
  }

  /** The guard as intended: the blacklist is asked about the token that
      passport verified. The header checks and the principal are as in
      Validate; only the token looked up differs. */
  function ValidateVerified(authHeader: Option<string>, payload: Object, blacklist: TokenBlacklistService): (r: Result<Object>)
    reads blacklist
    ensures authHeader.Some? && PassportToken(authHeader.value).Some? && Listed(blacklist.rows, PassportToken(authHeader.value).value) ==>
      r == Failure(Unauthorized(Text("No authorization header")))
    ensures r.Success? <==>
      authHeader.Some? && PassportToken(authHeader.value).Some? && !Listed(blacklist.rows, PassportToken(authHeader.value).value)
    ensures r.Success? ==> r.value == Principal(payload)
  {
    if !Truthy(authHeader) then Failure(PlainError("No authorization header"))
    else match PassportToken(authHeader.value)
      case None => Failure(PlainError("No token provided"))
      case Some(token) =>
        if blacklist.IsBlacklisted(token) then Failure(Unauthorized(Text("No authorization header")))
        else Success(Principal(payload))
  }

  /** Revocation wins in the intended guard: however the header spaces the
      token, once passport finds a revoked token there the request is
      refused. */
  lemma RevokedTokenRefusedEverywhere(header: string, payload: Object, blacklist: TokenBlacklistService)
    requires PassportToken(header).Some? && Listed(blacklist.rows, PassportToken(header).value)
    ensures ValidateVerified(Some(header), payload, blacklist) == Failure(Unauthorized(Text("No authorization header")))
  {
  }

  /** On a well-formed `Bearer <token>` header both guards agree. */
  lemma GuardsAgreeOnBearer(token: string, payload: Object, blacklist: TokenBlacklistService)
    requires TokenShaped(token)
    ensures Validate(Some("Bearer " + token), payload, blacklist) == ValidateVerified(Some("Bearer " + token), payload, blacklist)
  {
    BearerHeaderYieldsToken(token);
    PassportReadsSpace(token);
  }

  lemma PassportReadsSpace(token: string)
    requires TokenShaped(token)
    ensures PassportToken("Bearer " + token) == Some(token)
  {
    PassportReadsBearer(" ", token);
    assert "Bearer" + " " + token == "Bearer " + token;
  }
}
