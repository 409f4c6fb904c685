/**
 * The token middleware: signing access and refresh tokens with their own
 * secrets, taking the token out of the `Authorization` header, `authenticate`
 * (which fills in the request's user and passes control on) and the role gate
 * `authorize`. The jsonwebtoken library's sign and verify are parameters.
 */
module Jwt {
  import opened Wrappers
  import opened JsText

  const DefaultAccessSecret := "secret"
  const DefaultRefreshSecret := "refresh-secret"

  /** The payload of a token: `{id, email, role}` for access, `{id}` for refresh. */
  datatype Claims = AccessClaims(id: string, email: string, role: string) | RefreshClaims(id: string)

  /** The environment variables the secrets come from. */
  datatype Env = Env(jwtSecret: Option<string>, jwtRefreshSecret: Option<string>)

  /** `process.env.JWT_SECRET || "secret"`. */
  function AccessSecret(env: Env): (k: string)
    ensures Truthy(env.jwtSecret) ==> k == env.jwtSecret.value
    ensures !Truthy(env.jwtSecret) ==> k == DefaultAccessSecret
    ensures k != []
  {
    if Truthy(env.jwtSecret) then env.jwtSecret.value else DefaultAccessSecret
  }

  /** `process.env.JWT_REFRESH_SECRET || "refresh-secret"`. */
  function RefreshSecret(env: Env): (k: string)
    ensures Truthy(env.jwtRefreshSecret) ==> k == env.jwtRefreshSecret.value
    ensures !Truthy(env.jwtRefreshSecret) ==> k == DefaultRefreshSecret
    ensures k != []
  {
    if Truthy(env.jwtRefreshSecret) then env.jwtRefreshSecret.value else DefaultRefreshSecret
  }

  /** `generateAccessToken`: the claims `{id, email, role}`, signed with `JWT_SECRET` when it is set and with the default otherwise. */
  function GenerateAccessToken(userId: string, email: string, role: string, env: Env, sign: (Claims, string) -> string): (token: string)
    ensures Truthy(env.jwtSecret) ==> token == sign(AccessClaims(userId, email, role), env.jwtSecret.value)
    ensures !Truthy(env.jwtSecret) ==> token == sign(AccessClaims(userId, email, role), DefaultAccessSecret)
  {
    sign(AccessClaims(userId, email, role), AccessSecret(env))
  }

  /** `generateRefreshToken`: the claims `{id}`, signed with `JWT_REFRESH_SECRET` when it is set and with its own default otherwise. */
  function GenerateRefreshToken(userId: string, env: Env, sign: (Claims, string) -> string): (token: string)
    ensures Truthy(env.jwtRefreshSecret) ==> token == sign(RefreshClaims(userId), env.jwtRefreshSecret.value)
    ensures !Truthy(env.jwtRefreshSecret) ==> token == sign(RefreshClaims(userId), DefaultRefreshSecret)
  {
    sign(RefreshClaims(userId), RefreshSecret(env))
  }

  /** `verifyAccessToken`: `jwt.verify` with the access secret; a thrown error becomes `None`. */
  function VerifyAccessToken(token: string, env: Env, verify: (string, string) -> Option<Claims>): (c: Option<Claims>)
    ensures Truthy(env.jwtSecret) ==> c == verify(token, env.jwtSecret.value)
    ensures !Truthy(env.jwtSecret) ==> c == verify(token, DefaultAccessSecret)
  {
    verify(token, AccessSecret(env))
  }

  /** `verifyRefreshToken`: `jwt.verify` with the refresh secret; a thrown error becomes `None`. */
  function VerifyRefreshToken(token: string, env: Env, verify: (string, string) -> Option<Claims>): (c: Option<Claims>)
    ensures Truthy(env.jwtRefreshSecret) ==> c == verify(token, env.jwtRefreshSecret.value)
    ensures !Truthy(env.jwtRefreshSecret) ==> c == verify(token, DefaultRefreshSecret)
  {
    verify(token, RefreshSecret(env))
  }

  /** What the library promises: a token verifies under the secret it was signed with, and under no other. */
  ghost predicate SignVerifyAgree(sign: (Claims, string) -> string, verify: (string, string) -> Option<Claims>) {
    forall c, k, k' :: verify(sign(c, k), k') == if k == k' then Some(c) else None
  }

  /** An access token verifies back to its own claims. */
  lemma AccessTokenRoundTrip(userId: string, email: string, role: string, env: Env,
                             sign: (Claims, string) -> string, verify: (string, string) -> Option<Claims>)
    requires SignVerifyAgree(sign, verify)
    ensures VerifyAccessToken(GenerateAccessToken(userId, email, role, env, sign), env, verify)
            == Some(AccessClaims(userId, email, role))
  {
  }

  /** With the two secrets apart (as their defaults are), a refresh token is refused where an access token is expected. */
  lemma RefreshTokenIsNoAccessToken(userId: string, env: Env,
                                    sign: (Claims, string) -> string, verify: (string, string) -> Option<Claims>)
    requires SignVerifyAgree(sign, verify)
    requires AccessSecret(env) != RefreshSecret(env)
    ensures VerifyAccessToken(GenerateRefreshToken(userId, env, sign), env, verify) == None
    ensures VerifyRefreshToken(GenerateRefreshToken(userId, env, sign), env, verify) == Some(RefreshClaims(userId))
  {
  }

  /** With neither secret configured, the two defaults differ, so a refresh token is still refused as an access token. */
  lemma DefaultsKeepTokensApart(userId: string, env: Env,
                                sign: (Claims, string) -> string, verify: (string, string) -> Option<Claims>)
    requires SignVerifyAgree(sign, verify)
    requires !Truthy(env.jwtSecret) && !Truthy(env.jwtRefreshSecret)
    ensures VerifyAccessToken(GenerateRefreshToken(userId, env, sign), env, verify) == None
  {
    assert DefaultAccessSecret[0] != DefaultRefreshSecret[0];
    RefreshTokenIsNoAccessToken(userId, env, sign, verify);
  }

  // ---- the Authorization header ----

  /** `s.split(sep)`: the pieces between separators; `""` splits to `[""]`. */
  function Split(s: string, sep: char): (r: seq<string>)
    ensures |r| >= 1
    ensures forall i :: 0 <= i < |r| ==> sep !in r[i]
  {
    if s == [] then [[]]
    else
      var rest := Split(s[1..], sep);
      if s[0] == sep then [[]] + rest
      else [[s[0]] + rest[0]] + rest[1..]
  }

  /** `parts.join(sep)`. */
  function Join(parts: seq<string>, sep: char): string
    requires |parts| >= 1
  {
    if |parts| == 1 then parts[0] else parts[0] + [sep] + Join(parts[1..], sep)
  }

  /** Splitting loses nothing: joining the pieces gives the header back. */
  lemma {:induction false} JoinSplit(s: string, sep: char)
    ensures Join(Split(s, sep), sep) == s
  {
    if s != [] {
      var rest := Split(s[1..], sep);
      JoinSplit(s[1..], sep);
      if s[0] == sep {
        assert Split(s, sep) == [[]] + rest;
        assert ([[]] + rest)[1..] == rest;
        assert s == [] + [sep] + s[1..];
      } else {
        var r := [[s[0]] + rest[0]] + rest[1..];
        if |rest| == 1 {
          assert s == [s[0]] + s[1..];
        } else {
          assert r[1..] == rest[1..];
          assert Join(rest, sep) == rest[0] + [sep] + Join(rest[1..], sep);
          assert s == [s[0]] + s[1..];
        }
      }
    }
  }

  /** A word without separators, a separator, then the rest: the word is the first piece. */
  lemma {:induction false} SplitAfterWord(a: string, b: string, sep: char)
    requires sep !in a
    ensures Split(a + [sep] + b, sep) == [a] + Split(b, sep)
  {
    if a == [] {
      assert a + [sep] + b == [sep] + b;
      assert ([sep] + b)[1..] == b;
    } else {
      assert (a + [sep] + b)[1..] == a[1..] + [sep] + b;
      SplitAfterWord(a[1..], b, sep);
      assert a == [a[0]] + a[1..];
    }
  }

  /** A string without separators is one piece. */
  lemma {:induction false} SplitWord(a: string, sep: char)
    requires sep !in a
    ensures Split(a, sep) == [a]
  {
    if a != [] {
      SplitWord(a[1..], sep);
      assert a == [a[0]] + a[1..];
    }
  }

  /** `authHeader?.split(" ")[1]`, where an absent or empty piece is no token. */
  function ExtractToken(header: Option<string>): (t: Option<string>)
    ensures t.Some? ==> t.value != [] && ' ' !in t.value
    ensures t.Some? ==> header.Some? && |Split(header.value, ' ')| >= 2 && t.value == Split(header.value, ' ')[1]
  {
    if header.None? then None
    else
      var parts := Split(header.value, ' ');
      if |parts| < 2 || parts[1] == [] then None else Some(parts[1])
  }

  /** The first word is never looked at: any scheme, not only `Bearer`, passes its token on. */
  lemma AnySchemeIsAccepted(scheme: string, token: string, rest: string)
    requires ' ' !in scheme && ' ' !in token && token != []
    ensures ExtractToken(Some(scheme + " " + token)) == Some(token)
    ensures ExtractToken(Some(scheme + " " + token + " " + rest)) == Some(token)
  {
    SplitAfterWord(scheme, token, ' ');
    SplitWord(token, ' ');
    assert scheme + " " + token == scheme + [' '] + token;
    assert scheme + " " + token + " " + rest == scheme + [' '] + (token + [' '] + rest);
    SplitAfterWord(scheme, token + [' '] + rest, ' ');
    SplitAfterWord(token, rest, ' ');
  }

  /** A header without a space, or with two spaces after the scheme, carries no token. */
  lemma NoTokenCases(word: string, rest: string)
    requires ' ' !in word
    ensures ExtractToken(Some(word)) == None
    ensures ExtractToken(Some(word + "  " + rest)) == None
  {
    SplitWord(word, ' ');
    assert word + "  " + rest == word + [' '] + ([' '] + rest);
    SplitAfterWord(word, [' '] + rest, ' ');
    assert [' '] + rest == [] + [' '] + rest;
    SplitAfterWord([], rest, ' ');
  }

  // ---- authenticate and authorize ----

  /** `req.user`: the claims copied with `as string` casts, so a refresh payload leaves email and role undefined. */
  datatype RequestUser = RequestUser(id: string, email: Option<string>, role: Option<string>)

  function UserOfClaims(c: Claims): (u: RequestUser)
    ensures u.id == c.id
    ensures c.AccessClaims? ==> u.email == Some(c.email) && u.role == Some(c.role)
    ensures c.RefreshClaims? ==> u.email == None && u.role == None
  {
    match c
    case AccessClaims(id, email, role) => RequestUser(id, Some(email), Some(role))
    case RefreshClaims(id) => RequestUser(id, None, None)
  }

  /** What a middleware does with the request: pass it on, or answer with a status and an error message. */
  datatype Outcome = Next | Reject(status: int, error: string)

  /** `authorize(...roles)`: 401 without a user, 403 when the user's role is not listed. */
  function Authorize(user: Option<RequestUser>, roles: seq<string>): (r: Outcome)
    ensures user.None? <==> r == Reject(401, "Unauthorized")
    ensures user.Some? && !(user.value.role.Some? && user.value.role.value in roles) <==> r == Reject(403, "Forbidden")
    ensures r == Next <==> user.Some? && user.value.role.Some? && user.value.role.value in roles
  {
    if user.None? then Reject(401, "Unauthorized")
    else if !(user.value.role.Some? && user.value.role.value in roles) then Reject(403, "Forbidden")
    else Next
  }

  /** A user authenticated from access claims passes the gate exactly when the role is listed; one from refresh claims never does. */
  lemma AuthorizeAfterAuthenticate(c: Claims, roles: seq<string>)
    ensures Authorize(Some(UserOfClaims(c)), roles) == Next <==> c.AccessClaims? && c.role in roles
  {
  }

  /** The JSON answer the middleware has written, if any. */
  datatype Response = NoResponse | Json(status: int, error: string)

  /** One request passing through the middleware chain. */
  class Exchange {
    const authorization: Option<string>
    var user: Option<RequestUser>
    var response: Response
    var nextCalls: nat

    constructor (authorization: Option<string>)
      ensures this.authorization == authorization
      ensures user == None && response == NoResponse && nextCalls == 0
    {
      this.authorization := authorization;
      user := None;
      response := NoResponse;
      nextCalls := 0;
    }

    /**
     * `authenticate`: 401 "No token provided" without a token, 401 "Invalid or
     * expired token" when verification fails; otherwise `req.user` is set from
     * the claims and `next` is called once.
     */
    method Authenticate(env: Env, verify: (string, string) -> Option<Claims>)
      modifies this
      ensures var token := ExtractToken(authorization);
        token.None? ==> response == Json(401, "No token provided") && user == old(user) && nextCalls == old(nextCalls)
      ensures var token := ExtractToken(authorization);
        token.Some? && VerifyAccessToken(token.value, env, verify).None? ==>
          response == Json(401, "Invalid or expired token") && user == old(user) && nextCalls == old(nextCalls)
      ensures var token := ExtractToken(authorization);
        token.Some? && VerifyAccessToken(token.value, env, verify).Some? ==>
          && user == Some(UserOfClaims(VerifyAccessToken(token.value, env, verify).value))
          && nextCalls == old(nextCalls) + 1
          && response == old(response)
    {
      var token := ExtractToken(authorization);
      if token.None? {
        response := Json(401, "No token provided");
        return;
      }
      var decoded := VerifyAccessToken(token.value, env, verify);
      if decoded.None? {
        response := Json(401, "Invalid or expired token");
        return;
      }
      user := Some(UserOfClaims(decoded.value));
      nextCalls := nextCalls + 1;
    }

    /** `authorize(...roles)` applied to this request. */
    method AuthorizeRoles(roles: seq<string>)
      modifies this
      ensures user == old(user)
      ensures Authorize(old(user), roles) == Next ==> nextCalls == old(nextCalls) + 1 && response == old(response)
      ensures Authorize(old(user), roles).Reject? ==>
                && response == Json(Authorize(old(user), roles).status, Authorize(old(user), roles).error)
                && nextCalls == old(nextCalls)
    {
      var outcome := Authorize(user, roles);
      if outcome.Reject? {
        response := Json(outcome.status, outcome.error);
      } else {
        nextCalls := nextCalls + 1;
      }
    }
  }
}
