/** The per-request identity of index.js: the `context` callback reads the
    Authorization header, drops the first `Bearer `, and `getUser` turns the
    rest into the token's claims or `null`. */
module Context {
  import opened Oracles

  const BearerPrefix: string := "Bearer "

  /** `s.replace(pattern, '')` with a string pattern: only the leftmost
      occurrence is removed. */
  function ReplaceFirst(s: string, pattern: string): string
    decreases |s|
  {
    if |s| < |pattern| then s
    else if s[..|pattern|] == pattern then s[|pattern|..]
    else [s[0]] + ReplaceFirst(s[1..], pattern)
  }

  predicate OccursAt(s: string, pattern: string, i: int) {
    0 <= i && i + |pattern| <= |s| && s[i..i + |pattern|] == pattern
  }

  lemma OccursAtTail(s: string, pattern: string, i: int)
    requires |s| > 0 && i >= 1
    ensures OccursAt(s, pattern, i) <==> OccursAt(s[1..], pattern, i - 1)
  {
  }

  /** Removing the first occurrence: everything before the leftmost match is
      kept, the match goes, and everything after it is kept. */
  lemma {:induction false} ReplaceFirstRemovesLeftmost(s: string, pattern: string, i: int)
    requires OccursAt(s, pattern, i)
    requires forall j :: 0 <= j < i ==> !OccursAt(s, pattern, j)
    ensures ReplaceFirst(s, pattern) == s[..i] + s[i + |pattern|..]
    decreases |s|
  {
    if i > 0 {
      assert !OccursAt(s, pattern, 0);
      OccursAtTail(s, pattern, i);
      forall j | 0 <= j < i - 1 ensures !OccursAt(s[1..], pattern, j) {
        OccursAtTail(s, pattern, j + 1);
      }
      ReplaceFirstRemovesLeftmost(s[1..], pattern, i - 1);
      assert s[..i] == [s[0]] + s[1..][..i - 1];
      assert s[i + |pattern|..] == s[1..][i - 1 + |pattern|..];
    }
  }

  /** A string without the pattern passes through unchanged. */
  lemma {:induction false} ReplaceFirstWithoutMatch(s: string, pattern: string)
    requires forall j :: 0 <= j <= |s| ==> !OccursAt(s, pattern, j)
    ensures ReplaceFirst(s, pattern) == s
    decreases |s|
  {
    if |s| >= |pattern| {
      assert !OccursAt(s, pattern, 0);
      if |s| > 0 {
        forall j | 0 <= j <= |s| - 1 ensures !OccursAt(s[1..], pattern, j) {
          OccursAtTail(s, pattern, j + 1);
        }
        ReplaceFirstWithoutMatch(s[1..], pattern);
      }
    }
  }

  /** `token.replace('Bearer ', '')`. */
  function StripBearer(header: string): string {
    ReplaceFirst(header, BearerPrefix)
  }

  /** `getUser`: an empty token is anonymous and is never verified; otherwise
      the decoded claims, with every thrown error turned into anonymous. */
  function GetUser(token: string, env: Env, now: Time): (user: Option<Claims>)
    ensures token == "" ==> user == None
    ensures token != "" ==>
      (user.Some? <==> env.jwt.verify(token, env.config.secret, now).Decoded?)
    ensures user.Some? ==> user.value == env.jwt.verify(token, env.config.secret, now).claims
  {
    if token == "" then None
    else
      match env.jwt.verify(token, env.config.secret, now)
      case Decoded(claims) => Some(claims)
      case Rejected(_) => None
  }

  /** The context object: it holds the user and nothing else. */
  datatype RequestContext = RequestContext(user: Option<Claims>)

  /** The `context` callback; a missing header reads as the empty string. */
  function BuildContext(authorization: Option<string>, env: Env, now: Time): (ctx: RequestContext)
    ensures authorization.None? ==> ctx.user == None
  {
    RequestContext(GetUser(StripBearer(authorization.GetOr("")), env, now))
  }

  /** A missing Authorization header is read exactly as an empty one. */
  lemma MissingHeaderReadsAsEmpty(env: Env, now: Time)
    ensures BuildContext(None, env, now) == BuildContext(Some(""), env, now)
  {
  }

  /** `Bearer <token>` is verified as `<token>`, whatever the token holds. */
  lemma BearerTokenIsVerified(token: string, env: Env, now: Time)
    ensures BuildContext(Some(BearerPrefix + token), env, now).user == GetUser(token, env, now)
  {
  }

  /** A header of exactly `Bearer ` is anonymous, with any token library. */
  lemma BareBearerIsAnonymous(env: Env, now: Time)
    ensures BuildContext(Some(BearerPrefix), env, now).user == None
  {
  }

  /** A header without `Bearer ` in it is verified as it is. */
  lemma HeaderWithoutBearerPassesThrough(header: string, env: Env, now: Time)
    requires forall j :: 0 <= j <= |header| ==> !OccursAt(header, BearerPrefix, j)
    ensures BuildContext(Some(header), env, now).user == GetUser(header, env, now)
  {
    ReplaceFirstWithoutMatch(header, BearerPrefix);
  }

  /** `Bearer ` inside the header, not at its start, is cut out of the middle:
      the token that is verified is the header with that one occurrence gone. */
  lemma BearerRemovedWherever(header: string, i: int, env: Env, now: Time)
    requires OccursAt(header, BearerPrefix, i)
    requires forall j :: 0 <= j < i ==> !OccursAt(header, BearerPrefix, j)
    ensures BuildContext(Some(header), env, now).user
         == GetUser(header[..i] + header[i + |BearerPrefix|..], env, now)
  {
    ReplaceFirstRemovesLeftmost(header, BearerPrefix, i);
  }

  /** A token the server signed resolves, while it is valid, to the claims it
      was signed over: `context.user.id` is the signer's `id` claim. */
  lemma SignedTokenResolves(claims: Claims, env: Env, issued: Time, now: Time)
    requires JwtSound(env.jwt) && env.config.secret != ""
    requires issued <= now < issued + TokenLifetime
    ensures BuildContext(Some(BearerPrefix + env.jwt.sign(claims, env.config.secret, issued)), env, now).user
         == Some(claims)
  {
  }

  /** Once the day is over the same token is anonymous, and nothing is thrown. */
  lemma ExpiredTokenIsAnonymous(claims: Claims, env: Env, issued: Time, now: Time)
    requires JwtSound(env.jwt) && env.config.secret != ""
    requires issued + TokenLifetime <= now
    ensures BuildContext(Some(BearerPrefix + env.jwt.sign(claims, env.config.secret, issued)), env, now).user
         == None
  {
  }
}
