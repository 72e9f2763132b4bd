/** Properties that span several handlers, or a handler and the request
    context: what a client can observe over a sequence of requests. */
module Scenarios {
  import opened Oracles
  import opened Records
  import opened Context
  import opened Resolvers

  /** The `authToken` a browser sends with its next request, given the one it
      sent before and the cookie instructions of the last response. */
  function BrowserCookie(previous: Option<string>, jar: Jar): Option<string> {
    if AuthCookie !in jar then previous
    else
      match jar[AuthCookie]
      case SetCookie(value, _) => Some(value)
      case ClearCookie(_) => None
  }

  /** Every handler that needs a user refuses an anonymous caller with the
      same message and leaves the store as it was. */
  lemma AnonymousCallersChangeNothing(db: Db, title: string, content: string, id: Id,
                                      newTitle: Option<string>, newContent: Option<string>, now: Time)
    requires Consistent(db)
    ensures AddPostStep(db, None, title, content, now) == Step(Err(NotAuthenticated), db)
    ensures UpdatePostStep(db, None, id, newTitle, newContent, now) == Step(Err(NotAuthenticated), db)
    ensures DeletePostStep(db, None, id) == Step(Err(NotAuthenticated), db)
    ensures GetMyPosts(db, None) == Err(NotAuthenticated)
  {
  }

  /** A caller cannot tell a post that does not exist from a post that
      belongs to someone else: update and delete answer both alike, and
      neither changes the store. */
  lemma MissingAndForeignPostsLookAlike(missing: Db, foreign: Db, user: Claims, id: Id,
                                        title: Option<string>, content: Option<string>, now: Time)
    requires Consistent(missing) && Consistent(foreign)
    requires id !in missing.posts
    requires id in foreign.posts && foreign.posts[id].author != user.id
    ensures UpdatePostStep(missing, Some(user), id, title, content, now).result
         == UpdatePostStep(foreign, Some(user), id, title, content, now).result
    ensures DeletePostStep(missing, Some(user), id).result == DeletePostStep(foreign, Some(user), id).result
    ensures UpdatePostStep(missing, Some(user), id, title, content, now).db == missing
    ensures DeletePostStep(missing, Some(user), id).db == missing
    ensures UpdatePostStep(foreign, Some(user), id, title, content, now).db == foreign
    ensures DeletePostStep(foreign, Some(user), id).db == foreign
  {
  }

  /** One user's new post: another user can neither update nor delete it,
      while its author can do both. */
  lemma OnlyTheAuthorChangesAPost(db: Db, owner: Claims, stranger: Claims, title: string, content: string,
                                  newTitle: string, now: Time, later: Time)
    requires Consistent(db) && owner.id != stranger.id
    ensures
      var added := AddPostStep(db, Some(owner), title, content, now);
      var id := added.result.value.id;
      && UpdatePostStep(added.db, Some(stranger), id, Some(newTitle), None, later)
         == Step(Err(Rewrap(UpdatePostFailed, PostNotFoundOrForbidden)), added.db)
      && DeletePostStep(added.db, Some(stranger), id)
         == Step(Err(Rewrap(DeletePostFailed, PostNotFoundOrForbidden)), added.db)
      && UpdatePostStep(added.db, Some(owner), id, Some(newTitle), None, later).result
         == Ok(Entry(id, Post(newTitle, content, owner.id, now, later)))
      && DeletePostStep(added.db, Some(owner), id).result == Ok(PostDeleted)
  {
  }

  /** Delete is not idempotent: once a post is gone, deleting or updating it
      again fails as for a post that never existed. */
  lemma SecondDeleteFails(db: Db, user: Claims, id: Id, title: Option<string>,
                          content: Option<string>, now: Time)
    requires Consistent(db)
    requires DeletePostStep(db, Some(user), id).result.Ok?
    ensures
      var after := DeletePostStep(db, Some(user), id).db;
      && DeletePostStep(after, Some(user), id)
         == Step(Err(Rewrap(DeletePostFailed, PostNotFoundOrForbidden)), after)
      && UpdatePostStep(after, Some(user), id, title, content, now)
         == Step(Err(Rewrap(UpdatePostFailed, PostNotFoundOrForbidden)), after)
  {
  }

  /** The post a caller adds is among the caller's own posts afterwards, and
      nobody else's list changes. */
  lemma NewPostIsListedForItsAuthor(db: Db, user: Claims, title: string, content: string, now: Time)
    requires Consistent(db)
    ensures
      var added := AddPostStep(db, Some(user), title, content, now);
      && added.result.value in PostsOf(added.db, user.id)
      && forall other :: other != user.id ==> PostsOf(added.db, other) == PostsOf(db, other)
  {
    var added := AddPostStep(db, Some(user), title, content, now);
    var e := added.result.value;
    assert e.id in added.db.posts && added.db.posts[e.id] == e.doc;
    forall other | other != user.id
      ensures PostsOf(added.db, other) == PostsOf(db, other)
    {
      AuthoredIgnoresOthersPost(db.posts, e.id, e.doc, other);
      assert db.posts - {e.id} == db.posts;
      assert Authored(added.db.posts, other) == Authored(db.posts, other);
      ListingBeyondKeys(Authored(db.posts, other), db.nextId, added.db.nextId);
    }
  }

  /** Adding a post by one author leaves every other author's posts as they were. */
  lemma AuthoredIgnoresOthersPost(posts: map<Id, Post>, id: Id, post: Post, other: Id)
    requires post.author != other
    ensures Authored(posts[id := post], other) == Authored(posts - {id}, other)
  {
  }

  /** Listing up to a bound past every key is the same as listing up to any
      other such bound. */
  lemma {:induction false} ListingBeyondKeys(posts: map<Id, Post>, hi: Id, hi': Id)
    requires hi <= hi'
    requires forall k :: k in posts ==> k < hi
    ensures Listing(posts, 0, hi') == Listing(posts, 0, hi)
  {
    ListingUpTo(posts, 0, hi, hi');
  }

  lemma {:induction false} ListingUpTo(posts: map<Id, Post>, lo: Id, hi: Id, hi': Id)
    requires hi <= hi'
    requires forall k :: k in posts ==> k < hi
    ensures Listing(posts, lo, hi') == Listing(posts, lo, hi)
    decreases hi' - lo
  {
    if lo < hi' {
      ListingUpTo(posts, lo + 1, hi, hi');
      if hi <= lo {
        assert Listing(posts, lo + 1, hi') == [];
      }
    }
  }

  /** With both uniqueness checks failing, the email message is the one
      reported, and no user is added or changed. */
  lemma DoubleCollisionReportsEmail(db: Db, env: Env, username: string, email: string,
                                    password: string, salt: string, now: Time)
    requires Consistent(db)
    requires EmailTaken(db.users, email) && UsernameTaken(db.users, username)
    ensures RegisterStep(db, env, username, email, password, salt, now)
         == Step(Err(Rewrap(RegisterFailed, EmailRegistered)), db)
  {
  }

  /** A user who has just registered can log in with the same email and
      password, and is given a token signed over the new id. */
  lemma RegisterThenLogin(db: Db, env: Env, username: string, email: string, password: string,
                          salt: string, now: Time, later: Time, jar: Jar)
    requires Consistent(db) && BcryptSound(env.bcrypt)
    requires RegisterStep(db, env, username, email, password, salt, now).result.Ok?
    ensures
      var reg := RegisterStep(db, env, username, email, password, salt, now);
      var user := reg.result.value.user;
      LoginStep(reg.db, env, email, password, later, jar).result
      == Ok(AuthPayload(env.jwt.sign(Claims(user.id, email), env.config.secret, later), user))
  {
  }

  /** The token register returns, sent back as `Bearer <token>` within a day,
      makes the new user the caller: a post added then is authored by them. */
  lemma RegisteredTokenIdentifiesUser(db: Db, env: Env, username: string, email: string, password: string,
                                      salt: string, now: Time, later: Time, title: string, content: string)
    requires Consistent(db) && JwtSound(env.jwt) && env.config.secret != ""
    requires RegisterStep(db, env, username, email, password, salt, now).result.Ok?
    requires now <= later < now + TokenLifetime
    ensures
      var reg := RegisterStep(db, env, username, email, password, salt, now);
      var id := reg.result.value.user.id;
      var ctx := BuildContext(Some(BearerPrefix + reg.result.value.token), env, later);
      && ctx.user == Some(Claims(id, email))
      && AddPostStep(reg.db, ctx.user, title, content, later).result.value.doc.author == id
  {
  }

  /** After a successful login the browser's next request, within a day, is
      answered by `me` with the user who logged in. */
  lemma LoginThenMe(db: Db, env: Env, email: string, password: string, now: Time, later: Time,
                    jar: Jar, previous: Option<string>)
    requires Consistent(db) && JwtSound(env.jwt) && env.config.secret != ""
    requires LoginStep(db, env, email, password, now, jar).result.Ok?
    requires now <= later < now + TokenLifetime
    ensures
      var out := LoginStep(db, env, email, password, now, jar);
      Me(db, env, BrowserCookie(previous, out.cookies), later) == Ok(out.result.value.user)
  {
  }

  /** After logout the browser sends no token, so `me` fails as unauthenticated. */
  lemma LogoutThenMe(db: Db, env: Env, jar: Jar, previous: Option<string>, now: Time)
    ensures Me(db, env, BrowserCookie(previous, LogoutCookies(jar, env.config)), now) == Err(NoAuthCookie)
  {
  }

  /** Logout does not depend on what the response held: logging out twice is
      logging out once, and an earlier login's cookie is simply replaced. */
  lemma LogoutIsIdempotent(jar: Jar, config: Config, earlier: CookieDirective)
    ensures LogoutCookies(LogoutCookies(jar, config), config) == LogoutCookies(jar, config)
    ensures LogoutCookies(jar[AuthCookie := earlier], config) == LogoutCookies(jar, config)
  {
  }

  /** The cookie login sets and the one logout clears carry the same name and
      the same attributes, so the clear does reach the cookie. */
  lemma LoginAndLogoutAgreeOnCookie(db: Db, env: Env, email: string, password: string, now: Time,
                                    jar: Jar, other: Jar)
    requires Consistent(db)
    requires LoginStep(db, env, email, password, now, jar).result.Ok?
    ensures
      var set_ := LoginStep(db, env, email, password, now, jar).cookies[AuthCookie];
      var cleared := LogoutCookies(other, env.config)[AuthCookie];
      && set_.SetCookie? && cleared.ClearCookie?
      && set_.options == cleared.options
      && set_.options == CookieOptions(true, env.config.nodeEnv == "production", "Strict")
  {
  }

  /** Login tells an unregistered email from a registered one with a wrong
      password: the same request gets different answers from a store without
      the email and from a store where its user's password does not match, so
      login reveals whether an email is registered. */
  lemma LoginFailuresAreDistinguishable(unknown: Db, known: Db, env: Env, email: string, password: string,
                                        now: Time, jar: Jar, k: Id)
    requires Consistent(unknown) && Consistent(known)
    requires !EmailTaken(unknown.users, email)
    requires k in known.users && known.users[k].email == email
    requires !env.bcrypt.compare(password, known.users[k].password)
    ensures LoginStep(unknown, env, email, password, now, jar).result
         != LoginStep(known, env, email, password, now, jar).result
  {
    if Rewrap(LoginFailed, UserNotFound) == Rewrap(LoginFailed, WrongPassword) {
      RewrapIsInjective(LoginFailed, UserNotFound, WrongPassword);
    }
  }
}
