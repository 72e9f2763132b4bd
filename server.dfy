/** The resolvers that change state, as methods on the objects they change:
    the document store for addPost, updatePost, deletePost and register, the
    response's cookies for login and logout. Each method is proved to do what
    the matching step function of Resolvers says. */
module Server {
  import opened Oracles
  import opened Records
  import opened Resolvers

  /** The response object handed to login and logout: the cookie
      instructions it will carry back to the client. */
  class Response {
    var cookies: Jar

    constructor ()
      ensures cookies == map[]
    {
      cookies := map[];
    }

    /** `res.cookie(name, value, options)`. */
    method Cookie(name: string, value: string, options: CookieOptions)
      modifies this
      ensures cookies == old(cookies)[name := SetCookie(value, options)]
    {
      cookies := cookies[name := SetCookie(value, options)];
    }

    /** `res.clearCookie(name, options)`. */
    method ClearCookie(name: string, options: CookieOptions)
      modifies this
      ensures cookies == old(cookies)[name := CookieDirective.ClearCookie(options)]
    {
      cookies := cookies[name := CookieDirective.ClearCookie(options)];
    }
  }

  /** The `User` and `Post` collections, the id generator, and the process
      environment the handlers read. */
  class Store {
    var users: map<Id, User>
    var posts: map<Id, Post>
    var nextId: Id
    const env: Env

    function Contents(): Db
      reads this
    {
      Db(users, posts, nextId)
    }

    ghost predicate Valid()
      reads this
    {
      Consistent(Contents())
    }

    constructor (env: Env)
      ensures Valid() && Contents() == Db(map[], map[], 0) && this.env == env
    {
      users, posts, nextId := map[], map[], 0;
      this.env := env;
    }

    method AddPost(user: Option<Claims>, title: string, content: string, now: Time)
      returns (r: Result<Entry<Post>>)
      requires Valid()
      modifies this
      ensures Valid()
      ensures Step(r, Contents()) == AddPostStep(old(Contents()), user, title, content, now)
    {
      if user.None? {
        return Err(NotAuthenticated);
      }
      var post := Post(title, content, user.value.id, now, now);
      var id := nextId;
      posts := posts[id := post];
      nextId := nextId + 1;
      r := Ok(Entry(id, post));
    }

    method UpdatePost(user: Option<Claims>, id: Id, title: Option<string>, content: Option<string>, now: Time)
      returns (r: Result<Entry<Post>>)
      requires Valid()
      modifies this
      ensures Valid()
      ensures Step(r, Contents()) == UpdatePostStep(old(Contents()), user, id, title, content, now)
    {
      if user.None? {
        return Err(NotAuthenticated);
      }
      if !Owns(posts, id, user.value.id) {
        return Err(Rewrap(UpdatePostFailed, PostNotFoundOrForbidden));
      }
      var post := Updated(posts[id], title, content, now);
      posts := posts[id := post];
      r := Ok(Entry(id, post));
    }

    method DeletePost(user: Option<Claims>, id: Id) returns (r: Result<string>)
      requires Valid()
      modifies this
      ensures Valid()
      ensures Step(r, Contents()) == DeletePostStep(old(Contents()), user, id)
    {
      if user.None? {
        return Err(NotAuthenticated);
      }
      if !Owns(posts, id, user.value.id) {
        return Err(Rewrap(DeletePostFailed, PostNotFoundOrForbidden));
      }
      posts := posts - {id};
      r := Ok(PostDeleted);
    }

    method Register(username: string, email: string, password: string, salt: string, now: Time)
      returns (r: Result<AuthPayload>)
      requires Valid()
      modifies this
      ensures Valid()
      ensures Step(r, Contents()) == RegisterStep(old(Contents()), env, username, email, password, salt, now)
    {
      if EmailTaken(users, email) {
        return Err(Rewrap(RegisterFailed, EmailRegistered));
      }
      if UsernameTaken(users, username) {
        return Err(Rewrap(RegisterFailed, UsernameRegistered));
      }
      var hashed := env.bcrypt.hash(password, salt);
      var user := User(username, email, hashed);
      var id := nextId;
      users := users[id := user];
      nextId := nextId + 1;
      var token := env.jwt.sign(Claims(id, user.email), env.config.secret, now);
      r := Ok(AuthPayload(token, Entry(id, user)));
    }

    method Login(email: string, password: string, now: Time, res: Response)
      returns (r: Result<AuthPayload>)
      requires Valid()
      modifies res
      ensures Reply(r, res.cookies) == LoginStep(Contents(), env, email, password, now, old(res.cookies))
    {
      var found := FindUserByEmail(users, email);
      if found.None? {
        return Err(Rewrap(LoginFailed, UserNotFound));
      }
      var user := users[found.value];
      var valid := env.bcrypt.compare(password, user.password);
      if !valid {
        return Err(Rewrap(LoginFailed, WrongPassword));
      }
      var token := env.jwt.sign(Claims(found.value, user.email), env.config.secret, now);
      res.Cookie(AuthCookie, token, AuthCookieOptions(env.config));
      r := Ok(AuthPayload(token, Entry(found.value, user)));
    }
  }

  method Logout(res: Response, config: Config) returns (r: Message)
    modifies res
    ensures r == Message(LoggedOut)
    ensures res.cookies == LogoutCookies(old(res.cookies), config)
  {
    res.ClearCookie(AuthCookie, AuthCookieOptions(config));
    r := Message(LoggedOut);
  }
}
