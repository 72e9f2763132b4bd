/** The resolvers of resolvers/index.js over an abstract document store. The
    read-only resolvers are functions of the store's contents. Each resolver
    that writes is a step function from the old contents (and, for login and
    logout, the response's cookies) to its result and the new contents; the
    methods of Server.Store are proved against these. */
module Resolvers {
  import opened Oracles
  import opened Records

  /** What a handler returns, or the message of the error it throws. */
  datatype Result<T> = Ok(value: T) | Err(message: string)

  /** The result of a handler that writes to the store, and the store after it. */
  datatype Step<T> = Step(result: Result<T>, db: Db)

  /** `{ token, user }`. */
  datatype AuthPayload = AuthPayload(token: string, user: Entry<User>)

  /** `{ message }`. */
  datatype Message = Message(message: string)

  // Messages thrown by the handlers
  const NotAuthenticated: string := "No autenticado"
  const NoAuthCookie: string := "No autenticado: no se encontró la cookie authToken."
  const InvalidToken: string := "Token inválido."
  const PostNotFoundOrForbidden: string := "Publicación no encontrada o usuario no autorizado"
  const PostDeleted: string := "Publicación eliminada con éxito"
  const EmailRegistered: string := "Este correo electrónico ya está registrado"
  const UsernameRegistered: string := "Este nombre de usuario ya está registrado."
  const UserNotFound: string := "Usuario no encontrado"
  const WrongPassword: string := "Contraseña incorrecta"
  const LoggedOut: string := "Cierre de sesión exitoso"

  // Operation prefixes of the re-thrown errors
  const UpdatePostFailed: string := "Error al actualizar la publicación"
  const DeletePostFailed: string := "Error al eliminar la publicación"
  const RegisterFailed: string := "Error al registrar usuario"
  const LoginFailed: string := "Error al iniciar sesión"

  /** `throw new Error(`${operation}: ${err.message}`)` in a catch block. */
  function Rewrap(operation: string, message: string): string {
    operation + ": " + message
  }

  /** Re-wrapping keeps the inner message recoverable: two different inner
      errors of one operation stay different to the caller. */
  lemma RewrapIsInjective(operation: string, m1: string, m2: string)
    requires Rewrap(operation, m1) == Rewrap(operation, m2)
    ensures m1 == m2
  {
    var n := |operation + ": "|;
    assert m1 == Rewrap(operation, m1)[n..];
    assert m2 == Rewrap(operation, m2)[n..];
  }

  // ---------------------------------------------------------------------
  // Queries

  /** The posts of `posts` with ids in [lo, hi), in ascending id order. */
  function Listing(posts: map<Id, Post>, lo: Id, hi: Id): (r: seq<Entry<Post>>)
    ensures forall e :: e in r ==> lo <= e.id < hi && e.id in posts && posts[e.id] == e.doc
    ensures forall k :: lo <= k < hi && k in posts ==> Entry(k, posts[k]) in r
    ensures forall i, j :: 0 <= i < j < |r| ==> r[i].id < r[j].id
    decreases hi - lo
  {
    if hi <= lo then []
    else
      var rest := Listing(posts, lo + 1, hi);
      if lo in posts then
        assert forall j :: 0 <= j < |rest| ==> rest[j] in rest;
        [Entry(lo, posts[lo])] + rest
      else rest
  }

  /** `getPosts`: `Post.find()`, every post in ascending id order, which the
      model takes as the order of insertion. */
  function GetPosts(db: Db): (r: seq<Entry<Post>>)
    requires Consistent(db)
    ensures forall e :: e in r ==> e.id in db.posts && db.posts[e.id] == e.doc
    ensures forall k :: k in db.posts ==> Entry(k, db.posts[k]) in r
    ensures forall i, j :: 0 <= i < j < |r| ==> r[i].id < r[j].id
  {
    Listing(db.posts, 0, db.nextId)
  }

  /** `User.posts`: `Post.find({ author })`, the posts of one author. */
  function PostsOf(db: Db, author: Id): (r: seq<Entry<Post>>)
    requires Consistent(db)
    ensures forall e :: e in r ==> e.id in db.posts && db.posts[e.id] == e.doc && e.doc.author == author
    ensures forall k :: k in db.posts && db.posts[k].author == author ==> Entry(k, db.posts[k]) in r
    ensures forall i, j :: 0 <= i < j < |r| ==> r[i].id < r[j].id
  {
    var own := Authored(db.posts, author);
    assert forall k :: k in db.posts && db.posts[k].author == author ==> k in own && k < db.nextId;
    Listing(own, 0, db.nextId)
  }

  /** The filter `{ author }` applied to the posts collection. */
  function Authored(posts: map<Id, Post>, author: Id): map<Id, Post> {
    map k | k in posts && posts[k].author == author :: posts[k]
  }

  /** `getMyPosts`: anonymous callers are refused; otherwise the caller's own
      posts, where the caller is the token's `id` claim. */
  function GetMyPosts(db: Db, user: Option<Claims>): (r: Result<seq<Entry<Post>>>)
    requires Consistent(db)
    ensures user.None? <==> r == Err(NotAuthenticated)
    ensures user.Some? ==> r.Ok?
    ensures r.Ok? ==> forall i, j :: 0 <= i < j < |r.value| ==> r.value[i].id < r.value[j].id
    ensures r.Ok? ==> forall e :: e in r.value ==> Owns(db.posts, e.id, user.value.id) && db.posts[e.id] == e.doc
    ensures r.Ok? ==> forall k :: Owns(db.posts, k, user.value.id) ==> Entry(k, db.posts[k]) in r.value
  {
    if user.None? then Err(NotAuthenticated) else Ok(PostsOf(db, user.value.id))
  }

  /** `getPostById`: `Post.findById(id)`, `null` when there is none. */
  function GetPostById(db: Db, id: Id): (r: Option<Entry<Post>>)
    ensures r.Some? <==> id in db.posts
    ensures r.Some? ==> r.value.id == id && r.value.doc == db.posts[id]
  {
    if id in db.posts then Some(Entry(id, db.posts[id])) else None
  }

  /** `Post.author`: `User.findById(post.author)`, `null` for a dangling author. */
  function PostAuthor(db: Db, post: Post): (r: Option<Entry<User>>)
    ensures r.Some? <==> post.author in db.users
    ensures r.Some? ==> r.value.id == post.author && r.value.doc == db.users[post.author]
  {
    if post.author in db.users then Some(Entry(post.author, db.users[post.author])) else None
  }

  /** `me`: the user named by the `authToken` cookie. A missing or empty cookie
      has its own message; a token that does not verify and a token whose user
      is gone both read "Token inválido.", because the inner "Usuario no
      encontrado." is caught and replaced. */
  function Me(db: Db, env: Env, authToken: Option<string>, now: Time): (r: Result<Entry<User>>)
    ensures authToken.GetOr("") == "" <==> r == Err(NoAuthCookie)
    ensures r.Ok? <==>
      && authToken.GetOr("") != ""
      && var v := env.jwt.verify(authToken.value, env.config.secret, now);
         v.Decoded? && v.claims.id in db.users
    ensures r.Ok? ==>
      var c := env.jwt.verify(authToken.value, env.config.secret, now).claims;
      r.value == Entry(c.id, db.users[c.id])
    ensures !r.Ok? && authToken.GetOr("") != "" ==> r == Err(InvalidToken)
  {
    if authToken.None? || authToken.value == "" then Err(NoAuthCookie)
    else
      match env.jwt.verify(authToken.value, env.config.secret, now)
      case Rejected(_) => Err(InvalidToken)
      case Decoded(c) =>
        if c.id in db.users then Ok(Entry(c.id, db.users[c.id])) else Err(InvalidToken)
  }

  // ---------------------------------------------------------------------
  // Post mutations

  /** `addPost`: the post is owned by the caller and stamped with `now` twice. */
  function AddPostStep(db: Db, user: Option<Claims>, title: string, content: string, now: Time)
    : (out: Step<Entry<Post>>)
    requires Consistent(db)
    ensures Consistent(out.db)
    ensures user.None? ==> out == Step(Err(NotAuthenticated), db)
    ensures user.Some? ==>
      && out.result.Ok?
      && var e := out.result.value;
      && e.id !in db.posts
      && e.doc == Post(title, content, user.value.id, now, now)
      && out.db.posts == db.posts[e.id := e.doc]
      && out.db.users == db.users
      && GetPostById(out.db, e.id) == Some(e)
  {
    if user.None? then Step(Err(NotAuthenticated), db)
    else
      var post := Post(title, content, user.value.id, now, now);
      Step(Ok(Entry(db.nextId, post)), db.(posts := db.posts[db.nextId := post], nextId := db.nextId + 1))
  }

  /** The document `findOneAndUpdate` writes: `title` and `content` where
      given, `updatedAt: now`. An absent field is left as it was. */
  function Updated(post: Post, title: Option<string>, content: Option<string>, now: Time): Post {
    post.(title := title.GetOr(post.title), content := content.GetOr(post.content), updatedAt := now)
  }

  /** `updatePost`: refused to anonymous callers; then the single conditional
      update on `{ _id: id, author: user.id }`. */
  function UpdatePostStep(db: Db, user: Option<Claims>, id: Id, title: Option<string>,
                          content: Option<string>, now: Time): (out: Step<Entry<Post>>)
    requires Consistent(db)
    ensures Consistent(out.db)
    ensures out.result.Ok? <==> user.Some? && Owns(db.posts, id, user.value.id)
    ensures !out.result.Ok? ==> out.db == db
    ensures user.None? ==> out.result == Err(NotAuthenticated)
    ensures user.Some? && !Owns(db.posts, id, user.value.id) ==>
      out.result == Err(Rewrap(UpdatePostFailed, PostNotFoundOrForbidden))
    ensures out.result.Ok? ==>
      var old_ := db.posts[id];
      var e := out.result.value;
      && e.id == id
      && out.db.posts == db.posts[id := e.doc]
      && out.db.users == db.users
      && e.doc.author == old_.author
      && e.doc.createdAt == old_.createdAt
      && e.doc.updatedAt == now
      && e.doc.title == title.GetOr(old_.title)
      && e.doc.content == content.GetOr(old_.content)
  {
    if user.None? then Step(Err(NotAuthenticated), db)
    else if !Owns(db.posts, id, user.value.id) then
      Step(Err(Rewrap(UpdatePostFailed, PostNotFoundOrForbidden)), db)
    else
      var post := Updated(db.posts[id], title, content, now);
      Step(Ok(Entry(id, post)), db.(posts := db.posts[id := post]))
  }

  /** `deletePost`: refused to anonymous callers; then the single conditional
      delete on `{ _id: id, author: user.id }`. */
  function DeletePostStep(db: Db, user: Option<Claims>, id: Id): (out: Step<string>)
    requires Consistent(db)
    ensures Consistent(out.db)
    ensures out.result.Ok? <==> user.Some? && Owns(db.posts, id, user.value.id)
    ensures !out.result.Ok? ==> out.db == db
    ensures user.None? ==> out.result == Err(NotAuthenticated)
    ensures user.Some? && !Owns(db.posts, id, user.value.id) ==>
      out.result == Err(Rewrap(DeletePostFailed, PostNotFoundOrForbidden))
    ensures out.result.Ok? ==>
      && out.result.value == PostDeleted
      && id !in out.db.posts
      && out.db.posts == db.posts - {id}
      && out.db.users == db.users
  {
    if user.None? then Step(Err(NotAuthenticated), db)
    else if !Owns(db.posts, id, user.value.id) then
      Step(Err(Rewrap(DeletePostFailed, PostNotFoundOrForbidden)), db)
    else
      Step(Ok(PostDeleted), db.(posts := db.posts - {id}))
  }

  // ---------------------------------------------------------------------
  // Accounts

  /** `register`: email is checked first, then username; only then is the
      password hashed, the user saved and a token signed over `{ id, email }`. */
  function RegisterStep(db: Db, env: Env, username: string, email: string, password: string,
                        salt: string, now: Time): (out: Step<AuthPayload>)
    requires Consistent(db)
    ensures Consistent(out.db)
    ensures out.result.Ok? <==> !EmailTaken(db.users, email) && !UsernameTaken(db.users, username)
    ensures !out.result.Ok? ==> out.db == db
    ensures EmailTaken(db.users, email) ==> out.result == Err(Rewrap(RegisterFailed, EmailRegistered))
    ensures !EmailTaken(db.users, email) && UsernameTaken(db.users, username) ==>
      out.result == Err(Rewrap(RegisterFailed, UsernameRegistered))
    ensures out.result.Ok? ==>
      var p := out.result.value;
      && p.user.id !in db.users
      && p.user.doc == User(username, email, env.bcrypt.hash(password, salt))
      && out.db.users == db.users[p.user.id := p.user.doc]
      && out.db.posts == db.posts
      && p.token == env.jwt.sign(Claims(p.user.id, email), env.config.secret, now)
  {
    if EmailTaken(db.users, email) then Step(Err(Rewrap(RegisterFailed, EmailRegistered)), db)
    else if UsernameTaken(db.users, username) then Step(Err(Rewrap(RegisterFailed, UsernameRegistered)), db)
    else
      var id := db.nextId;
      var user := User(username, email, env.bcrypt.hash(password, salt));
      var token := env.jwt.sign(Claims(id, user.email), env.config.secret, now);
      Step(Ok(AuthPayload(token, Entry(id, user))), db.(users := db.users[id := user], nextId := id + 1))
  }

  /** `User.findOne({ email })`: the user with that email, if any. */
  function FindUserByEmail(users: map<Id, User>, email: string): (r: Option<Id>)
    requires UniqueEmails(users)
    ensures r.None? <==> !EmailTaken(users, email)
    ensures r.Some? ==> r.value in users && users[r.value].email == email
  {
    if EmailTaken(users, email) then
      Some(var k :| k in users && users[k].email == email; k)
    else None
  }

  // ---------------------------------------------------------------------
  // The session cookie

  const AuthCookie: string := "authToken"

  datatype CookieOptions = CookieOptions(httpOnly: bool, secure: bool, sameSite: string)

  /** A `Set-Cookie` instruction on the response: `res.cookie` or `res.clearCookie`. */
  datatype CookieDirective = SetCookie(value: string, options: CookieOptions) | ClearCookie(options: CookieOptions)

  /** The response's cookie instructions, by cookie name. */
  type Jar = map<string, CookieDirective>

  /** The result of a handler that writes cookies, and the cookies after it. */
  datatype Reply<T> = Reply(result: Result<T>, cookies: Jar)

  /** The options both login and logout pass. */
  function AuthCookieOptions(config: Config): (o: CookieOptions)
    ensures o.httpOnly && o.sameSite == "Strict"
    ensures o.secure <==> config.nodeEnv == "production"
  {
    CookieOptions(true, config.nodeEnv == "production", "Strict")
  }

  /** `login`: an unknown email and a failed compare each have their own
      message, and neither signs a token or touches the cookies. */
  function LoginStep(db: Db, env: Env, email: string, password: string, now: Time, jar: Jar)
    : (out: Reply<AuthPayload>)
    requires Consistent(db)
    ensures !out.result.Ok? ==> out.cookies == jar
    ensures out.result.Ok? ==>
      out.cookies == jar[AuthCookie := SetCookie(out.result.value.token, AuthCookieOptions(env.config))]
    ensures !EmailTaken(db.users, email) ==> out == Reply(Err(Rewrap(LoginFailed, UserNotFound)), jar)
    ensures forall k :: k in db.users && db.users[k].email == email ==>
      if env.bcrypt.compare(password, db.users[k].password) then
        var token := env.jwt.sign(Claims(k, email), env.config.secret, now);
        && out.result == Ok(AuthPayload(token, Entry(k, db.users[k])))
        && out.cookies == jar[AuthCookie := SetCookie(token, AuthCookieOptions(env.config))]
      else
        out == Reply(Err(Rewrap(LoginFailed, WrongPassword)), jar)
  {
    match FindUserByEmail(db.users, email)
    case None => Reply(Err(Rewrap(LoginFailed, UserNotFound)), jar)
    case Some(id) =>
      var user := db.users[id];
      if !env.bcrypt.compare(password, user.password) then
        Reply(Err(Rewrap(LoginFailed, WrongPassword)), jar)
      else
        var token := env.jwt.sign(Claims(id, user.email), env.config.secret, now);
        Reply(Ok(AuthPayload(token, Entry(id, user))),
              jar[AuthCookie := SetCookie(token, AuthCookieOptions(env.config))])
  }

  /** `logout`: the cookie is cleared with the options login sets, whatever
      the response held, and nothing else changes. */
  function LogoutCookies(jar: Jar, config: Config): (r: Jar)
    ensures AuthCookie in r && r[AuthCookie] == ClearCookie(AuthCookieOptions(config))
    ensures r.Keys == jar.Keys + {AuthCookie}
    ensures forall name :: name in jar && name != AuthCookie ==> r[name] == jar[name]
  {
    jar[AuthCookie := ClearCookie(AuthCookieOptions(config))]
  }
}
