# Posts and accounts behind a GraphQL API, modelled in Dafny

The system is a small GraphQL server. Users register and log in. Logged-in
users write, edit and delete posts they own. Each request gets a context
built from its `Authorization` header. The context holds the claims of a
verified JSON Web Token, or `null`. The resolvers take the caller's identity
from that context and talk to a MongoDB store.

This project models two things:

- the resolvers (`Query.me/getPosts/getMyPosts/getPostById`,
  `Mutation.addPost/updatePost/deletePost/register/login/logout`,
  `User.posts`, `Post.author`);
- the request identity of the server entry point (`getUser` and the
  `context` callback).

The model runs over an abstract store with two collections. It proves the
authentication guard, the ownership rule, the uniqueness checks of
registration, the failure modes of login and the cookie handling, along
with what each handler leaves unchanged.

Layout, one module per file:

- `oracles.dfy` (`Oracles`): the outside libraries as records of functions.
  `Jwt` holds sign and verify; `Bcrypt` holds hash and compare. What the code
  relies on is stated as `JwtSound` and `BcryptSound`. `Config` holds
  `SECRET` and `NODE_ENV`.
- `records.dfy` (`Records`): user and post documents, and the store's
  contents `Db`. The invariant `Consistent` says ids are fresh and emails and
  usernames are unique. `Owns` is the combined filter
  `{ _id: id, author: user.id }`.
- `context.dfy` (`Context`): index.js, covering `token.replace('Bearer ', '')`,
  `getUser` and the context object.
- `resolvers.dfy` (`Resolvers`): the read-only resolvers as functions of the
  store. Each resolver that writes is a step function from the old store
  (or the old response cookies) to its result and the new store.
- `server.dfy` (`Server`): the resolvers that write, as methods. `Store`
  holds the collections and `Response` holds the cookie instructions. Each
  method is proved equal to its step function.
- `scenarios.dfy` (`Scenarios`): properties that span several requests.

Outside services are abstract. Tokens come from an oracle: `sign(claims,
secret, time)` and `verify(token, secret, time)`. `verify` returns
`Decoded(claims)` or `Rejected(reason)`; `Rejected` stands for a thrown error.
Password hashing is `hash(password, salt)` with the random salt as a
parameter, plus `compare`. The clock is a `now` parameter. Document ids come
from a counter in the store.

Four points where the model keeps the code's behaviour as written:

- The context reads the `Authorization` header, not a cookie. It holds the
  token's claims, not a user looked up in the store, so a token of a deleted
  user still authenticates `addPost` and the others.
- Only `me` reads the `authToken` cookie. It takes that cookie as an input.
- Login reports an unknown email and a wrong password with different messages.
- The context object holds only `user`. It has no response handle.

## Model

| member | source | states |
|---|---|---|
| `Context.GetUser` | index.js:19-28 | an empty token gives `null`, whatever verify would say; otherwise the result is the decoded claims exactly when verify succeeds, and any verify failure gives `null` |
| `Context.BuildContext` | index.js:33-37 | a missing Authorization header gives an anonymous context; the context holds the user and nothing else |
| `Context.MissingHeaderReadsAsEmpty` | index.js:34 | a missing Authorization header and an empty one give the same context |
| `Context.ReplaceFirstRemovesLeftmost` | index.js:35 | `replace` with a string pattern removes only the leftmost occurrence and keeps everything before and after it |
| `Context.ReplaceFirstWithoutMatch` | index.js:35 | a string without the pattern passes through `replace` unchanged |
| `Context.BearerTokenIsVerified` | index.js:33-36 | for `Bearer <token>`, exactly `<token>` is handed to `getUser`, whatever the token holds |
| `Context.BareBearerIsAnonymous` | index.js:19-37 | a header of exactly `Bearer ` yields `null` with any token library |
| `Context.HeaderWithoutBearerPassesThrough` | index.js:34-35 | a header that does not contain `Bearer ` is verified as it is |
| `Context.BearerRemovedWherever` | index.js:35 | a `Bearer ` in the middle of the header is cut out of the middle, and only the first one goes |
| `Context.SignedTokenResolves` | index.js:19-37 | with `SECRET` set, for a day, a token the server signed resolves to the claims it was signed over, so `user.id` is the token's `id` claim |
| `Context.ExpiredTokenIsAnonymous` | index.js:25-27 | with `SECRET` set, after a day the same token gives an anonymous context instead of an error |
| `Resolvers.RewrapIsInjective` | resolvers/index.js:89-92 | re-wrapping with an operation prefix keeps different inner messages different |
| `Resolvers.GetPosts` | resolvers/index.js:33-40 | every post is returned once, with its stored contents, in ascending id order |
| `Resolvers.PostsOf` | resolvers/index.js:168-175 | exactly the posts of the given author, in ascending id order |
| `Resolvers.GetMyPosts` | resolvers/index.js:41-48 | "No autenticado" exactly when the caller is anonymous; a logged-in caller always succeeds, with exactly the posts owned by the token's `id`, each with its stored contents, in ascending id order |
| `Resolvers.GetPostById` | resolvers/index.js:50-57 | the post with that id, or `null` exactly when there is none |
| `Resolvers.PostAuthor` | resolvers/index.js:179-186 | the author's user record, or `null` exactly when the author id names no user |
| `Resolvers.Me` | resolvers/index.js:8-31 | a missing or empty cookie gets its own message; success exactly when the token verifies and its `id` names a user, who is returned; a rejected token and a vanished user both read "Token inválido." |
| `Resolvers.AddPostStep` | resolvers/index.js:61-77 | anonymous: "No autenticado" and nothing changes; otherwise exactly one post is added under a fresh id, owned by `user.id` and stamped `now` for both dates; no other post or user changes; the store stays consistent |
| `Resolvers.UpdatePostStep` | resolvers/index.js:79-93 | succeeds exactly when the caller owns the post; then only given fields change, `updatedAt` becomes `now`, author and creation date stay, and the new record is returned; a missing and a foreign post fail alike with the prefixed message and change nothing |
| `Resolvers.DeletePostStep` | resolvers/index.js:95-105 | succeeds exactly when the caller owns the post; then exactly that post is removed and the confirmation returned; otherwise the prefixed message and no change |
| `Resolvers.RegisterStep` | resolvers/index.js:107-129 | an email collision is reported first, then a username collision; any collision adds no user; success adds exactly one user under a fresh id, stores the hash and not the password, returns a token signed over `{id, email}`, and keeps emails and usernames unique |
| `Resolvers.FindUserByEmail` | resolvers/index.js:133 | finds the user with that email, and finds none exactly when no user has it |
| `Resolvers.AuthCookieOptions` | resolvers/index.js:144-148 | the cookie is `httpOnly` and `sameSite: 'Strict'`, and `secure` exactly when NODE_ENV is 'production' |
| `Resolvers.LoginStep` | resolvers/index.js:131-155 | an unknown email gives 'Usuario no encontrado' and a failed compare gives 'Contraseña incorrecta', neither issuing a token or touching the cookies; success signs `{id, email}` of the matched user, returns that user and sets `authToken` to the token |
| `Resolvers.LogoutCookies` | resolvers/index.js:157-164 | `authToken` is cleared with the login options whatever the response held, and no other cookie changes |
| `Server.Store.AddPost` | resolvers/index.js:61-77 | `post.save()` on the store: result and new store are those of `AddPostStep` |
| `Server.Store.UpdatePost` | resolvers/index.js:79-93 | `findOneAndUpdate` on the store: result and new store are those of `UpdatePostStep` |
| `Server.Store.DeletePost` | resolvers/index.js:95-105 | `findOneAndDelete` on the store: result and new store are those of `DeletePostStep` |
| `Server.Store.Register` | resolvers/index.js:107-129 | `user.save()` on the store: result and new store are those of `RegisterStep` |
| `Server.Store.Login` | resolvers/index.js:131-155 | `res.cookie` on the response: result and new cookies are those of `LoginStep`, and the store is not written |
| `Server.Logout` | resolvers/index.js:157-164 | `res.clearCookie` on the response: returns the message, and the new cookies are those of `LogoutCookies` |
| `Scenarios.AnonymousCallersChangeNothing` | resolvers/index.js:41-96 | getMyPosts, addPost, updatePost and deletePost refuse an anonymous caller with "No autenticado" and leave the store unchanged |
| `Scenarios.MissingAndForeignPostsLookAlike` | resolvers/index.js:82-103 | update and delete answer a missing post and another user's post identically, and change neither store |
| `Scenarios.OnlyTheAuthorChangesAPost` | resolvers/index.js:61-105 | after one user adds a post, another user can neither update nor delete it, and the author can do both |
| `Scenarios.SecondDeleteFails` | resolvers/index.js:95-103 | a second delete, or an update, of a deleted post fails with the not-found message |
| `Scenarios.NewPostIsListedForItsAuthor` | resolvers/index.js:61-72 | a new post appears among its author's posts, and every other author's list is unchanged |
| `Scenarios.DoubleCollisionReportsEmail` | resolvers/index.js:109-117 | when email and username both collide, the email message is reported and the store is unchanged |
| `Scenarios.RegisterThenLogin` | resolvers/index.js:107-150 | just after registering, login with the same email and password succeeds for the new user |
| `Scenarios.RegisteredTokenIdentifiesUser` | resolvers/index.js:123-124 | with `SECRET` set, the token register returns, sent as `Bearer <token>` within a day, makes the new user the caller and the author of the next post |
| `Scenarios.LoginThenMe` | resolvers/index.js:11-26 | with `SECRET` set, within a day of a login, `me` with the cookie login set returns the user who logged in |
| `Scenarios.LogoutThenMe` | resolvers/index.js:11-12 | after logout the browser sends no `authToken`, so `me` fails as unauthenticated |
| `Scenarios.LogoutIsIdempotent` | resolvers/index.js:157-164 | logging out twice equals logging out once, and an earlier `authToken` instruction makes no difference |
| `Scenarios.LoginAndLogoutAgreeOnCookie` | resolvers/index.js:144-162 | the cookie login sets and the one logout clears have the same name and identical attributes |
| `Scenarios.LoginFailuresAreDistinguishable` | resolvers/index.js:131-153 | the same login request gets different errors from a store without the email and from a store whose user with that email fails the password compare, so login reveals whether an email is registered |

## Left out

- Connecting to MongoDB and starting the server: network I/O.
- Storage faults. The model's store always answers. So the catch blocks of getPosts, getPostById, `User.posts`, `Post.author` and addPost cannot fire here. Only the errors the handlers throw themselves are re-wrapped.
- Malformed ids. An id that is not a valid ObjectId makes Mongoose throw a cast error, which the handlers re-wrap. Ids in the model are always well formed.
- `.populate('author', 'username email')`: results carry the author's id, not the projected user. `Resolvers.PostAuthor` gives the full record, with no field projection.
- Resolvers.GetPosts: the order of `Post.find()` is taken to be ascending id order, as if it were insertion order. MongoDB does not promise any order.
- JWT signing and verifying internals: signature algorithm, `iat`/`exp` encoding, and the decoded payload's extra `iat`/`exp` fields. They sit behind the `Jwt` oracle. `JwtSound` states only the one-day validity the code asks for.
- bcrypt's algorithm and its cost factor 10: behind the `Bcrypt` oracle. The random salt is a parameter.
- An unset `SECRET`, which makes `jwt.sign` throw after `register` has saved the user. `JwtSound` promises nothing for the empty secret, and the lemmas about tokens require `SECRET` to be set.
- Resolvers.AddPostStep: the two `new Date()` calls are modelled as one instant. In the source they may differ by a millisecond.
- Resolvers.UpdatePostStep: an absent `title` or `content` is taken to leave the field unchanged. That depends on how the Mongoose version treats `undefined` in an update document. An explicit `null` is not modelled.
- The real server's context supplies neither `req` nor `res`. `me` and `logout` therefore crash with a TypeError as soon as they read them. In `login` the TypeError comes from `res.cookie` (resolvers/index.js:144), inside the try and after both credential checks; it is caught and re-thrown as "Error al iniciar sesión: …" (resolvers/index.js:151-153). So login's credential failures behave as modelled and only its success path fails. The model takes the `authToken` cookie and the response as explicit inputs.
- Concurrency. Each resolver is one sequential transition. The window between register's uniqueness checks and its save, in which two requests could both pass, is not modelled.
- `console.log` / `console.error`: logging.
- schema/typeDefs.js: declarations only. It lacks getMyPosts, getPostById and logout, and declares a `refreshToken` field with no resolver. That is wiring, not logic.
- Whether a browser honours `secure` over plain HTTP: `Scenarios.BrowserCookie` replays cookie instructions without transport rules.
