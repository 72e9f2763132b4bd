/** The two collections of the document store and the invariant the store
    keeps between requests. */
module Records {
  import opened Oracles

  /** A user document; `password` holds the bcrypt hash, never the plaintext. */
  datatype User = User(username: string, email: string, password: string)

  /** A post document; `author` is the id of the owning user. */
  datatype Post = Post(title: string, content: string, author: Id, createdAt: Time, updatedAt: Time)

  /** A document together with its id, as the store hands it back. */
  datatype Entry<T> = Entry(id: Id, doc: T)

  /** The store's contents: both collections and the next id to hand out. */
  datatype Db = Db(users: map<Id, User>, posts: map<Id, Post>, nextId: Id)

  /** `User.findOne({ email })` finds a document. */
  predicate EmailTaken(users: map<Id, User>, email: string) {
    exists k :: k in users && users[k].email == email
  }

  /** `User.findOne({ username })` finds a document. */
  predicate UsernameTaken(users: map<Id, User>, username: string) {
    exists k :: k in users && users[k].username == username
  }

  ghost predicate UniqueEmails(users: map<Id, User>) {
    forall a, b :: a in users && b in users && users[a].email == users[b].email ==> a == b
  }

  ghost predicate UniqueUsernames(users: map<Id, User>) {
    forall a, b :: a in users && b in users && users[a].username == users[b].username ==> a == b
  }

  /** Every id in use was handed out before, and no two users share an email
      or a username. */
  ghost predicate Consistent(db: Db) {
    && (forall k :: k in db.users ==> k < db.nextId)
    && (forall k :: k in db.posts ==> k < db.nextId)
    && UniqueEmails(db.users)
    && UniqueUsernames(db.users)
  }

  /** The combined filter `{ _id: id, author: owner }`: a post with this id
      exists and belongs to `owner`. */
  predicate Owns(posts: map<Id, Post>, id: Id, owner: Id) {
    id in posts && posts[id].author == owner
  }
}
