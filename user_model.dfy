/**
 * The `User` document of backend/models/user.model.js: its fields, the
 * defaults a new document receives, the validation Mongoose runs when a
 * document is saved (required paths, password minimum length, the two
 * unique indexes), and the invariants of the users table.
 */
module UserModel {
  import opened Wrappers
  import opened IdLists
  import opened ObjectIds

  type UserId = ObjectId
  type PostId = ObjectId

  /**
   * A stored user document. `password` is `None` only on a copy whose
   * password has been scrubbed (set to null) before it is sent out.
   * The schema has no cover-image path, and its timestamps are not modelled.
   */
  datatype User = User(
    id: UserId,
    username: string,
    fullName: string,
    password: Option<string>,
    email: string,
    followers: seq<UserId>,
    following: seq<UserId>,
    profileImg: string,
    bio: string,
    link: string,
    likedPosts: seq<PostId>)

  const PasswordMinLength := 6

  /** `new User({...})`: the four given paths, every other path at its schema default. */
  function NewUser(id: UserId, fullName: string, email: string, password: string, username: string): User {
    User(id, username, fullName, Some(password), email, [], [], "", "", "", [])
  }

  /** Mongoose's `required` validator on a String path rejects a missing or empty value. */
  predicate Present(s: string) {
    s != []
  }

  /** What `validate()` checks before a save: the four required paths and `minLength: 6`. */
  predicate SchemaValid(u: User) {
    Present(u.username) && Present(u.fullName) && Present(u.email) &&
    u.password.Some? && Present(u.password.value) && |u.password.value| >= PasswordMinLength
  }

  /** `User.findOne({username})` finds a document. */
  predicate UsernameTaken(users: map<UserId, User>, username: string) {
    exists id :: id in users && users[id].username == username
  }

  /** `User.findOne({email})` finds a document. */
  predicate EmailTaken(users: map<UserId, User>, email: string) {
    exists id :: id in users && users[id].email == email
  }

  /** Every document is stored under its own `_id`. */
  predicate KeyedById(users: map<UserId, User>) {
    forall id :: id in users ==> users[id].id == id
  }

  /** The unique indexes on `username` and on `email`. */
  predicate UniqueUsernames(users: map<UserId, User>) {
    forall a, b :: a in users && b in users && users[a].username == users[b].username ==> a == b
  }

  predicate UniqueEmails(users: map<UserId, User>) {
    forall a, b :: a in users && b in users && users[a].email == users[b].email ==> a == b
  }

  /** The users table as the schema keeps it: keyed by id, every document valid, both unique indexes respected. */
  predicate TableValid(users: map<UserId, User>) {
    KeyedById(users) &&
    (forall id :: id in users ==> SchemaValid(users[id])) &&
    UniqueUsernames(users) && UniqueEmails(users)
  }

  /** Why `save()` throws: a validator failed, or a unique index (`_id`, `username`, `email`) already holds the value. */
  datatype SaveError = ValidationFailed | DuplicateKey

  /** `doc.save()` on a new document. */
  function Save(users: map<UserId, User>, u: User): (r: Result<map<UserId, User>, SaveError>)
    ensures r.Success? <==> SchemaValid(u) && u.id !in users &&
                            !UsernameTaken(users, u.username) && !EmailTaken(users, u.email)
    ensures r.Success? ==> r.value.Keys == users.Keys + {u.id} && r.value[u.id] == u &&
                           forall id :: id in users ==> r.value[id] == users[id]
  {
    if !SchemaValid(u) then Failure(ValidationFailed)
    else if u.id in users || UsernameTaken(users, u.username) || EmailTaken(users, u.email) then Failure(DuplicateKey)
    else Success(users[u.id := u])
  }

  /** A successful save keeps the table valid: the new document does not clash with any unique index. */
  lemma SaveKeepsTableValid(users: map<UserId, User>, u: User)
    requires TableValid(users)
    requires Save(users, u).Success?
    ensures TableValid(Save(users, u).value)
  {
  }

  // ----- the follow graph -----

  /** Nobody follows or is followed by themselves. */
  predicate NoSelfEdges(users: map<UserId, User>) {
    forall id :: id in users ==> id !in users[id].followers && id !in users[id].following
  }

  /** Every id on a follow list names a stored user. */
  predicate EdgesClosed(users: map<UserId, User>) {
    (forall a, b :: a in users && b in users[a].followers ==> b in users) &&
    (forall a, b :: a in users && b in users[a].following ==> b in users)
  }

  /** The two lists are two views of one edge set: `b` is on `a.following` exactly when `a` is on `b.followers`. */
  predicate EdgesSymmetric(users: map<UserId, User>) {
    forall a, b :: a in users && b in users ==> (b in users[a].following <==> a in users[b].followers)
  }

  predicate NoDuplicateEdges(users: map<UserId, User>) {
    forall id :: id in users ==> NoDuplicates(users[id].followers) && NoDuplicates(users[id].following)
  }

  predicate GraphConsistent(users: map<UserId, User>) {
    KeyedById(users) && NoSelfEdges(users) && EdgesClosed(users) && EdgesSymmetric(users) && NoDuplicateEdges(users)
  }

  /** Every path except the two follow lists. */
  predicate SameProfile(u: User, v: User) {
    u.id == v.id && u.username == v.username && u.fullName == v.fullName && u.password == v.password &&
    u.email == v.email && u.profileImg == v.profileImg && u.bio == v.bio && u.link == v.link &&
    u.likedPosts == v.likedPosts
  }

  /**
   * `after` is `before` with at most the edge `from -> to` changed: the same
   * documents with the same profiles, every other membership as before, and
   * only `from.following` and `to.followers` rewritten.
   */
  ghost predicate OneEdgeChanged(before: map<UserId, User>, after: map<UserId, User>, from: UserId, to: UserId) {
    after.Keys == before.Keys && from in before && to in before && from != to &&
    (forall a :: a in before ==> SameProfile(after[a], before[a])) &&
    (forall a :: a in before && a != from && a != to ==> after[a] == before[a]) &&
    after[from].followers == before[from].followers && after[to].following == before[to].following &&
    (forall b :: b != to ==> (b in after[from].following <==> b in before[from].following)) &&
    (forall b :: b != from ==> (b in after[to].followers <==> b in before[to].followers))
  }

  /** Changing one edge on both views at once, without duplicating it, keeps the graph consistent. */
  lemma OneEdgeChangeKeepsGraph(before: map<UserId, User>, after: map<UserId, User>, from: UserId, to: UserId)
    requires GraphConsistent(before) && OneEdgeChanged(before, after, from, to)
    requires to in after[from].following <==> from in after[to].followers
    requires NoDuplicates(after[from].following) && NoDuplicates(after[to].followers)
    ensures GraphConsistent(after)
  {
    assert KeyedById(after) by {
      forall id | id in after ensures after[id].id == id {
        assert SameProfile(after[id], before[id]);
      }
    }
    OneEdgeChangeKeepsClosedAndLoopFree(before, after, from, to);
    OneEdgeChangeKeepsSymmetry(before, after, from, to);
  }

  lemma OneEdgeChangeKeepsClosedAndLoopFree(before: map<UserId, User>, after: map<UserId, User>, from: UserId, to: UserId)
    requires NoSelfEdges(before) && EdgesClosed(before) && OneEdgeChanged(before, after, from, to)
    ensures NoSelfEdges(after) && EdgesClosed(after)
  {
  }

  lemma OneEdgeChangeKeepsSymmetry(before: map<UserId, User>, after: map<UserId, User>, from: UserId, to: UserId)
    requires EdgesSymmetric(before) && OneEdgeChanged(before, after, from, to)
    requires to in after[from].following <==> from in after[to].followers
    ensures EdgesSymmetric(after)
  {
    forall a, b | a in after && b in after
      ensures b in after[a].following <==> a in after[b].followers
    {
      if a != from || b != to {
        assert b in after[a].following <==> b in before[a].following;
        assert a in after[b].followers <==> a in before[b].followers;
      }
    }
  }

  /** Changing only follow lists keeps the schema constraints of the table. */
  lemma SameProfilesKeepTable(before: map<UserId, User>, after: map<UserId, User>)
    requires TableValid(before) && after.Keys == before.Keys
    requires forall a :: a in before ==> SameProfile(after[a], before[a])
    ensures TableValid(after)
  {
  }
}
