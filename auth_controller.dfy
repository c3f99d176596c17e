/**
 * `signup` of backend/controllers/auth.controller.js: four checks in a fixed
 * order, the first failure deciding the 400 response, then the insertion of
 * one new user document and a 201 response without the password.
 *
 * Password hashing is the parameter `hash` (bcrypt with the salt drawn for
 * this call) and the id of the new document is the parameter `newId` (the
 * ObjectId Mongoose generates).
 */
module AuthController {
  import opened Wrappers
  import opened UserModel
  import opened Store
  import opened EmailFormat

  datatype SignupRequest = SignupRequest(fullName: string, username: string, email: string, password: string)

  datatype SignupError = InvalidEmailFormat | UsernameAlreadyTaken | EmailAlreadyUsed | PasswordTooShort | InternalServerError {
    function Status(): int {
      if this == InternalServerError then 500 else 400
    }

    function Message(): string {
      match this
      case InvalidEmailFormat => "Invalid email format."
      case UsernameAlreadyTaken => "Username is already taken."
      case EmailAlreadyUsed => "Email has already been used."
      case PasswordTooShort => "Password is too short - must be 6 characters long."
      case InternalServerError => "Internal server error."
    }
  }

  /**
   * The 201 body. It has no password and no email; `coverImg` is read from a
   * path the schema does not declare, so it is always undefined.
   */
  datatype SignupResponse = SignupResponse(
    id: UserId,
    fullName: string,
    username: string,
    following: seq<UserId>,
    followers: seq<UserId>,
    coverImg: Option<string>)

  /** The checks of lines 10-32, in source order; the first one that fails decides. */
  function CheckSignup(users: map<UserId, User>, req: SignupRequest): (r: Option<SignupError>)
    ensures r.None? <==>
      IsValidEmail(req.email) && !UsernameTaken(users, req.username) &&
      !EmailTaken(users, req.email) && |req.password| >= PasswordMinLength
    ensures r == Some(InvalidEmailFormat) <==> !IsValidEmail(req.email)
    ensures r == Some(UsernameAlreadyTaken) <==> IsValidEmail(req.email) && UsernameTaken(users, req.username)
    ensures r == Some(EmailAlreadyUsed) <==>
      IsValidEmail(req.email) && !UsernameTaken(users, req.username) && EmailTaken(users, req.email)
    ensures r == Some(PasswordTooShort) <==>
      IsValidEmail(req.email) && !UsernameTaken(users, req.username) && !EmailTaken(users, req.email) &&
      |req.password| < PasswordMinLength
    ensures r.Some? ==> r.value.Status() == 400
  {
    if !IsValidEmail(req.email) then Some(InvalidEmailFormat)
    else if UsernameTaken(users, req.username) then Some(UsernameAlreadyTaken)
    else if EmailTaken(users, req.email) then Some(EmailAlreadyUsed)
    else if |req.password| < PasswordMinLength then Some(PasswordTooShort)
    else None
  }

  /**
   * The outcome of `signup` and the users table after it. After the checks,
   * `save()` can still throw (answered with 500): when a required path is
   * empty, when the hash is shorter than six characters, or when the new id
   * is already in use; the checks rule out the username and email indexes.
   */
  function SignupOutcome(users: map<UserId, User>, req: SignupRequest, hash: string -> string, newId: UserId)
    : (r: (Result<SignupResponse, SignupError>, map<UserId, User>))
    ensures r.0.Failure? ==> r.1 == users
    ensures r.0.Success? <==>
      CheckSignup(users, req).None? && newId !in users &&
      Present(req.fullName) && Present(req.username) && |hash(req.password)| >= PasswordMinLength
    ensures r.0.Success? ==>
      r.1.Keys == users.Keys + {newId} && newId !in users &&
      (forall id :: id in users ==> r.1[id] == users[id]) &&
      r.1[newId].id == newId && r.1[newId].username == req.username && r.1[newId].email == req.email &&
      r.1[newId].fullName == req.fullName && r.1[newId].password == Some(hash(req.password)) &&
      r.1[newId].followers == [] && r.1[newId].following == [] && r.1[newId].likedPosts == [] &&
      r.1[newId].profileImg == "" && r.1[newId].bio == "" && r.1[newId].link == ""
    ensures r.0.Success? ==>
      r.0.value == SignupResponse(newId, req.fullName, req.username, [], [], None)
  {
    match CheckSignup(users, req)
    case Some(e) => (Failure(e), users)
    case None =>
      var newUser := NewUser(newId, req.fullName, req.email, hash(req.password), req.username);
      match Save(users, newUser)
      case Failure(_) => (Failure(InternalServerError), users)
      case Success(saved) =>
        (Success(SignupResponse(newUser.id, newUser.fullName, newUser.username, newUser.following, newUser.followers, None)),
         saved)
  }

  /** A password of exactly six characters passes the length check; a shorter one is refused. */
  lemma PasswordLengthBoundary(users: map<UserId, User>, req: SignupRequest)
    requires IsValidEmail(req.email) && !UsernameTaken(users, req.username) && !EmailTaken(users, req.email)
    ensures |req.password| == 6 ==> CheckSignup(users, req).None?
    ensures |req.password| < 6 ==> CheckSignup(users, req) == Some(PasswordTooShort)
  {
  }

  /** Adding a user with no edges under an unused id keeps the follow graph consistent. */
  lemma InsertIsolatedKeepsGraph(users: map<UserId, User>, u: User)
    requires GraphConsistent(users)
    requires u.id !in users && u.followers == [] && u.following == []
    ensures GraphConsistent(users[u.id := u])
  {
    var after := users[u.id := u];
    // no stored list mentions the fresh id
    assert forall a :: a in users ==> u.id !in users[a].followers && u.id !in users[a].following;
    forall a, b | a in after && b in after
      ensures b in after[a].following <==> a in after[b].followers
    {
      if a != u.id && b != u.id {
        assert after[a] == users[a] && after[b] == users[b];
      }
    }
  }

  /** Signup keeps both unique indexes and the follow graph of the table. */
  lemma SignupKeepsInvariants(users: map<UserId, User>, req: SignupRequest, hash: string -> string, newId: UserId)
    requires TableValid(users) && GraphConsistent(users)
    ensures TableValid(SignupOutcome(users, req, hash, newId).1)
    ensures GraphConsistent(SignupOutcome(users, req, hash, newId).1)
  {
    var r := SignupOutcome(users, req, hash, newId);
    if r.0.Success? {
      var newUser := NewUser(newId, req.fullName, req.email, hash(req.password), req.username);
      assert r.1 == Save(users, newUser).value == users[newId := newUser];
      SaveKeepsTableValid(users, newUser);
      InsertIsolatedKeepsGraph(users, newUser);
    }
  }

  /** The imperative handler: the checks, then one insertion into the users table. */
  method Signup(db: Db, req: SignupRequest, hash: string -> string, newId: UserId)
    returns (r: Result<SignupResponse, SignupError>)
    modifies db
    ensures (r, db.users) == SignupOutcome(old(db.users), req, hash, newId)
    ensures db.notifications == old(db.notifications)
    ensures old(db.Valid()) ==> db.Valid()
  {
    if db.Valid() {
      SignupKeepsInvariants(db.users, req, hash, newId);
    }
    if !IsValidEmail(req.email) {
      return Failure(InvalidEmailFormat);
    }
    if UsernameTaken(db.users, req.username) {
      return Failure(UsernameAlreadyTaken);
    }
    if EmailTaken(db.users, req.email) {
      return Failure(EmailAlreadyUsed);
    }
    if |req.password| < PasswordMinLength {
      return Failure(PasswordTooShort);
    }
    var hashedPassword := hash(req.password);
    var newUser := NewUser(newId, req.fullName, req.email, hashedPassword, req.username);
    var saved := Save(db.users, newUser);
    if saved.Failure? {
      return Failure(InternalServerError);
    }
    db.users := saved.value;
    r := Success(SignupResponse(newUser.id, newUser.fullName, newUser.username, newUser.following, newUser.followers, None));
  }
}
