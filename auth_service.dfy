/** The authentication service: registration, login and password reset over a
    user collection keyed by unique username, with bcrypt's hash and compare
    taken as parameters of the store. */
module AuthService {
  import opened Results
  import opened HttpStatus

  const AlreadyExists := "User already exists, Please login!"
  const NoSuchUser := "User doesn't exist, try registering first or username is incorrect"
  const UnauthorizedAccess := "Unauthorized access"
  const IncorrectPassword := "Incorrect password"
  const InvalidResetKey := "Can't reset password resetKey is invalid!"

  /** What the collection holds under one username: `String(_id)`, the full
      name and the stored password. */
  datatype Account = Account(id: string, fullName: string, password: string)

  /** A user document as the flows return it. */
  datatype UserDoc = UserDoc(id: string, fullName: string, username: string, password: string)

  /** One document persisted to the collection. */
  datatype Write = Write(username: string, account: Account)

  /** The error the service throws outward. */
  datatype ApiError = ApiError(message: string, statusCode: int)

  /** Whatever reaches a flow's `catch`: a message and a `statusCode` that may be
      missing (a database or hashing failure carries none). */
  datatype Thrown = Thrown(message: string, statusCode: Option<int>)

  /** The `x-api-key` header as Node hands it over. */
  datatype Header = Absent | Single(value: string) | Many(values: seq<string>)

  /** The document stored under `username`. */
  function Document(username: string, a: Account): UserDoc
  {
    UserDoc(a.id, a.fullName, username, a.password)
  }

  /** The shared catch block: `new ApiError("Error: " + err.message,
      err.statusCode || 500)`. */
  function Rewrap(err: Thrown): (e: ApiError)
    ensures |e.message| == 7 + |err.message|
    ensures e.message[..7] == "Error: " && e.message[7..] == err.message
    ensures e.statusCode != 0
    ensures err.statusCode.Some? && err.statusCode.value != 0 ==> e.statusCode == err.statusCode.value
    ensures err.statusCode.None? || err.statusCode == Some(0) ==> e.statusCode == InternalServerError
  {
    var status := if err.statusCode.Some? && err.statusCode.value != 0
      then err.statusCode.value else InternalServerError;
    ApiError("Error: " + err.message, status)
  }

  /** The outward error for an ApiError thrown inside a flow with a status. */
  function Fail(message: string, status: int): (e: ApiError)
    requires status != 0
    ensures e == ApiError("Error: " + message, status)
  {
    Rewrap(Thrown(message, Some(status)))
  }

  /** `resetKey !== process.env.PASSWORD_RESET_KEY` is false: strict equality,
      so an absent header passes exactly when the key is unset, and an array
      header never passes. */
  predicate KeyAccepted(resetKey: Header, envKey: Option<string>)
  {
    match resetKey
    case Absent => envKey.None?
    case Single(s) => envKey == Some(s)
    case Many(_) => false
  }

  lemma KeyAcceptedCases(resetKey: Header, envKey: Option<string>)
    ensures resetKey.Many? ==> !KeyAccepted(resetKey, envKey)
    ensures resetKey.Absent? ==> (KeyAccepted(resetKey, envKey) <==> envKey.None?)
    ensures KeyAccepted(resetKey, envKey) && envKey.Some? ==> resetKey == Single(envKey.value)
  {
  }

  class UserStore {
    /** The collection, keyed by its unique `username`. */
    var users: map<string, Account>
    /** Every document persisted so far, oldest first. */
    ghost var writes: seq<Write>
    /** `hashPassword`: bcrypt hash with a generated salt. */
    const hash: string -> string
    /** `comparePassword`: bcrypt compare of a plaintext against a stored value. */
    const matches: (string, string) -> bool

    /** The stored value is an output of the hasher, never raw input. */
    ghost predicate IsHash(stored: string)
    {
      exists p :: hash(p) == stored
    }

    /** Every stored password is a hash, and no two users share an id. */
    ghost predicate Valid()
      reads this
    {
      && (forall u :: u in users ==> IsHash(users[u].password))
      && (forall u, v :: u in users && v in users && u != v ==> users[u].id != users[v].id)
    }

    /** Under the invariant, a token whose subject is one user's id is
        refused for every other user. */
    lemma OtherUsersTokenRefused(u: string, v: string)
      requires Valid()
      requires u in users && v in users && u != v
      ensures users[v].id != users[u].id
    {
    }

    constructor (hash: string -> string, matches: (string, string) -> bool)
      ensures this.hash == hash && this.matches == matches
      ensures users == map[] && writes == []
      ensures Valid()
    {
      this.hash := hash;
      this.matches := matches;
      users := map[];
      writes := [];
    }

    /** `User.Model.findOne({ username })`. */
    method FindUserByUsername(username: string) returns (r: Option<UserDoc>)
      ensures r.Some? <==> username in users
      ensures r.Some? ==> r.value == Document(username, users[username])
    {
      if username in users {
        r := Some(Document(username, users[username]));
      } else {
        r := None;
      }
    }

    /** `doc.save()`: the document is stored under its username. */
    method SaveDocument(doc: UserDoc)
      modifies this
      ensures users == old(users)[doc.username := Account(doc.id, doc.fullName, doc.password)]
      ensures writes == old(writes) + [Write(doc.username, Account(doc.id, doc.fullName, doc.password))]
    {
      var a := Account(doc.id, doc.fullName, doc.password);
      users := users[doc.username := a];
      writes := writes + [Write(doc.username, a)];
    }

    /** `findOneAndUpdate({ username }, { password }, { new: true })`: sets the
        password field as given and returns the updated document, or None. */
    method FindOneAndUpdate(username: string, password: string) returns (r: Option<UserDoc>)
      modifies this
      ensures username !in old(users) ==> r.None? && users == old(users) && writes == old(writes)
      ensures username in old(users) ==>
        var a := old(users)[username].(password := password);
        && r == Some(Document(username, a))
        && users == old(users)[username := a]
        && writes == old(writes) + [Write(username, a)]
    {
      if username in users {
        var a := users[username].(password := password);
        users := users[username := a];
        writes := writes + [Write(username, a)];
        r := Some(Document(username, a));
      } else {
        r := None;
      }
    }

    /** `registerUser`. `newId` is the identifier the database assigns to the
        new document, distinct from every existing one. */
    method RegisterUser(fullName: string, username: string, password: string, newId: string)
      returns (r: Result<UserDoc, ApiError>)
      requires Valid()
      requires forall u :: u in users ==> users[u].id != newId
      modifies this
      ensures Valid()
      ensures username in old(users) ==>
        && r == Failure(ApiError("Error: " + AlreadyExists, BadRequest))
        && users == old(users) && writes == old(writes)
      ensures username !in old(users) ==>
        var a := Account(newId, fullName, hash(password));
        && r == Success(Document(username, a))
        && users == old(users)[username := a]
        && writes == old(writes) + [Write(username, a)]
    {
      var found := FindUserByUsername(username);
      if found.Some? {
        r := Failure(Fail(AlreadyExists, BadRequest));
        return;
      }
      var user := UserDoc(newId, fullName, username, password);
      user := user.(password := hash(user.password));
      SaveDocument(user);
      assert IsHash(users[username].password) by {
        assert hash(password) == users[username].password;
      }
      r := Success(user);
    }

    /** `loginUser`: lookup, then the token's subject against the id, then the
        password. It only reads the collection. */
    method LoginUser(username: string, password: string, tokenId: Option<string>)
      returns (r: Result<UserDoc, ApiError>)
      ensures username !in users ==> r == Failure(ApiError("Error: " + NoSuchUser, BadRequest))
      ensures username in users && tokenId != Some(users[username].id) ==>
        r == Failure(ApiError("Error: " + UnauthorizedAccess, Forbidden))
      ensures (username in users && tokenId == Some(users[username].id)
               && !matches(password, users[username].password)) ==>
        r == Failure(ApiError("Error: " + IncorrectPassword, BadRequest))
      ensures r.Success? <==>
        username in users && tokenId == Some(users[username].id) && matches(password, users[username].password)
      ensures r.Success? ==> r.value == Document(username, users[username])
    {
      var user := FindUserByUsername(username);
      if user.None? {
        r := Failure(Fail(NoSuchUser, BadRequest));
        return;
      }
      if Some(user.value.id) != tokenId {
        r := Failure(Fail(UnauthorizedAccess, Forbidden));
        return;
      }
      if !matches(password, user.value.password) {
        r := Failure(Fail(IncorrectPassword, BadRequest));
        return;
      }
      r := Success(user.value);
    }

    /** `resetUserPass`: the key check comes before any access to the
        collection; the new password is written in plaintext, then hashed and
        saved again. */
    method ResetUserPass(username: string, newPassword: string, resetKey: Header, envKey: Option<string>)
      returns (r: Result<UserDoc, ApiError>)
      requires Valid()
      modifies this
      ensures Valid()
      ensures !KeyAccepted(resetKey, envKey) ==>
        && r == Failure(ApiError("Error: " + InvalidResetKey, BadRequest))
        && users == old(users) && writes == old(writes)
      ensures KeyAccepted(resetKey, envKey) && username !in old(users) ==>
        && r == Failure(ApiError("Error: " + NoSuchUser, BadRequest))
        && users == old(users) && writes == old(writes)
      ensures KeyAccepted(resetKey, envKey) && username in old(users) ==>
        var plain := old(users)[username].(password := newPassword);
        var hashed := old(users)[username].(password := hash(newPassword));
        && r == Success(Document(username, hashed))
        && users == old(users)[username := hashed]
        && writes == old(writes) + [Write(username, plain), Write(username, hashed)]
    {
      if !KeyAccepted(resetKey, envKey) {
        r := Failure(Fail(InvalidResetKey, BadRequest));
        return;
      }
      var user := FindOneAndUpdate(username, newPassword);
      if user.None? {
        r := Failure(Fail(NoSuchUser, BadRequest));
        return;
      }
      var doc := user.value.(password := hash(user.value.password));
      SaveDocument(doc);
      assert IsHash(users[username].password) by {
        assert hash(newPassword) == users[username].password;
      }
      r := Success(doc);
    }
  }
}
