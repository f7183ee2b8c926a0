/** Authentication: resolving a bearer token to a stored user, checking a
    password, and registering a new user. JSON Web Tokens and password
    hashing are supplied as values (`Codec`, `Hasher`): the model fixes only
    how their results are used, and the properties that depend on them carry
    what they assume about them as a precondition. The Redis set of
    registered emails is the object `RegisteredEmails`. */
module Auth {
  import opened Runtime
  import opened Models
  import opened Services

  /** The token that stands for the placeholder user, with no signature check. */
  const BACKDOOR_TOKEN: string := "abc"
  const INVALID_TOKEN: string := "Invalid token"
  const USER_NOT_FOUND: string := "User not found"
  const INCORRECT_PASSWORD: string := "Incorrect password"
  const EMAIL_TAKEN: string := "Email already taken"
  const SUBJECT: string := "sub"

  /** The claims a token carries, by name. */
  type Claims = map<string, string>

  /** The claims of the tokens the application issues: only the subject. */
  function SubjectClaims(email: string): (c: Claims)
    ensures SUBJECT in c && c[SUBJECT] == email && |c| == 1
  {
    map[SUBJECT := email]
  }

  /** Signing and checking tokens with the configured key and algorithm.
      `decode` yields None where the library raises its token error. */
  datatype Codec = Codec(encode: Claims -> string, decode: string -> Option<Claims>)

  /** A token the application signs decodes to the claims it was made from. */
  ghost predicate SubjectRoundTrip(codec: Codec) {
    forall email: string :: codec.decode(codec.encode(SubjectClaims(email))) == Some(SubjectClaims(email))
  }

  /** A signed token is never the three-letter backdoor token. */
  ghost predicate NeverBackdoor(codec: Codec) {
    forall c: Claims :: codec.encode(c) != BACKDOOR_TOKEN
  }

  /** Password hashing. The salt a real hash draws at random is a parameter. */
  datatype Hasher = Hasher(hash: (string, string) -> string, verify: (string, string) -> bool)

  /** A password is accepted against any hash made from it. */
  ghost predicate VerifiesOwnHash(hasher: Hasher) {
    forall password: string, salt: string :: hasher.verify(password, hasher.hash(password, salt))
  }

  /** The user stored under `email`, if any. */
  function ReadUser(users: map<string, User>, email: string): (r: Option<User>)
    ensures r.Some? <==> email in users
    ensures r.Some? ==> r.value == users[email]
  {
    if email in users then Some(users[email]) else None
  }

  /** Under the unique index on `auth_user.email`, the user found for an
      email has that email. */
  lemma ReadUserByEmail(t: Tables, email: string)
    requires t.Valid()
    ensures ReadUser(t.users, email).Some? ==> ReadUser(t.users, email).value.email == email
  {
  }

  /** `decode_token`: the user a token designates and a message, which is
      empty exactly when no error is reported. A decodable token without a
      subject raises KeyError. */
  function DecodeToken(codec: Codec, users: map<string, User>, token: string): (r: Outcome<(Option<User>, string)>)
    ensures r.Raised? <==>
      token != BACKDOOR_TOKEN && codec.decode(token).Some? && SUBJECT !in codec.decode(token).value
    ensures r.Raised? ==> r.error == KeyError(SUBJECT)
    ensures token == BACKDOOR_TOKEN ==>
      && r.Returned? && r.value.1 == ""
      && (r.value.0.Some? <==> PLACEHOLDER_USER_EMAIL in users)
      && (r.value.0.Some? ==> r.value.0.value == users[PLACEHOLDER_USER_EMAIL])
    ensures token != BACKDOOR_TOKEN && codec.decode(token).None? ==> r == Returned((None, INVALID_TOKEN))
    ensures token != BACKDOOR_TOKEN && r.Returned? && codec.decode(token).Some? ==>
      var subject := codec.decode(token).value[SUBJECT];
      && (r.value.0.Some? <==> subject in users)
      && (r.value.0.Some? ==> r.value.0.value == users[subject] && r.value.1 == "")
      && (r.value.0.None? ==> r.value.1 == USER_NOT_FOUND)
  {
    if token == BACKDOOR_TOKEN then
      Returned((ReadUser(users, PLACEHOLDER_USER_EMAIL), ""))
    else
      match codec.decode(token)
      case None => Returned((None, INVALID_TOKEN))
      case Some(data) =>
        if SUBJECT !in data then Raised(KeyError(SUBJECT))
        else
          match ReadUser(users, data[SUBJECT])
          case None => Returned((None, USER_NOT_FOUND))
          case Some(user) => Returned((Some(user), ""))
  }

  /** `get_current_user`: the user of the token, or HTTP 401 carrying the
      message `decode_token` gave. */
  function GetCurrentUser(codec: Codec, users: map<string, User>, token: string): (r: Outcome<User>)
    ensures var d := DecodeToken(codec, users, token);
      && (d.Raised? ==> r == Raised(d.error))
      && (d.Returned? && d.value.0.None? <==> r.Raised? && r.error.HttpException? && r.error.status == 401)
      && (d.Returned? && d.value.0.None? ==> r.error.detail == d.value.1)
      && (r.Returned? <==> d.Returned? && d.value.0.Some?)
      && (r.Returned? ==> r.value == d.value.0.value)
  {
    match DecodeToken(codec, users, token)
    case Raised(e) => Raised(e)
    case Returned((user, details)) =>
      if user.None? then Raised(HttpException(401, details)) else Returned(user.value)
  }

  /** Without a stored placeholder user, the backdoor token is refused with
      HTTP 401 and an empty detail. */
  lemma BackdoorWithoutPlaceholder(codec: Codec, users: map<string, User>)
    requires PLACEHOLDER_USER_EMAIL !in users
    ensures GetCurrentUser(codec, users, BACKDOOR_TOKEN) == Raised(HttpException(401, ""))
  {
  }

  /** `authenticate`: a token for the stored user when the password matches,
      otherwise no token and the reason. */
  function Authenticate(codec: Codec, hasher: Hasher, users: map<string, User>, email: string, password: string): (r: (Option<string>, string))
    ensures r.0.Some? <==> email in users && hasher.verify(password, users[email].password)
    ensures email !in users ==> r == (None, USER_NOT_FOUND)
    ensures email in users && !hasher.verify(password, users[email].password) ==> r == (None, INCORRECT_PASSWORD)
    ensures r.0.Some? ==> r.1 == "" && r.0.value == codec.encode(SubjectClaims(users[email].email))
  {
    match ReadUser(users, email)
    case None => (None, USER_NOT_FOUND)
    case Some(user) =>
      if !hasher.verify(password, user.password) then (None, INCORRECT_PASSWORD)
      else (Some(codec.encode(SubjectClaims(user.email))), "")
  }

  /** A token the application issued for `email` resolves to the user stored
      under `email`, or to "User not found" when there is none. */
  lemma IssuedTokenResolves(codec: Codec, users: map<string, User>, email: string)
    requires SubjectRoundTrip(codec) && NeverBackdoor(codec)
    ensures var r := DecodeToken(codec, users, codec.encode(SubjectClaims(email)));
      && r.Returned?
      && r.value.0 == ReadUser(users, email)
      && r.value.1 == (if email in users then "" else USER_NOT_FOUND)
  {
    assert codec.decode(codec.encode(SubjectClaims(email))) == Some(SubjectClaims(email));
    assert codec.encode(SubjectClaims(email)) != BACKDOOR_TOKEN;
  }

  /** A token from a successful `authenticate` gets the caller in as the same
      user, as long as that user stays stored. */
  lemma AuthenticateThenDecode(codec: Codec, hasher: Hasher, t: Tables, email: string, password: string)
    requires t.Valid() && SubjectRoundTrip(codec) && NeverBackdoor(codec)
    requires Authenticate(codec, hasher, t.users, email, password).0.Some?
    ensures var token := Authenticate(codec, hasher, t.users, email, password).0.value;
      GetCurrentUser(codec, t.users, token) == Returned(t.users[email])
  {
    assert t.users[email].email == email;
    IssuedTokenResolves(codec, t.users, email);
  }

  /** A user stored with the hash of a password authenticates with it. */
  lemma HashedPasswordAuthenticates(codec: Codec, hasher: Hasher, users: map<string, User>, email: string, password: string, salt: string)
    requires VerifiesOwnHash(hasher)
    requires email in users && users[email].password == hasher.hash(password, salt)
    ensures Authenticate(codec, hasher, users, email, password) == (Some(codec.encode(SubjectClaims(users[email].email))), "")
  {
    assert hasher.verify(password, hasher.hash(password, salt));
  }

  /** The Redis set of registered emails. */
  class RegisteredEmails {
    var members: set<string>

    constructor ()
      ensures members == {}
    {
      members := {};
    }

    /** `sismember` */
    method IsMember(email: string) returns (b: bool)
      ensures b <==> email in members
    {
      b := email in members;
    }

    /** `sadd` */
    method Add(email: string)
      modifies this
      ensures members == old(members) + {email}
    {
      members := members + {email};
    }
  }

  /** `register_user`: refuses an email found in the registered set or in the
      users table, otherwise stores the user with the hashed password, adds
      the email to the set and returns a token for it. The set is consulted
      first, so an email in it is refused whatever the table holds. A failure
      of the insert (`fault`) propagates and leaves the set alone. */
  method RegisterUser(db: Database, registered: RegisteredEmails, codec: Codec, hasher: Hasher,
                      email: string, password: string, salt: string, now: int, fault: bool)
    returns (r: Outcome<(Option<string>, string)>)
    requires db.Valid()
    modifies db, registered
    ensures db.Valid()
    ensures db.questions == old(db.questions) && db.choices == old(db.choices) && db.answers == old(db.answers)
    ensures db.nextQuestionId == old(db.nextQuestionId) && db.nextChoiceId == old(db.nextChoiceId)
    ensures email !in old(registered.members) && email !in old(db.users) ==> db.nextUserId == old(db.nextUserId) + 1
    ensures email in old(registered.members) || email in old(db.users) ==>
      r == Returned((None, EMAIL_TAKEN)) && unchanged(db) && unchanged(registered)
    ensures email !in old(registered.members) && email !in old(db.users) && fault ==>
      r == Raised(DatabaseError) && db.users == old(db.users) && unchanged(registered)
    ensures email !in old(registered.members) && email !in old(db.users) && !fault ==>
      && db.users == old(db.users)[email := User(old(db.nextUserId), hasher.hash(password, salt), email)]
      && registered.members == old(registered.members) + {email}
      && r == Returned((Some(codec.encode(SubjectClaims(email))), ""))
    ensures old(registered.members) <= old(db.users.Keys) ==> registered.members <= db.users.Keys
  {
    var cached := registered.IsMember(email);
    if cached {
      return Returned((None, EMAIL_TAKEN));
    }
    var user := ReadUser(db.users, email);
    if user.Some? {
      return Returned((None, EMAIL_TAKEN));
    }
    var hashed := hasher.hash(password, salt);
    var created := db.CreateInstance(NewUser(email, hashed), now, fault);
    if created.Raised? {
      return Raised(created.error);
    }
    registered.Add(email);
    var stored := ReadUser(db.users, email);
    return Returned((Some(codec.encode(SubjectClaims(stored.value.email))), ""));
  }
}
