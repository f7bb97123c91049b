/** The authentication service: the public view of a user, registration, login and the profile
    lookup. The salted hash of the password and the hash comparison are parameters of the model,
    and a token is its signed payload; the e-mail is normalised (trimmed, lower-cased) before
    every lookup and before it is stored. */
module AuthService {
  import opened Common
  import opened Strings
  import opened Models
  import opened Query
  import opened Store

  const MsgEmailTaken: string := "El correo ya está registrado"
  const MsgBadCredentials: string := "Credenciales inválidas"
  const MsgUserNotFound: string := "Usuario no encontrado"

  /** A user as the service returns it: every field but the password hash. */
  datatype PublicUser = PublicUser(id: Id, firstName: string, lastName: string, email: string, role: string)

  /** `sanitizeUser`: the user without `passwordHash`. */
  function SanitizeUser(u: User): (r: PublicUser)
    ensures r.id == u.id && r.email == u.email && r.role == u.role
    ensures r.firstName == u.firstName && r.lastName == u.lastName
  {
    PublicUser(u.id, u.firstName, u.lastName, u.email, u.role)
  }

  /** The public view forgets the password hash and nothing else: two users look the same exactly
      when they differ at most in their hashes. */
  lemma SanitizeForgetsOnlyHash(u: User, v: User)
    ensures SanitizeUser(u) == SanitizeUser(v) <==> u.(passwordHash := "") == v.(passwordHash := "")
  {
    if u.(passwordHash := "") == v.(passwordHash := "") {
      assert u.id == v.id && u.email == v.email && u.role == v.role;
      assert u.firstName == v.firstName && u.lastName == v.lastName;
    }
  }

  /** A token as `signToken` produces it, seen through its payload: the user's identifier and
      role. The signature itself is not modelled. */
  datatype Token = Signed(userId: Id, role: string)

  /** What an authentication endpoint sends: the user with a signed token, the user alone, an
      error message, or an error raised by the runtime (whose message is not modelled). */
  datatype AuthReply =
    | Session(user: PublicUser, token: Token)
    | Profile(user: PublicUser)
    | ErrorMessage(message: string)
    | Crash

  datatype AuthOutcome = AuthOutcome(response: Response<AuthReply>, users: seq<User>, nextId: Id)

  /** `User.findOne({ email })`. */
  function FindUserByEmail(users: seq<User>, email: string): (r: Option<nat>)
    ensures r.Some? ==> r.value < |users| && users[r.value].email == email
    ensures r.None? <==> forall k :: 0 <= k < |users| ==> users[k].email != email
  {
    IndexOf(users, (u: User) => u.email == email)
  }

  /** `User.findById(id)`; a missing id finds nothing. */
  function FindUserById(users: seq<User>, id: Option<Id>): (r: Option<nat>)
    ensures r.Some? ==> id.Some? && r.value < |users| && users[r.value].id == id.value
    ensures r.None? <==> id.None? || forall k :: 0 <= k < |users| ==> users[k].id != id.value
  {
    match id
    case None => None
    case Some(i) => IndexOf(users, (u: User) => u.id == i)
  }

  /** The body of a registration, as the service destructures it. */
  datatype RegisterInput = RegisterInput(
    firstName: Option<string>, lastName: Option<string>, email: Option<string>, password: Option<string>)

  datatype LoginInput = LoginInput(email: Option<string>, password: Option<string>)

  // ---------------------------------------------------------------------------
  // registerUser

  /** The user a successful registration stores. */
  function Registered(nextId: Id, input: RegisterInput, passwordHash: string, defaultRole: string): User
    requires input.email.Some? && input.password.Some? && input.firstName.Some? && input.lastName.Some?
  {
    User(nextId, Trim(input.firstName.value), Trim(input.lastName.value), NormalizeEmail(input.email.value),
         passwordHash, defaultRole)
  }

  /** `registerUser` and the 201 of its controller: a missing e-mail fails in the runtime; an
      e-mail that normalises to a registered one is 409; a missing password or name fails in
      the runtime; otherwise the user is stored with trimmed names, the normalised e-mail, the given
      hash of the password and the schema's default role, and is returned with a signed token. */
  function Register(users: seq<User>, nextId: Id, input: RegisterInput,
                    passwordHash: string, defaultRole: string): AuthOutcome
  {
    if input.email.None? then AuthOutcome(Response(500, Crash), users, nextId)
    else
      var email := NormalizeEmail(input.email.value);
      if FindUserByEmail(users, email).Some? then AuthOutcome(Response(409, ErrorMessage(MsgEmailTaken)), users, nextId)
      else if input.password.None? || input.firstName.None? || input.lastName.None? then
        AuthOutcome(Response(500, Crash), users, nextId)
      else
        var u := Registered(nextId, input, passwordHash, defaultRole);
        AuthOutcome(Response(201, Session(SanitizeUser(u), Signed(u.id, u.role))), users + [u], nextId + 1)
  }

  /** The answers of a registration: 409 exactly when the normalised e-mail is registered (and
      nothing is written), and on success the new user, its public view and token. */
  lemma RegisterResponses(users: seq<User>, nextId: Id, input: RegisterInput,
                          passwordHash: string, defaultRole: string)
    ensures var out := Register(users, nextId, input, passwordHash, defaultRole);
      && out.response.status in {201, 409, 500}
      && (out.response.status == 409 <==>
            input.email.Some? && exists k :: 0 <= k < |users| && users[k].email == NormalizeEmail(input.email.value))
      && (out.response.status == 409 ==> out.response.body == ErrorMessage(MsgEmailTaken))
      && (out.response.status != 201 ==> out.users == users && out.nextId == nextId)
      && (out.response.status == 201 <==>
            && input.email.Some? && input.password.Some? && input.firstName.Some? && input.lastName.Some?
            && forall k :: 0 <= k < |users| ==> users[k].email != NormalizeEmail(input.email.value))
      && (out.response.status == 201 ==>
            var u := Registered(nextId, input, passwordHash, defaultRole);
            && out.users == users + [u]
            && out.nextId == nextId + 1
            && out.response.body == Session(SanitizeUser(u), Signed(nextId, defaultRole)))
  {
    if input.email.Some? {
      var email := NormalizeEmail(input.email.value);
      if FindUserByEmail(users, email).Some? {
        var k := FindUserByEmail(users, email).value;
        assert users[k].email == email;
      } else if input.password.Some? && input.firstName.Some? && input.lastName.Some? {
        RegisterSuccess(users, nextId, input, passwordHash, defaultRole);
      }
    }
  }

  /** A registration with every field and a free e-mail answers 201 and appends the registered
      user. */
  lemma RegisterSuccess(users: seq<User>, nextId: Id, input: RegisterInput,
                        passwordHash: string, defaultRole: string)
    requires input.email.Some? && input.password.Some? && input.firstName.Some? && input.lastName.Some?
    requires FindUserByEmail(users, NormalizeEmail(input.email.value)).None?
    ensures Register(users, nextId, input, passwordHash, defaultRole).response
      == Response(201, Session(SanitizeUser(Registered(nextId, input, passwordHash, defaultRole)), Signed(nextId, defaultRole)))
    ensures Register(users, nextId, input, passwordHash, defaultRole).users
      == users + [Registered(nextId, input, passwordHash, defaultRole)]
    ensures Register(users, nextId, input, passwordHash, defaultRole).nextId == nextId + 1
  {
  }

  /** A registration answers 201 only when every field was given and the e-mail was free. */
  lemma RegisterCreated(users: seq<User>, nextId: Id, input: RegisterInput,
                        passwordHash: string, defaultRole: string)
    requires Register(users, nextId, input, passwordHash, defaultRole).response.status == 201
    ensures input.email.Some? && input.password.Some? && input.firstName.Some? && input.lastName.Some?
    ensures FindUserByEmail(users, NormalizeEmail(input.email.value)).None?
    ensures forall k :: 0 <= k < |users| ==> users[k].email != NormalizeEmail(input.email.value)
    ensures Register(users, nextId, input, passwordHash, defaultRole).response
      == Response(201, Session(SanitizeUser(Registered(nextId, input, passwordHash, defaultRole)), Signed(nextId, defaultRole)))
    ensures Register(users, nextId, input, passwordHash, defaultRole).users
      == users + [Registered(nextId, input, passwordHash, defaultRole)]
    ensures Register(users, nextId, input, passwordHash, defaultRole).nextId == nextId + 1
  {
    RegisterSuccess(users, nextId, input, passwordHash, defaultRole);
  }

  /** The stored user: the fresh identifier, trimmed names, the normalised e-mail, the hash of the
      password. */
  lemma RegisteredFields(nextId: Id, input: RegisterInput, passwordHash: string, defaultRole: string)
    requires input.email.Some? && input.password.Some? && input.firstName.Some? && input.lastName.Some?
    ensures var u := Registered(nextId, input, passwordHash, defaultRole);
      && u.id == nextId
      && u.email == NormalizeEmail(input.email.value) && NormalizeEmail(u.email) == u.email
      && u.firstName == Trim(input.firstName.value) && Trim(u.firstName) == u.firstName
      && u.lastName == Trim(input.lastName.value) && Trim(u.lastName) == u.lastName
      && u.passwordHash == passwordHash
  {
    NormalizeEmailIdempotent(input.email.value);
    TrimIdempotent(input.firstName.value);
    TrimIdempotent(input.lastName.value);
  }

  /** A registration keeps identifiers and e-mails unique among users. */
  lemma RegisterKeepsUsersValid(users: seq<User>, nextId: Id, input: RegisterInput,
                                passwordHash: string, defaultRole: string)
    requires UsersValid(users, nextId)
    ensures var out := Register(users, nextId, input, passwordHash, defaultRole);
      UsersValid(out.users, out.nextId) && nextId <= out.nextId
  {
    var out := Register(users, nextId, input, passwordHash, defaultRole);
    if out.response.status == 201 {
      RegisterCreated(users, nextId, input, passwordHash, defaultRole);
      UsersAppend(users, Registered(nextId, input, passwordHash, defaultRole), nextId);
    }
  }

  // ---------------------------------------------------------------------------
  // loginUser

  /** `loginUser` and the 200 of its controller: the same 401 for an unknown e-mail and for a
      wrong password; a missing e-mail or password fails in the runtime. */
  function Login(users: seq<User>, input: LoginInput, compare: (string, string) -> bool): (res: Response<AuthReply>)
  {
    if input.email.None? then Response(500, Crash)
    else
      match FindUserByEmail(users, NormalizeEmail(input.email.value))
      case None => Response(401, ErrorMessage(MsgBadCredentials))
      case Some(i) =>
        if input.password.None? then Response(500, Crash)
        else if !compare(input.password.value, users[i].passwordHash) then Response(401, ErrorMessage(MsgBadCredentials))
        else Response(200, Session(SanitizeUser(users[i]), Signed(users[i].id, users[i].role)))
  }

  /** The answers of a login: it succeeds exactly for a registered normalised e-mail whose stored
      hash matches the password, with that user and its token; an unknown e-mail and a wrong
      password give one and the same 401; a missing e-mail, or a missing password for a registered
      one, fails in the runtime. */
  lemma LoginResponses(users: seq<User>, input: LoginInput, compare: (string, string) -> bool)
    ensures var res := Login(users, input, compare);
      && res.status in {200, 401, 500}
      && ((input.email.Some? && forall k :: 0 <= k < |users| ==> users[k].email != NormalizeEmail(input.email.value))
            ==> res == Response(401, ErrorMessage(MsgBadCredentials)))
      && ((input.email.Some? && input.password.Some? && FindUserByEmail(users, NormalizeEmail(input.email.value)).Some?)
            ==> var u := users[FindUserByEmail(users, NormalizeEmail(input.email.value)).value];
                && (!compare(input.password.value, u.passwordHash) ==> res == Response(401, ErrorMessage(MsgBadCredentials)))
                && (compare(input.password.value, u.passwordHash) ==> res == Response(200, Session(SanitizeUser(u), Signed(u.id, u.role)))))
      && (input.email.None? ==> res == Response(500, Crash))
      && ((input.email.Some? && input.password.None? && FindUserByEmail(users, NormalizeEmail(input.email.value)).Some?)
            ==> res == Response(500, Crash))
  {
  }

  /** With unique e-mails, the user a login finds is the only one with that e-mail. */
  lemma LoginFindsTheOwner(users: seq<User>, nextId: Id, email: string, k: nat)
    requires UsersValid(users, nextId) && k < |users| && users[k].email == email
    ensures FindUserByEmail(users, email) == Some(k)
  {
    assert FindUserByEmail(users, email).Some?;
    var i := FindUserByEmail(users, email).value;
    if i != k {
      assert false;
    }
  }

  /** Over a valid registry, a login succeeds exactly when some user has the normalised e-mail and
      a hash that matches the password. */
  lemma LoginSucceedsExactly(users: seq<User>, nextId: Id, input: LoginInput, compare: (string, string) -> bool)
    requires UsersValid(users, nextId)
    ensures Login(users, input, compare).status == 200 <==>
      && input.email.Some? && input.password.Some?
      && exists k :: 0 <= k < |users| && users[k].email == NormalizeEmail(input.email.value)
           && compare(input.password.value, users[k].passwordHash)
  {
    if input.email.Some? && input.password.Some? {
      var email := NormalizeEmail(input.email.value);
      if k :| 0 <= k < |users| && users[k].email == email && compare(input.password.value, users[k].passwordHash) {
        LoginFindsTheOwner(users, nextId, email, k);
      }
      if Login(users, input, compare).status == 200 {
        var k := FindUserByEmail(users, email).value;
        assert users[k].email == email && compare(input.password.value, users[k].passwordHash);
      }
    }
  }

  /** Registering and then logging in with the same password and an e-mail that normalises alike
      succeeds with the new user, when the comparison accepts the stored hash for that password. */
  lemma RegisterThenLogin(users: seq<User>, nextId: Id, input: RegisterInput, email: string,
                          passwordHash: string, compare: (string, string) -> bool, defaultRole: string)
    requires Register(users, nextId, input, passwordHash, defaultRole).response.status == 201
    requires NormalizeEmail(email) == NormalizeEmail(input.email.value)
    requires compare(input.password.value, passwordHash)
    ensures var out := Register(users, nextId, input, passwordHash, defaultRole);
      var u := Registered(nextId, input, passwordHash, defaultRole);
      Login(out.users, LoginInput(Some(email), input.password), compare)
        == Response(200, Session(SanitizeUser(u), Signed(nextId, defaultRole)))
  {
    RegisterCreated(users, nextId, input, passwordHash, defaultRole);
    var u := Registered(nextId, input, passwordHash, defaultRole);
    IndexOfAppendFresh(users, u, (v: User) => v.email == NormalizeEmail(email));
    assert (users + [u])[|users|] == u;
  }

  /** In particular, the e-mail may be given in upper case and with surrounding whitespace. */
  lemma LoginIgnoresEmailVariant(users: seq<User>, nextId: Id, input: RegisterInput, pre: string, post: string,
                                 passwordHash: string, compare: (string, string) -> bool, defaultRole: string)
    requires Register(users, nextId, input, passwordHash, defaultRole).response.status == 201
    requires AllWhitespace(pre) && AllWhitespace(post)
    requires compare(input.password.value, passwordHash)
    ensures var out := Register(users, nextId, input, passwordHash, defaultRole);
      Login(out.users, LoginInput(Some(pre + ToUpper(input.email.value) + post), input.password), compare).status == 200
  {
    RegisterCreated(users, nextId, input, passwordHash, defaultRole);
    NormalizeEmailForgetsVariant(input.email.value, pre, post);
    RegisterThenLogin(users, nextId, input, pre + ToUpper(input.email.value) + post, passwordHash, compare, defaultRole);
  }

  // ---------------------------------------------------------------------------
  // getProfile

  /** `getProfile` and the 200 of its controller: the public view of the user with the token's
      `userId`, or 404 "Usuario no encontrado". */
  function GetProfile(users: seq<User>, userId: Option<Id>): (res: Response<AuthReply>)
    ensures res.status == 200 || res == Response(404, ErrorMessage(MsgUserNotFound))
    ensures res.status == 404 <==> userId.None? || forall k :: 0 <= k < |users| ==> users[k].id != userId.value
    ensures res.status == 200 ==>
      exists k :: 0 <= k < |users| && users[k].id == userId.value && res.body == Profile(SanitizeUser(users[k]))
  {
    match FindUserById(users, userId)
    case None => Response(404, ErrorMessage(MsgUserNotFound))
    case Some(i) => Response(200, Profile(SanitizeUser(users[i])))
  }

  /** The profile of a freshly registered user is the user the registration returned. */
  lemma RegisterThenProfile(users: seq<User>, nextId: Id, input: RegisterInput,
                            passwordHash: string, defaultRole: string)
    requires UsersValid(users, nextId)
    requires Register(users, nextId, input, passwordHash, defaultRole).response.status == 201
    ensures var out := Register(users, nextId, input, passwordHash, defaultRole);
      GetProfile(out.users, Some(nextId)) == Response(200, Profile(out.response.body.user))
  {
    RegisterCreated(users, nextId, input, passwordHash, defaultRole);
    var u := Registered(nextId, input, passwordHash, defaultRole);
    assert FindUserById(users, Some(nextId)).None? by {
      forall k | 0 <= k < |users| ensures users[k].id != nextId {
      }
    }
    IndexOfAppendFresh(users, u, (v: User) => v.id == nextId);
    assert (users + [u])[|users|] == u;
  }

  // ---------------------------------------------------------------------------
  // The store

  /** `registerUser` against the store. */
  method RegisterUser(db: Db, input: RegisterInput, passwordHash: string, defaultRole: string) returns (res: Response<AuthReply>)
    requires db.Valid()
    modifies db`users, db`nextId
    ensures db.Valid()
    ensures var out := Register(old(db.users), old(db.nextId), input, passwordHash, defaultRole);
      res == out.response && db.users == out.users && db.nextId == out.nextId
  {
    var users, n := db.users, db.nextId;
    var out := Register(users, n, input, passwordHash, defaultRole);
    RegisterKeepsUsersValid(users, n, input, passwordHash, defaultRole);
    ValidAsIdsGrow(db.rooms, db.guests, [], n, out.nextId);
    LedgerIdsGrow(db.reservations, db.payments, n, out.nextId);
    ghost var rooms, guests, reservations, payments := db.rooms, db.guests, db.reservations, db.payments;
    db.users, db.nextId := out.users, out.nextId;
    assert db.rooms == rooms && db.guests == guests && db.reservations == reservations && db.payments == payments;
    res := out.response;
  }
}
