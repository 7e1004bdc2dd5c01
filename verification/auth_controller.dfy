/**
 * Registration, login and profile lookup (server/src/controllers/authController.ts)
 * over the user collection. Password hashing and token signing are functions the
 * store is built with; the salt is not modelled, so a password matches a stored
 * hash exactly when it hashes to it.
 */
module AuthController {
  import opened Js
  import opened UserModel
  import opened AuthMiddleware

  datatype RegisterBody = RegisterBody(username: Option<string>, email: Option<string>,
                                       password: Option<string>, confirmPassword: Option<string>)

  datatype LoginBody = LoginBody(email: Option<string>, password: Option<string>)

  /** The user object of a successful response: never the password. */
  datatype PublicUser = PublicUser(id: nat, username: string, email: string)

  /** What is handed to `jwt.sign`: the payload and the `expiresIn` option. */
  datatype SignRequest = SignRequest(payload: Claims, expiresIn: string)

  /** A successful register or login response. */
  datatype AuthReply = AuthReply(status: int, message: string, token: string, user: PublicUser)

  const TokenLifetime := "7d"
  const MissingRegisterFields := "Please provide username, email, and password"
  const PasswordsDiffer := "Passwords do not match"
  const AlreadyRegistered := "Email or username already registered"
  const MissingLoginFields := "Please provide email and password"
  const InvalidCredentials := "Invalid credentials"
  const UserNotFound := "User not found"

  /** The store's invariant: every user is kept in normalised form, ids grow along the
    * collection and stay below the next id, usernames and e-mails are unique. */
  /** Every stored user passed the schema validators, stated by recursion on the
    * collection. The store's invariant uses this form rather than a quantifier over
    * `UserValid` so that appending a user unfolds the e-mail pattern for that user
    * only (`AppendKeepsAllValid`); `AllUsersValidIff` shows that it says the same as the
    * quantified reading. */
  predicate AllUsersValid(users: seq<UserDoc>)
    decreases |users|
  {
    users == [] || (AllUsersValid(users[..|users| - 1]) && UserValid(users[|users| - 1]))
  }

  predicate UsersValid(users: seq<UserDoc>, nextId: nat)
  {
    (forall i :: 0 <= i < |users| ==>
       users[i].id < nextId && Trimmed(users[i].username) && users[i].email == Lower(users[i].email))
    && (forall i, j :: 0 <= i < j < |users| ==>
          users[i].id < users[j].id && users[i].username != users[j].username && users[i].email != users[j].email)
  }

  /** The unique index on `email`. */
  predicate UniqueEmails(users: seq<UserDoc>)
  {
    forall i, j :: 0 <= i < j < |users| ==> users[i].email != users[j].email
  }

  /** `User.findOne({ $or: [{ email }, { username }] })` finds a user; the schema's setters
    * also normalise the filter values. */
  predicate Registered(users: seq<UserDoc>, username: string, email: string)
  {
    exists i | 0 <= i < |users| :: users[i].email == Lower(email) || users[i].username == Trim(username)
  }

  function PublicOf(u: UserDoc): (p: PublicUser)
    ensures p.id == u.id && p.username == u.username && p.email == u.email
  {
    PublicUser(u.id, u.username, u.email)
  }

  /** The signed session token of a user: `{ id, email }`, valid for seven days. */
  function TokenFor(u: UserDoc, sign: SignRequest -> string): (t: string)
    ensures t == sign(SignRequest(Claims(u.id, u.email), TokenLifetime))
  {
    sign(SignRequest(Claims(u.id, u.email), TokenLifetime))
  }

  /** `register`: the user document to insert, or the error, in the handler's check order. */
  function Registration(users: seq<UserDoc>, nextId: nat, hash: string -> string, body: RegisterBody): (r: Outcome<UserDoc>)
    ensures !(TruthyStr(body.username) && TruthyStr(body.email) && TruthyStr(body.password))
            ==> r == Throw(Raise(400, MissingRegisterFields))
    ensures TruthyStr(body.username) && TruthyStr(body.email) && TruthyStr(body.password) ==>
            (body.password != body.confirmPassword ==> r == Throw(Raise(400, PasswordsDiffer)))
            && (body.password == body.confirmPassword && Registered(users, body.username.value, body.email.value)
                ==> r == Throw(Raise(409, AlreadyRegistered)))
    ensures r.Ok? ==> body.password == body.confirmPassword && !Registered(users, body.username.value, body.email.value)
    ensures r.Ok? ==> r.value == NewUser(nextId, body.username.value, body.email.value, hash(body.password.value))
                      && UserValid(r.value)
    ensures r.Throw? && r.error.statusCode.None? ==>
            !UserValid(NewUser(nextId, body.username.value, body.email.value, hash(body.password.value)))
    ensures TruthyStr(body.username) && TruthyStr(body.email) && TruthyStr(body.password)
            && body.password == body.confirmPassword && !Registered(users, body.username.value, body.email.value)
            ==> (r.Ok? <==> UserValid(NewUser(nextId, body.username.value, body.email.value, hash(body.password.value))))
                && (r.Throw? ==> r.error.statusCode.None?)
  {
    if !(TruthyStr(body.username) && TruthyStr(body.email) && TruthyStr(body.password)) then
      Throw(Raise(400, MissingRegisterFields))
    else if body.password != body.confirmPassword then
      Throw(Raise(400, PasswordsDiffer))
    else if Registered(users, body.username.value, body.email.value) then
      Throw(Raise(409, AlreadyRegistered))
    else
      var user := NewUser(nextId, body.username.value, body.email.value, hash(body.password.value));
      match ValidateUser(user)
      case Some(e) => Throw(e)
      case None => Ok(user)
  }

  /** The 201 response of a registration. */
  function Registered201(u: UserDoc, sign: SignRequest -> string): (a: AuthReply)
    ensures a.status == 201 && a.user == PublicOf(u) && a.token == TokenFor(u, sign)
  {
    AuthReply(201, "User registered successfully", TokenFor(u, sign), PublicOf(u))
  }

  /** `login`: 400 on a missing field; the same 401 for an unknown e-mail and for a wrong
    * password; otherwise 200 with a token for `{ id, email }`. */
  function Login(users: seq<UserDoc>, hash: string -> string, sign: SignRequest -> string, body: LoginBody): (r: Outcome<AuthReply>)
    ensures !(TruthyStr(body.email) && TruthyStr(body.password)) ==> r == Throw(Raise(400, MissingLoginFields))
    ensures TruthyStr(body.email) && TruthyStr(body.password) && r.Throw? ==> r == Throw(Raise(401, InvalidCredentials))
    ensures UniqueEmails(users) ==>
            (r.Ok? <==> (TruthyStr(body.email) && TruthyStr(body.password)
                         && exists i | 0 <= i < |users| :: users[i].email == Lower(body.email.value)
                                                           && users[i].password == hash(body.password.value)))
    ensures r.Ok? ==> r.value.status == 200
                      && exists i | 0 <= i < |users| :: users[i].email == Lower(body.email.value)
                           && r.value.user == PublicOf(users[i]) && r.value.token == TokenFor(users[i], sign)
  {
    if !(TruthyStr(body.email) && TruthyStr(body.password)) then Throw(Raise(400, MissingLoginFields))
    else
      var email := Lower(body.email.value);
      match FindIndex(users, (u: UserDoc) => u.email == email)
      case None => Throw(Raise(401, InvalidCredentials))
      case Some(i) =>
        if users[i].password != hash(body.password.value) then
          Throw(Raise(401, InvalidCredentials))
        else
          Ok(AuthReply(200, "Login successful", TokenFor(users[i], sign), PublicOf(users[i])))
  }

  /** `getProfile`: the caller's record without the password, or 404. */
  function GetProfile(users: seq<UserDoc>, caller: Option<nat>): (r: Outcome<Profile>)
    ensures r.Ok? <==> caller.Some? && exists i | 0 <= i < |users| :: users[i].id == caller.value
    ensures r.Ok? ==> r.value.id == caller.value
                      && exists i | 0 <= i < |users| :: users[i].id == caller.value && r.value == ProfileOf(users[i])
    ensures r.Throw? ==> r.error == Raise(404, UserNotFound)
  {
    if caller.None? then Throw(Raise(404, UserNotFound))
    else
      match FindIndex(users, (u: UserDoc) => u.id == caller.value)
      case None => Throw(Raise(404, UserNotFound))
      case Some(i) => Ok(ProfileOf(users[i]))
  }

  /** The user collection. */
  class UserStore {
    var users: seq<UserDoc>
    var nextId: nat
    const hash: string -> string
    const sign: SignRequest -> string

    predicate Valid()
      reads this
    {
      UsersValid(users, nextId) && AllUsersValid(users)
    }

    constructor (hash: string -> string, sign: SignRequest -> string)
      ensures Valid() && users == [] && this.hash == hash && this.sign == sign
    {
      users := [];
      nextId := 0;
      this.hash := hash;
      this.sign := sign;
    }

    /** `register`: inserts the new user on success, otherwise leaves the store as it was. */
    method Register(body: RegisterBody) returns (r: Outcome<AuthReply>)
      requires Valid()
      modifies this
      ensures Valid()
      ensures var d := Registration(old(users), old(nextId), hash, body);
              r == (if d.Ok? then Ok(Registered201(d.value, sign)) else Throw(d.error))
              && users == (if d.Ok? then old(users) + [d.value] else old(users))
              && nextId == (if d.Ok? then old(nextId) + 1 else old(nextId))
    {
      var d := Registration(users, nextId, hash, body);
      RegistrationKeepsAllValid(users, nextId, hash, body);
      users, nextId := if d.Ok? then users + [d.value] else users, if d.Ok? then nextId + 1 else nextId;
      r := if d.Ok? then Ok(Registered201(d.value, sign)) else Throw(d.error);
    }
  }

  /** A successful registration keeps the store's invariant. */
  lemma RegistrationKeepsValid(users: seq<UserDoc>, nextId: nat, hash: string -> string, body: RegisterBody)
    requires UsersValid(users, nextId)
    ensures var d := Registration(users, nextId, hash, body);
            d.Ok? ==> UsersValid(users + [d.value], nextId + 1)
  {
    var d := Registration(users, nextId, hash, body);
    if d.Ok? {
      var u := d.value;
      forall i | 0 <= i < |users|
        ensures users[i].username != u.username && users[i].email != u.email
      {
        assert !(users[i].email == Lower(body.email.value) || users[i].username == Trim(body.username.value));
      }
      AppendUserKeepsValid(users, nextId, u);
    }
  }

  /** A registration keeps both the store's invariant and the validity of every stored
    * user, whatever the outcome. */
  lemma RegistrationKeepsAllValid(users: seq<UserDoc>, nextId: nat, hash: string -> string, body: RegisterBody)
    requires UsersValid(users, nextId) && AllUsersValid(users)
    ensures var d := Registration(users, nextId, hash, body);
            var s := if d.Ok? then users + [d.value] else users;
            UsersValid(s, if d.Ok? then nextId + 1 else nextId) && AllUsersValid(s)
  {
    var d := Registration(users, nextId, hash, body);
    if d.Ok? {
      RegistrationKeepsValid(users, nextId, hash, body);
      AppendKeepsAllValid(users, d.value);
    }
  }

  /** Appending a valid, normalised user with the next id and a fresh username and e-mail
    * keeps the store's invariant. */
  lemma AppendUserKeepsValid(users: seq<UserDoc>, nextId: nat, u: UserDoc)
    requires UsersValid(users, nextId)
    requires u.id == nextId && Trimmed(u.username) && u.email == Lower(u.email)
    requires forall i :: 0 <= i < |users| ==> users[i].username != u.username && users[i].email != u.email
    ensures UsersValid(users + [u], nextId + 1)
  {
    var s := users + [u];
    forall i, j | 0 <= i < j < |s|
      ensures s[i].id < s[j].id && s[i].username != s[j].username && s[i].email != s[j].email
    {
      assert s[i] == users[i];
      if j < |users| {
        assert s[j] == users[j];
      }
    }
  }

  /** The recursive statement of validity says that every stored user is valid. */
  lemma {:induction false} AllUsersValidIff(users: seq<UserDoc>)
    ensures AllUsersValid(users) <==> forall i :: 0 <= i < |users| ==> UserValid(users[i])
    decreases |users|
  {
    if users != [] {
      var init := users[..|users| - 1];
      AllUsersValidIff(init);
      assert forall i :: 0 <= i < |init| ==> init[i] == users[i];
    }
  }

  /** Appending a valid user keeps every stored user valid. */
  lemma AppendKeepsAllValid(users: seq<UserDoc>, u: UserDoc)
    requires AllUsersValid(users) && UserValid(u)
    ensures AllUsersValid(users + [u])
  {
    assert (users + [u])[..|users|] == users;
  }

  /** Registering and then logging in with the same e-mail and password (in any letter
    * case) succeeds, for the new user. */
  lemma LoginAfterRegistration(users: seq<UserDoc>, nextId: nat, hash: string -> string, sign: SignRequest -> string,
                               body: RegisterBody, email: string)
    requires UsersValid(users, nextId)
    requires Registration(users, nextId, hash, body).Ok?
    requires Lower(email) == Lower(body.email.value)
    ensures var u := Registration(users, nextId, hash, body).value;
            Login(users + [u], hash, sign, LoginBody(Some(email), body.password))
            == Ok(AuthReply(200, "Login successful", TokenFor(u, sign), PublicOf(u)))
  {
    var u := Registration(users, nextId, hash, body).value;
    var s := users + [u];
    RegistrationKeepsValid(users, nextId, hash, body);
    assert UniqueEmails(s);
    LowerIdempotent(body.email.value);
    assert |Lower(email)| == |email| && |Lower(body.email.value)| == |body.email.value|;
    assert s[|users|] == u;
    LoginFinds(s, hash, sign, LoginBody(Some(email), body.password), |users|);
  }

  /** With unique e-mails, logging in with the e-mail and password of a stored user
    * succeeds for that user. */
  lemma LoginFinds(users: seq<UserDoc>, hash: string -> string, sign: SignRequest -> string, body: LoginBody, k: nat)
    requires UniqueEmails(users) && k < |users|
    requires TruthyStr(body.email) && TruthyStr(body.password)
    requires users[k].email == Lower(body.email.value) && users[k].password == hash(body.password.value)
    ensures Login(users, hash, sign, body) == Ok(AuthReply(200, "Login successful", TokenFor(users[k], sign), PublicOf(users[k])))
  {
    var email := Lower(body.email.value);
    var i := FindIndex(users, (u: UserDoc) => u.email == email).value;
    assert users[i].email == email;
  }

  /** Once an e-mail or a username is taken, registering it again is a 409, whatever
    * the letter case of the e-mail or the white space around the username. */
  lemma SecondRegistrationConflicts(users: seq<UserDoc>, nextId: nat, hash: string -> string,
                                    first: RegisterBody, again: RegisterBody)
    requires Registration(users, nextId, hash, first).Ok?
    requires TruthyStr(again.username) && TruthyStr(again.email) && TruthyStr(again.password)
    requires again.password == again.confirmPassword
    requires Lower(again.email.value) == Lower(first.email.value) || Trim(again.username.value) == Trim(first.username.value)
    ensures Registration(users + [Registration(users, nextId, hash, first).value], nextId + 1, hash, again)
            == Throw(Raise(409, AlreadyRegistered))
  {
    var u := Registration(users, nextId, hash, first).value;
    var s := users + [u];
    assert s[|users|] == u;
    LowerIdempotent(first.email.value);
    assert Registered(s, again.username.value, again.email.value);
  }

  /** The minimum password length is checked on what is stored, the hash: a three-character
    * password is accepted whenever its hash is long enough, as a bcrypt hash always is. */
  lemma ShortPasswordAccepted(hash: string -> string)
    requires |hash("abc")| >= MinPassword
    ensures Registration([], 0, hash, RegisterBody(Some("ann"), Some("a@x.com"), Some("abc"), Some("abc"))).Ok?
  {
    var body := RegisterBody(Some("ann"), Some("a@x.com"), Some("abc"), Some("abc"));
    var u := NewUser(0, "ann", "a@x.com", hash("abc"));
    ShortPasswordUserValid(hash);
    assert TruthyStr(body.username) && TruthyStr(body.email) && TruthyStr(body.password);
    assert body.password == body.confirmPassword;
    assert !Registered([], "ann", "a@x.com");
    assert NewUser(0, body.username.value, body.email.value, hash(body.password.value)) == u;
    assert ValidateUser(u).None?;
  }

  lemma ShortPasswordUserValid(hash: string -> string)
    requires |hash("abc")| >= MinPassword
    ensures UserValid(NewUser(0, "ann", "a@x.com", hash("abc")))
  {
    NormalisedExample();
    EmailAccepted();
    assert NewUser(0, "ann", "a@x.com", hash("abc")) == UserDoc(0, "ann", "a@x.com", hash("abc"), []);
  }

  lemma NormalisedExample()
    ensures Trim("ann") == "ann" && Lower("a@x.com") == "a@x.com"
  {
    assert TrimStart("ann") == "ann";
    assert TrimEnd("ann") == "ann";
    LowerOfLowercase("a@x.com");
  }

  /** The stored password is the hash of the one submitted, never the plaintext unless the
    * hash leaves it unchanged; the response carries no password at all. */
  lemma RegistrationStoresHash(users: seq<UserDoc>, nextId: nat, hash: string -> string,
                               sign: SignRequest -> string, body: RegisterBody)
    requires Registration(users, nextId, hash, body).Ok?
    ensures var u := Registration(users, nextId, hash, body).value;
            u.password == hash(body.password.value)
            && Registered201(u, sign).user == PublicUser(nextId, Trim(body.username.value), Lower(body.email.value))
  {
  }
}
