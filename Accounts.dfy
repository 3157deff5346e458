/**
 * The signup and login handlers over the account store. Each asynchronous callback
 * chain (find, hash, save; find, compare, sign) is modelled as sequential steps.
 * The password hasher and the token signer are foreign code and stay uninterpreted:
 * they are the fields of a Crypto value, any functions at all. The store's own
 * failures are inputs (StoreFaults) that only decide whether a step fails.
 */
module Accounts {
  import opened Wrappers
  import opened SignupValidation
  import EmailSyntax

  const STATUS_OK: nat := 200
  const STATUS_BAD_REQUEST: nat := 400
  const STATUS_UNAUTHORIZED: nat := 401
  const STATUS_CONFLICT: nat := 409
  const STATUS_SERVER_ERROR: nat := 500

  const EMAIL_EXISTS: string := "Email exists"
  const USER_CREATED: string := "User created"
  const AUTH_SUCCESSFUL: string := "Auth successful"
  const AUTH_FAILED: string := "Auth failed"

  /** The output of the password hasher, as kept in the store. */
  datatype Digest = Digest(text: string)

  /** The hasher either produces a digest or reports an error through its callback. */
  datatype HashOutcome = Hashed(digest: Digest) | HashError

  /** The comparer reports an error, or whether the password fits the digest. */
  datatype CompareOutcome = Matches | Mismatch | CompareError

  /** What a token asserts: exactly the account's email and id. */
  datatype Claims = Claims(email: string, userId: nat)

  datatype Token = Token(text: string)

  /** The foreign primitives: salted hashing, comparison, token signing (key and expiry inside). */
  datatype Crypto = Crypto(
    hash: string -> HashOutcome,
    compare: (Option<string>, Digest) -> CompareOutcome,
    sign: Claims -> Token)

  /** The one property of the hasher a caller may rely on: a password fits its own digest. */
  ghost predicate HashVerifies(crypto: Crypto)
  {
    forall p :: crypto.hash(p).Hashed? ==> crypto.compare(Some(p), crypto.hash(p).digest) == Matches
  }

  /** One stored user. There is no plaintext password field. */
  datatype Account = Account(id: nat, name: string, email: string, passwordHash: Digest)

  /** The JSON body of a response. */
  datatype Body =
    | Messages(list: seq<string>)
    | Message(text: string)
    | Authenticated(text: string, token: Token)
    | UserData(claims: Claims)
    | ErrorDetail

  datatype Response = Response(status: nat, body: Body)

  /** The database errors that the handlers turn into a 500 response. */
  datatype StoreFaults = StoreFaults(findFails: bool, saveFails: bool)

  const NO_FAULTS: StoreFaults := StoreFaults(false, false)

  function ServerError(): Response
  {
    Response(STATUS_SERVER_ERROR, ErrorDetail)
  }

  function ClaimsOf(account: Account): Claims
  {
    Claims(account.email, account.id)
  }

  /** Accounts are found under their own email, and ids are distinct and below the next id. */
  ghost predicate WellFormed(users: map<string, Account>, nextId: nat)
  {
    && (forall e :: e in users ==> users[e].email == e && users[e].id < nextId)
    && (forall e1, e2 :: e1 in users && e2 in users && e1 != e2 ==> users[e1].id != users[e2].id)
  }

  // ---------------------------------------------------------------------------
  // Signup
  // ---------------------------------------------------------------------------

  /** The response of one signup and the store after it. */
  datatype Transition = Transition(response: Response, users: map<string, Account>, nextId: nat)

  /** Signup as a function of the store before it. */
  function SignupTransition(users: map<string, Account>, nextId: nat, form: SignupForm,
                            crypto: Crypto, faults: StoreFaults): (t: Transition)
    ensures t.response.status in {STATUS_OK, STATUS_BAD_REQUEST, STATUS_CONFLICT, STATUS_SERVER_ERROR}
    ensures t.nextId == nextId || t.nextId == nextId + 1
  {
    var errors := Errors(form);
    if errors != [] then
      Transition(Response(STATUS_BAD_REQUEST, Messages(errors)), users, nextId)
    else
      AcceptedFormIsComplete(form);
      if faults.findFails then Transition(ServerError(), users, nextId)
      else if form.email.value in users then
        Transition(Response(STATUS_CONFLICT, Message(EMAIL_EXISTS)), users, nextId)
      else match crypto.hash(form.password.value)
        case HashError => Transition(ServerError(), users, nextId)
        case Hashed(digest) =>
          if faults.saveFails then Transition(ServerError(), users, nextId)
          else
            var account := Account(nextId, form.name.value, form.email.value, digest);
            Transition(Response(STATUS_OK, Message(USER_CREATED)),
                       users[form.email.value := account], nextId + 1)
  }

  /** When a signup stores an account: the form passes, its email is new, and neither
      the database nor the hasher fails. */
  predicate Creates(users: map<string, Account>, form: SignupForm, crypto: Crypto, faults: StoreFaults)
  {
    && Errors(form) == []
    && form.email.Some? && form.email.value !in users
    && form.password.Some? && crypto.hash(form.password.value).Hashed?
    && !faults.findFails && !faults.saveFails
  }

  /** The store of users. */
  class UserStore {
    var users: map<string, Account>
    var nextId: nat

    ghost predicate Valid()
      reads this
    {
      WellFormed(users, nextId)
    }

    constructor ()
      ensures Valid() && users == map[] && nextId == 0
    {
      users := map[];
      nextId := 0;
    }

    /** The signup handler: validate, look the email up, hash the password, save. */
    method Signup(form: SignupForm, crypto: Crypto, faults: StoreFaults) returns (r: Response)
      requires Valid()
      modifies this
      ensures Valid()
      ensures Transition(r, users, nextId) == SignupTransition(old(users), old(nextId), form, crypto, faults)
    {
      var errors := Validate(form);
      if errors != [] {
        return Response(STATUS_BAD_REQUEST, Messages(errors));
      }
      AcceptedFormIsComplete(form);
      if faults.findFails {
        return ServerError();
      }
      var email := form.email.value;
      if email in users {
        return Response(STATUS_CONFLICT, Message(EMAIL_EXISTS));
      }
      var hashed := crypto.hash(form.password.value);
      if hashed.HashError? {
        return ServerError();
      }
      if faults.saveFails {
        return ServerError();
      }
      SignupKeepsWellFormed(users, nextId, form, crypto, faults);
      users := users[email := Account(nextId, form.name.value, email, hashed.digest)];
      nextId := nextId + 1;
      r := Response(STATUS_OK, Message(USER_CREATED));
    }
  }

  /** A signup with any failing check answers 400 with the error list and leaves the
      store as it was; a missing field is always among the reported errors. */
  lemma SignupRejectsInvalid(users: map<string, Account>, nextId: nat, form: SignupForm,
                             crypto: Crypto, faults: StoreFaults)
    requires Errors(form) != []
    ensures var t := SignupTransition(users, nextId, form, crypto, faults);
            && t.response.status == STATUS_BAD_REQUEST
            && t.response.body == Messages(Errors(form))
            && t.users == users && t.nextId == nextId
    ensures (!Given(form.name) || !Given(form.email) || !Given(form.password) || !Given(form.password2))
            ==> REQUIRED_MESSAGE in SignupTransition(users, nextId, form, crypto, faults).response.body.list
  {
    if !Given(form.name) || !Given(form.email) || !Given(form.password) || !Given(form.password2) {
      MissingFieldReported(form);
    }
  }

  /** A valid signup for an email already in the store answers 409 and changes nothing,
      whenever the lookup itself succeeds. */
  lemma SignupRejectsDuplicate(users: map<string, Account>, nextId: nat, form: SignupForm,
                                crypto: Crypto, faults: StoreFaults)
    requires Errors(form) == [] && form.email.Some? && form.email.value in users
    requires !faults.findFails
    ensures SignupTransition(users, nextId, form, crypto, faults)
            == Transition(Response(STATUS_CONFLICT, Message(EMAIL_EXISTS)), users, nextId)
  {
  }

  /** The signup answers 200 exactly when it stores an account; on every other answer the
      store is left as it was. */
  lemma SignupChangesOnlyOnSuccess(users: map<string, Account>, nextId: nat, form: SignupForm,
                                   crypto: Crypto, faults: StoreFaults)
    ensures var t := SignupTransition(users, nextId, form, crypto, faults);
            t.response.status == STATUS_OK <==> Creates(users, form, crypto, faults)
    ensures var t := SignupTransition(users, nextId, form, crypto, faults);
            !Creates(users, form, crypto, faults) ==> t.users == users && t.nextId == nextId
  {
    if Errors(form) == [] {
      AcceptedFormIsComplete(form);
    }
  }

  /** A signup that stores an account adds exactly one, under the form's email, holding its
      name and the digest of its password, and keeps every other account as it was. */
  lemma SignupCreatesOneAccount(users: map<string, Account>, nextId: nat, form: SignupForm,
                                crypto: Crypto, faults: StoreFaults)
    requires Creates(users, form, crypto, faults)
    ensures var t := SignupTransition(users, nextId, form, crypto, faults);
            && t.response == Response(STATUS_OK, Message(USER_CREATED))
            && t.users.Keys == users.Keys + {form.email.value}
            && |t.users| == |users| + 1
            && t.users[form.email.value]
               == Account(nextId, form.name.value, form.email.value, crypto.hash(form.password.value).digest)
            && (forall e :: e in users ==> t.users[e] == users[e])
            && t.nextId == nextId + 1
  {
    AcceptedFormIsComplete(form);
  }

  /** Signup keeps the store well formed. */
  lemma SignupKeepsWellFormed(users: map<string, Account>, nextId: nat, form: SignupForm,
                              crypto: Crypto, faults: StoreFaults)
    requires WellFormed(users, nextId)
    ensures var t := SignupTransition(users, nextId, form, crypto, faults);
            WellFormed(t.users, t.nextId)
  {
    var t := SignupTransition(users, nextId, form, crypto, faults);
    SignupChangesOnlyOnSuccess(users, nextId, form, crypto, faults);
    if Creates(users, form, crypto, faults) {
      SignupCreatesOneAccount(users, nextId, form, crypto, faults);
      var email := form.email.value;
      forall e1, e2 | e1 in t.users && e2 in t.users && e1 != e2
        ensures t.users[e1].id != t.users[e2].id
      {
        if e1 == email {
          assert t.users[e2] == users[e2];
        } else if e2 == email {
          assert t.users[e1] == users[e1];
        } else {
          assert t.users[e1] == users[e1] && t.users[e2] == users[e2];
        }
      }
    }
  }

  // ---------------------------------------------------------------------------
  // Login
  // ---------------------------------------------------------------------------

  /** A stored account exists for the email and the password fits its digest. */
  predicate Authenticates(users: map<string, Account>, email: Option<string>,
                          password: Option<string>, crypto: Crypto)
  {
    && email.Some? && email.value in users
    && crypto.compare(password, users[email.value].passwordHash) == Matches
  }

  /** The login handler. It reads the store and never changes it. An unknown email, a
      comparer error and a wrong password all give the same 401 answer. */
  function Login(users: map<string, Account>, email: Option<string>, password: Option<string>,
                 crypto: Crypto, findFails: bool): (r: Response)
    ensures r.status in {STATUS_OK, STATUS_UNAUTHORIZED, STATUS_SERVER_ERROR}
    ensures r.status == STATUS_SERVER_ERROR <==> findFails
    ensures r.status == STATUS_OK <==> !findFails && Authenticates(users, email, password, crypto)
    ensures r.status == STATUS_OK ==>
              r.body == Authenticated(AUTH_SUCCESSFUL, crypto.sign(ClaimsOf(users[email.value])))
    ensures r.status == STATUS_UNAUTHORIZED ==> r.body == Message(AUTH_FAILED)
  {
    if findFails then ServerError()
    else match email
      case None => Response(STATUS_UNAUTHORIZED, Message(AUTH_FAILED))
      case Some(address) =>
        if address !in users then Response(STATUS_UNAUTHORIZED, Message(AUTH_FAILED))
        else
          var user := users[address];
          match crypto.compare(password, user.passwordHash)
          case CompareError => Response(STATUS_UNAUTHORIZED, Message(AUTH_FAILED))
          case Mismatch => Response(STATUS_UNAUTHORIZED, Message(AUTH_FAILED))
          case Matches =>
            Response(STATUS_OK, Authenticated(AUTH_SUCCESSFUL, crypto.sign(Claims(user.email, user.id))))
  }

  /** The profile handler answers 200 with the claims the authentication middleware attached. */
  function Profile(userData: Claims): (r: Response)
    ensures r.status == STATUS_OK && r.body.UserData? && r.body.claims == userData
  {
    Response(STATUS_OK, UserData(userData))
  }

  // ---------------------------------------------------------------------------
  // Signup and login together
  // ---------------------------------------------------------------------------

  /** After a successful signup, logging in with the same email and password yields a token
      whose claims are that email and the new account's id, provided the comparer accepts a
      password against its own digest. */
  lemma SignupThenLogin(users: map<string, Account>, nextId: nat, form: SignupForm, crypto: Crypto)
    requires HashVerifies(crypto)
    requires SignupTransition(users, nextId, form, crypto, NO_FAULTS).response.status == STATUS_OK
    ensures var t := SignupTransition(users, nextId, form, crypto, NO_FAULTS);
            Login(t.users, form.email, form.password, crypto, false)
            == Response(STATUS_OK, Authenticated(AUTH_SUCCESSFUL, crypto.sign(Claims(form.email.value, nextId))))
  {
    SignupChangesOnlyOnSuccess(users, nextId, form, crypto, NO_FAULTS);
    SignupCreatesOneAccount(users, nextId, form, crypto, NO_FAULTS);
    var p := form.password.value;
    assert crypto.compare(Some(p), crypto.hash(p).digest) == Matches;
  }

  /** Signing up twice with the same form: the second attempt answers 409 and keeps the store. */
  lemma SignupTwiceConflicts(users: map<string, Account>, nextId: nat, form: SignupForm, crypto: Crypto)
    requires SignupTransition(users, nextId, form, crypto, NO_FAULTS).response.status == STATUS_OK
    ensures var t := SignupTransition(users, nextId, form, crypto, NO_FAULTS);
            var again := SignupTransition(t.users, t.nextId, form, crypto, NO_FAULTS);
            again == Transition(Response(STATUS_CONFLICT, Message(EMAIL_EXISTS)), t.users, t.nextId)
  {
    SignupChangesOnlyOnSuccess(users, nextId, form, crypto, NO_FAULTS);
    SignupCreatesOneAccount(users, nextId, form, crypto, NO_FAULTS);
  }

  /** A complete form with a well-shaped email and two equal passwords shorter than six is
      refused with the length message alone. */
  lemma ShortPasswordRefused(users: map<string, Account>, nextId: nat, form: SignupForm,
                             crypto: Crypto, faults: StoreFaults)
    requires Given(form.name) && Given(form.email) && EmailSyntax.IsValidEmail(form.email.value)
    requires Given(form.password) && form.password2 == form.password
    requires Utf16Length(form.password.value) < MIN_PASSWORD_LENGTH
    ensures SignupTransition(users, nextId, form, crypto, faults)
            == Transition(Response(STATUS_BAD_REQUEST, Messages([LENGTH_MESSAGE])), users, nextId)
  {
    ErrorsByCheck(form);
    assert !Fails(Required, form) && !Fails(ValidEmail, form) && !Fails(PasswordsMatch, form);
    assert Fails(PasswordLength, form);
    assert Errors(form) == [LENGTH_MESSAGE];
  }
}
