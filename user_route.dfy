/** The registration handler of routes/api/user.js (`POST /api/user`).
    The handler validates the body, rejects an email that already has an
    account, builds the user with a gravatar avatar, overwrites the plaintext
    password with its bcrypt hash, saves the user and answers with a signed
    token for `{ user: { id } }`. The user collection is a map keyed by email;
    the libraries it calls are uninterpreted functions supplied from outside. */
module UserRoute {

  datatype Option<T> = None | Some(value: T)

  /** The store-assigned identifier of a user document. */
  type UserId = nat

  /** A saved user document. */
  datatype User = User(id: UserId, fullName: string, email: string, password: string, avatar: string)

  /** The fields of the request body the handler reads; a missing field reads as "". */
  datatype RegisterBody = RegisterBody(fullName: string, email: string, password: string)

  /** One element of an `errors` array: `{ msg, param }`, either part possibly absent. */
  datatype ErrorEntry = ErrorEntry(msg: Option<string>, param: Option<string>)

  datatype Body = Errors(errors: seq<ErrorEntry>) | Token(jwtToken: string) | Text(text: string)

  datatype Response = Response(status: nat, body: Body)

  /** The token payload `{ user: { id } }`. */
  datatype Payload = Payload(userId: UserId)

  /** The foreign calls of the handler, as uninterpreted functions, and the
      configured signing key. */
  datatype Services = Services(
    isEmail: string -> bool,                  // express-validator isEmail
    gravatarUrl: string -> string,            // gravatar.url(email, {s, r, d}, true)
    hash: (string, string) -> string,         // bcrypt.hash(password, salt)
    sign: (Payload, string, nat) -> string,   // jwt.sign(payload, key, { expiresIn })
    jwtSecret: string)                        // config.get('jwtToken')

  /** Which awaited store or bcrypt call rejects; each one lands in the catch block. */
  datatype Faults = Faults(findFails: bool, saltFails: bool, hashFails: bool, saveFails: bool)

  const NameMsg := "Provide a valid Name"
  const EmailMsg := "Provide a valid Email"
  const PasswordMsg := "Provide a valid password with more than 8 characters"
  const DuplicateMsg := "Hey! You already have an account. Try to Sign in"
  const MinPasswordLength := 8
  const TokenLifetime := 3600

  /** The reply to a second registration of an email. */
  const DuplicateAccount := Response(400, Errors([ErrorEntry(Some(DuplicateMsg), None), ErrorEntry(None, Some("email"))]))

  /** The reply of the catch block. */
  const InternalError := Response(500, Text("Internal Server Error"))

  /** The error entry each validation chain reports when its check fails. */
  const NameError := ErrorEntry(Some(NameMsg), Some("fullName"))
  const EmailError := ErrorEntry(Some(EmailMsg), Some("email"))
  const PasswordError := ErrorEntry(Some(PasswordMsg), Some("password"))

  /** The position of a chain in the handler's declaration order. */
  function ChainRank(e: ErrorEntry): nat
  {
    if e == NameError then 0 else if e == EmailError then 1 else 2
  }

  /** The three validation chains, in their declared order, and the error list
      `validationResult(req).array()` reports. */
  function Validate(body: RegisterBody, isEmail: string -> bool): (errors: seq<ErrorEntry>)
    ensures errors == [] <==>
      |body.fullName| > 0 && isEmail(body.email) && |body.password| >= MinPasswordLength
    ensures NameError in errors <==> |body.fullName| == 0
    ensures EmailError in errors <==> !isEmail(body.email)
    ensures PasswordError in errors <==> |body.password| < MinPasswordLength
    // Nothing but the three chains' errors, each at most once, in declaration order.
    ensures forall e :: e in errors ==> e in [NameError, EmailError, PasswordError]
    ensures forall i, j :: 0 <= i < j < |errors| ==> ChainRank(errors[i]) < ChainRank(errors[j])
    ensures |errors| <= 3
  {
    (if |body.fullName| == 0 then [NameError] else [])
    + (if isEmail(body.email) then [] else [EmailError])
    + (if |body.password| < MinPasswordLength then [PasswordError] else [])
  }

  /** The `isLength({ min: 8 })` check admits a password of exactly eight
      characters, although its message asks for more than eight. */
  lemma EightCharacterPasswordAccepted(body: RegisterBody, isEmail: string -> bool)
    requires |body.fullName| > 0 && isEmail(body.email) && |body.password| == 8
    ensures Validate(body, isEmail) == []
  {
  }

  /** The user collection, keyed by email, and the identifier source. */
  class UserStore {
    var users: map<string, User>
    var nextId: UserId
    const services: Services

    /** Every document sits under its own email, and identifiers are distinct
        and below the next one to be handed out. */
    ghost predicate Valid()
      reads this
    {
      (forall e :: e in users ==> users[e].email == e && users[e].id < nextId)
      && (forall e1, e2 :: e1 in users && e2 in users && users[e1].id == users[e2].id ==> e1 == e2)
    }

    constructor (services: Services)
      ensures Valid()
      ensures users == map[] && nextId == 0 && this.services == services
    {
      users := map[];
      nextId := 0;
      this.services := services;
    }

    /** `User.findOne({ email })`. */
    method FindOne(email: string) returns (found: Option<User>)
      requires Valid()
      ensures found.Some? <==> email in users
      ensures found.Some? ==> found.value == users[email] && found.value.email == email
    {
      if email in users {
        found := Some(users[email]);
      } else {
        found := None;
      }
    }

    /** The `POST /` handler. `salt` is what `bcrypt.genSalt()` yields and
        `faults` says which awaited call rejects. */
    method Register(body: RegisterBody, salt: string, faults: Faults) returns (res: Response)
      requires Valid()
      modifies this
      ensures Valid()
      // Validation runs first: its errors are returned before any lookup.
      ensures Validate(body, services.isEmail) != [] ==>
        res == Response(400, Errors(Validate(body, services.isEmail)))
        && users == old(users) && nextId == old(nextId)
      // A failing lookup lands in the catch block.
      ensures Validate(body, services.isEmail) == [] && faults.findFails ==>
        res == InternalError && users == old(users) && nextId == old(nextId)
      // A known email is refused.
      ensures Validate(body, services.isEmail) == [] && !faults.findFails && body.email in old(users) ==>
        res == DuplicateAccount && users == old(users) && nextId == old(nextId)
      // A failing genSalt, hash or save lands in the catch block and saves nothing.
      ensures (Validate(body, services.isEmail) == [] && !faults.findFails && body.email !in old(users)
               && (faults.saltFails || faults.hashFails || faults.saveFails)) ==>
        res == InternalError && users == old(users) && nextId == old(nextId)
      // Otherwise exactly one document is added, with the hashed password, and a token issued for it.
      ensures (Validate(body, services.isEmail) == [] && !faults.findFails && body.email !in old(users)
               && !faults.saltFails && !faults.hashFails && !faults.saveFails) ==>
        users == old(users)[body.email := User(old(nextId), body.fullName, body.email,
                                               services.hash(body.password, salt),
                                               services.gravatarUrl(body.email))]
        && nextId == old(nextId) + 1
        && res == Response(200, Token(services.sign(Payload(old(nextId)), services.jwtSecret, TokenLifetime)))
      // The store changes exactly when the reply is 200.
      ensures res.status == 200 <==> users != old(users)
      ensures users.Keys == if res.status == 200 then old(users).Keys + {body.email} else old(users).Keys
      ensures forall e :: e in old(users) ==> e in users && users[e] == old(users)[e]
    {
      var errors := Validate(body, services.isEmail);
      if errors != [] {
        return Response(400, Errors(errors));
      }
      if faults.findFails {
        return InternalError;
      }
      var existing := FindOne(body.email);
      if existing.Some? {
        return DuplicateAccount;
      }
      var avatar := services.gravatarUrl(body.email);
      var user := User(nextId, body.fullName, body.email, body.password, avatar);
      if faults.saltFails {
        return InternalError;
      }
      if faults.hashFails {
        return InternalError;
      }
      user := user.(password := services.hash(body.password, salt));
      if faults.saveFails {
        return InternalError;
      }
      users := users[body.email := user];
      nextId := nextId + 1;
      var payload := Payload(user.id);
      res := Response(200, Token(services.sign(payload, services.jwtSecret, TokenLifetime)));
    }

    /** Registering one body twice: once the first call has saved the user,
        the second call takes the duplicate branch and changes nothing. */
    method RegisterTwice(body: RegisterBody, salt1: string, salt2: string, faults1: Faults, faults2: Faults)
      returns (first: Response, second: Response)
      requires Valid()
      modifies this
      ensures Valid()
      ensures first.status == 200 && !faults2.findFails ==>
        second == DuplicateAccount && body.email !in old(users)
        && users == old(users)[body.email := User(old(nextId), body.fullName, body.email,
                                                  services.hash(body.password, salt1),
                                                  services.gravatarUrl(body.email))]
        && nextId == old(nextId) + 1
    {
      first := Register(body, salt1, faults1);
      ghost var saved, savedId := users, nextId;
      second := Register(body, salt2, faults2);
      assert first.status == 200 ==> users == saved && nextId == savedId;
    }
  }
}
