/**
 * The signup handler of the authentication controller. `ValidateSignup` is
 * its ordered input validation, `SignupSpec` the whole decision as a function
 * of the stored users and the request, and `Signup` the handler itself, which
 * works on the user collection and the response object step by step and is
 * proved to do what `SignupSpec` says.
 *
 * What the handler cannot see is a parameter: the deployment environment
 * (`Env`), the draw of `Math.random()` (`r`, in [0, 1)) and which of the calls
 * that can throw does throw (`Faults`).
 */
module AuthController {
  import opened Wrappers
  import opened JsText
  import opened Email
  import opened Avatar
  import opened Session
  import opened Users
  import opened Http

  /**
   * The three fields read from the request body. A field that is absent (or
   * JSON `null`) is None; any other field is a string.
   */
  datatype SignupRequest = SignupRequest(email: Option<string>, password: Option<string>, fullName: Option<string>)

  /** JavaScript truthiness of a field: present and not the empty string. */
  predicate Truthy(f: Option<string>) {
    f.Some? && f.value != ""
  }

  predicate AllFieldsPresent(req: SignupRequest) {
    Truthy(req.email) && Truthy(req.password) && Truthy(req.fullName)
  }

  const MinPasswordLength: nat := 6

  const MsgAllFieldsRequired: string := "All fields are required"
  const MsgPasswordTooShort: string := "Password must be at least 6 characters"
  const MsgInvalidEmail: string := "Invalid email format"
  const MsgEmailInUse: string := "Email already in use, Please use a different one"
  const MsgInternalError: string := "Internal Server Error"

  /** The fields of a request that passed validation. */
  datatype Credentials = Credentials(email: string, password: string, fullName: string)

  /**
   * The validation of the request, first failing check wins: all three fields
   * present, then a password of at least 6 UTF-16 code units, then an email
   * that matches `^[^\s@]+@[^\s@]+\.[^\s@]+$`.
   */
  function ValidateSignup(req: SignupRequest): (r: Result<Credentials, string>)
    ensures r == Err(MsgAllFieldsRequired) <==> !AllFieldsPresent(req)
    ensures r == Err(MsgPasswordTooShort) <==>
              AllFieldsPresent(req) && Utf16Length(req.password.value) < MinPasswordLength
    ensures r == Err(MsgInvalidEmail) <==>
              AllFieldsPresent(req) && Utf16Length(req.password.value) >= MinPasswordLength
              && !MatchesEmailRegex(req.email.value)
    ensures r.Ok? <==>
              AllFieldsPresent(req) && Utf16Length(req.password.value) >= MinPasswordLength
              && MatchesEmailRegex(req.email.value)
    ensures r.Ok? ==> r.value == Credentials(req.email.value, req.password.value, req.fullName.value)
  {
    if !AllFieldsPresent(req) then Err(MsgAllFieldsRequired)
    else if Utf16Length(req.password.value) < MinPasswordLength then Err(MsgPasswordTooShort)
    else
      IsValidEmailIff(req.email.value);
      if !IsValidEmail(req.email.value) then Err(MsgInvalidEmail)
      else Ok(Credentials(req.email.value, req.password.value, req.fullName.value))
  }

  /** Which of the calls that can throw inside the handler's `try` does throw. */
  datatype Faults = Faults(findOneThrows: bool, createThrows: bool, signThrows: bool)

  const NoFaults: Faults := Faults(false, false, false)

  /** What the handler sends: the status, the JSON body and the cookie it sets. */
  datatype Reply = Reply(status: int, body: Body, cookie: Option<Cookie>)

  /** The reply and the user collection after one signup. */
  datatype SignupResult = SignupResult(reply: Reply, users: seq<User>, nextId: nat)

  /** The user signup stores for validated `c` with avatar draw `r`. */
  function NewUser(c: Credentials, nextId: nat, r: real): (u: User)
    requires 0.0 <= r < 1.0
  {
    User(nextId, c.email, c.password, c.fullName, AvatarUrl(AvatarIndex(r)))
  }

  /**
   * Signup as one decision. A rejection (status 400) or a failure before the
   * insert (status 500) leaves the collection as it was and sets no cookie;
   * success (status 201) appends exactly the new user, answers with it and
   * sets the session cookie for it. A failure while signing the token comes
   * after the insert, so the stored user stays while the reply is 500.
   */
  function SignupSpec(users: seq<User>, nextId: nat, req: SignupRequest, env: Env, r: real, faults: Faults)
    : (out: SignupResult)
    requires 0.0 <= r < 1.0
    ensures out.reply.status == 201 || out.reply.status == 400 || out.reply.status == 500
    ensures out.reply.cookie.Some? <==> out.reply.status == 201
    ensures out.reply.body.UserBody? <==> out.reply.status == 201
    ensures users <= out.users && |out.users| <= |users| + 1
    ensures out.reply.status == 400 ==> out.users == users && out.nextId == nextId
    ensures out.reply.status == 400 ==>
              out.reply.body.MessageBody? && out.reply.body.message in
                {MsgAllFieldsRequired, MsgPasswordTooShort, MsgInvalidEmail, MsgEmailInUse}
    ensures out.reply.status == 500 ==> out.reply.body == MessageBody(MsgInternalError)
    ensures faults.findOneThrows || faults.createThrows ==> out.users == users && out.nextId == nextId
    ensures out.reply.status == 201 ==>
              var u := out.reply.body.user;
              && out.reply.body.success
              && u.id == nextId && ValidateSignup(req) == Ok(Credentials(u.email, u.password, u.fullName))
              && FindByEmail(users, u.email).None?
              && u == NewUser(ValidateSignup(req).value, nextId, r)
              && u.profilePic == AvatarUrl(AvatarIndex(r))
              && ParseAvatarUrl(u.profilePic) == Some(AvatarIndex(r))
              && out.users == users + [u] && out.nextId == nextId + 1
              && out.reply.cookie == Some(SessionCookie(Token(u.id, TokenExpiresIn), env))
  {
    match ValidateSignup(req)
    case Err(msg) => SignupResult(Reply(400, MessageBody(msg), None), users, nextId)
    case Ok(c) =>
      if faults.findOneThrows then
        SignupResult(Reply(500, MessageBody(MsgInternalError), None), users, nextId)
      else if FindByEmail(users, c.email).Some? then
        SignupResult(Reply(400, MessageBody(MsgEmailInUse), None), users, nextId)
      else if faults.createThrows then
        SignupResult(Reply(500, MessageBody(MsgInternalError), None), users, nextId)
      else
        var u := NewUser(c, nextId, r);
        AvatarUrlRoundTrip(AvatarIndex(r));
        if faults.signThrows then
          SignupResult(Reply(500, MessageBody(MsgInternalError), None), users + [u], nextId + 1)
        else
          var cookie := SessionCookie(Token(u.id, TokenExpiresIn), env);
          SignupResult(Reply(201, UserBody(true, u), Some(cookie)), users + [u], nextId + 1)
  }

  /**
   * The handler: reads the collection, may add one user to it, and writes the
   * reply into `res`, in the order the controller does.
   */
  method Signup(store: UserStore, req: SignupRequest, res: HttpResponse, env: Env, r: real, faults: Faults)
    requires store.Valid() && 0.0 <= r < 1.0
    modifies store, res
    ensures store.Valid()
    ensures var out := SignupSpec(old(store.users), old(store.nextId), req, env, r, faults);
            && store.users == out.users && store.nextId == out.nextId
            && res.statusCode == out.reply.status && res.body == Some(out.reply.body)
            && res.cookies == old(res.cookies) + (if out.reply.cookie.Some? then [out.reply.cookie.value] else [])
  {
    var checked := ValidateSignup(req);
    if checked.Err? {
      res.Status(400);
      res.Json(MessageBody(checked.error));
      return;
    }
    var c := checked.value;

    if faults.findOneThrows {
      res.Status(500);
      res.Json(MessageBody(MsgInternalError));
      return;
    }
    var existing := store.FindOne(c.email);
    if existing.Some? {
      res.Status(400);
      res.Json(MessageBody(MsgEmailInUse));
      return;
    }

    var idx := AvatarIndex(r);
    var randomAvatar := AvatarUrl(idx);

    if faults.createThrows {
      res.Status(500);
      res.Json(MessageBody(MsgInternalError));
      return;
    }
    var newUser := store.Create(c.email, c.password, c.fullName, randomAvatar);

    if faults.signThrows {
      res.Status(500);
      res.Json(MessageBody(MsgInternalError));
      return;
    }
    var token := Token(newUser.id, TokenExpiresIn);
    res.SetCookie(SessionCookie(token, env));
    res.Status(201);
    res.Json(UserBody(true, newUser));
  }

  /**
   * Validation runs before anything touches the collection: a request that
   * fails it gets that check's 400 whatever is stored and whatever would throw.
   */
  lemma ValidationPrecedesStore(users: seq<User>, nextId: nat, req: SignupRequest, env: Env, r: real, faults: Faults)
    requires 0.0 <= r < 1.0 && ValidateSignup(req).Err?
    ensures SignupSpec(users, nextId, req, env, r, faults)
            == SignupResult(Reply(400, MessageBody(ValidateSignup(req).error), None), users, nextId)
  {
  }

  /** An email already stored is refused with 400 and the collection stays as it is. */
  lemma DuplicateEmailRejected(users: seq<User>, nextId: nat, req: SignupRequest, env: Env, r: real, faults: Faults)
    requires 0.0 <= r < 1.0 && ValidateSignup(req).Ok? && !faults.findOneThrows
    requires exists u :: u in users && u.email == req.email.value
    ensures SignupSpec(users, nextId, req, env, r, faults)
            == SignupResult(Reply(400, MessageBody(MsgEmailInUse), None), users, nextId)
  {
  }

  /** A valid request for a new email succeeds when no call throws. */
  lemma FreshEmailAccepted(users: seq<User>, nextId: nat, req: SignupRequest, env: Env, r: real)
    requires 0.0 <= r < 1.0 && ValidateSignup(req).Ok?
    requires forall u :: u in users ==> u.email != req.email.value
    ensures var out := SignupSpec(users, nextId, req, env, r, NoFaults);
            && out.reply.status == 201
            && out.users == users + [NewUser(ValidateSignup(req).value, nextId, r)]
  {
  }

  /** Signup keeps the collection's invariant: emails stay unique, identifiers fresh. */
  lemma SignupKeepsWellFormed(users: seq<User>, nextId: nat, req: SignupRequest, env: Env, r: real, faults: Faults)
    requires 0.0 <= r < 1.0 && WellFormed(users, nextId)
    ensures var out := SignupSpec(users, nextId, req, env, r, faults);
            WellFormed(out.users, out.nextId)
  {
    var out := SignupSpec(users, nextId, req, env, r, faults);
    if out.users != users {
      var c := ValidateSignup(req).value;
      AppendKeepsWellFormed(users, nextId, NewUser(c, nextId, r));
    }
  }

  /**
   * Signing up twice with the same email: the first call stores the user,
   * the second (with any other password and name) is refused as a duplicate.
   */
  lemma SecondSignupRejected(users: seq<User>, nextId: nat, req: SignupRequest, req2: SignupRequest,
                             env: Env, r: real, r2: real, faults2: Faults)
    requires 0.0 <= r < 1.0 && 0.0 <= r2 < 1.0
    requires SignupSpec(users, nextId, req, env, r, NoFaults).reply.status == 201
    requires ValidateSignup(req2).Ok? && req2.email == req.email && !faults2.findOneThrows
    ensures var first := SignupSpec(users, nextId, req, env, r, NoFaults);
            SignupSpec(first.users, first.nextId, req2, env, r2, faults2)
            == SignupResult(Reply(400, MessageBody(MsgEmailInUse), None), first.users, first.nextId)
  {
    var first := SignupSpec(users, nextId, req, env, r, NoFaults);
    var u := first.reply.body.user;
    assert u in first.users;
  }

  /**
   * A throw from `findOne`, or from `create` for a new email, lands in the
   * catch block before anything is stored: 500, no cookie, nothing changed.
   */
  lemma FaultBeforeInsertFails(users: seq<User>, nextId: nat, req: SignupRequest, env: Env, r: real, faults: Faults)
    requires 0.0 <= r < 1.0 && ValidateSignup(req).Ok?
    requires faults.findOneThrows || (faults.createThrows && forall u :: u in users ==> u.email != req.email.value)
    ensures SignupSpec(users, nextId, req, env, r, faults)
            == SignupResult(Reply(500, MessageBody(MsgInternalError), None), users, nextId)
  {
  }

  /**
   * As written, the token is signed after the insert, so a signing failure
   * answers 500 while the new user remains stored.
   */
  lemma SignFailureKeepsUser(users: seq<User>, nextId: nat, req: SignupRequest, env: Env, r: real)
    requires 0.0 <= r < 1.0 && ValidateSignup(req).Ok?
    requires forall u :: u in users ==> u.email != req.email.value
    ensures var out := SignupSpec(users, nextId, req, env, r, Faults(false, false, true));
            && out.reply == Reply(500, MessageBody(MsgInternalError), None)
            && out.users == users + [NewUser(ValidateSignup(req).value, nextId, r)]
  {
  }

  /**
   * The first signup of "a@b.com" with password "secret1" and name "Ann Lee"
   * into an empty collection succeeds and stores that user, with an avatar URL
   * of the template.
   */
  lemma FirstSignupExample(env: Env, r: real)
    requires 0.0 <= r < 1.0
    ensures var out := SignupSpec([], 0, SignupRequest(Some("a@b.com"), Some("secret1"), Some("Ann Lee")), env, r, NoFaults);
            && out.reply.status == 201
            && out.reply.body.user.email == "a@b.com"
            && out.reply.body.user.fullName == "Ann Lee"
            && out.users == [out.reply.body.user]
            && out.reply.body.user.profilePic == AvatarUrl(AvatarIndex(r))
            && ParseAvatarUrl(out.reply.body.user.profilePic) == Some(AvatarIndex(r))
  {
    var req := SignupRequest(Some("a@b.com"), Some("secret1"), Some("Ann Lee"));
    assert AllFieldsPresent(req);
    Utf16LengthOfBmp("secret1");
    SimpleEmailAccepted();
    assert ValidateSignup(req) == Ok(Credentials("a@b.com", "secret1", "Ann Lee"));
    FreshEmailAccepted([], 0, req, env, r);
  }
}
