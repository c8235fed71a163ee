/** The account handlers as a pure state machine: each handler takes the
    table, the request and the results of the primitives it cannot see
    (password hashing and comparison, token issue and validation, the e-mail
    format check) and returns the response, the new table and the
    verification mail it dispatches, if any. Each handler is a chain of
    guards, each with its own rejection, followed by at most one store write. */
module Handlers {
  import opened Wrappers
  import opened Decimal
  import opened Table
  import opened Payloads
  import opened Utils
  import opened Paging
  import Store

  const StatusOK: int := 200
  const StatusCreated: int := 201
  const StatusSeeOther: int := 303
  const StatusBadRequest: int := 400
  const StatusUnauthorized: int := 401
  const StatusForbidden: int := 403
  const StatusInternalServerError: int := 500

  /** What parsing and checking a session token yields: a parse error, a token
      that parsed but is not valid, or the `userID` claim. */
  datatype SessionCheck = Unparsable | NotValid | Claims(userId: string)

  /** The primitives of the authentication package, as inputs. `hashPassword`
      is the result of the one hashing call a request makes (its salt is
      random); the others are functions of their arguments. */
  datatype Oracles = Oracles(
    isEmail: string -> bool,
    comparePasswords: (string, string) -> bool,
    hashPassword: Option<string>,
    validateVerificationToken: string -> Result<string, string>,
    generateVerificationToken: string -> Result<string, string>,
    createJwt: int -> Result<string, string>,
    parseSession: string -> SessionCheck)

  datatype Request =
    | Register(registerBody: Option<RegisterUserPayload>)
    | ResendVerificationEmail(resendBody: Option<ResendVerificationEmailPayload>)
    | VerifyAccount(token: string)
    | Login(loginBody: Option<LoginUserPayload>)
    | Logout
    | CreateSuperUser(superUserBody: Option<RegisterUserPayload>)
    | DeleteUser(deleteCaller: int, deleteId: string)
    | GetUsersPaginated(listCaller: int, page: string, pageSize: string)
    | GetUserByID(getCaller: int, getId: string)
    | IsAuthenticated(cookie: string, authorization: string)

  /** Response bodies: `{"error": ...}`, the invalid-payload body with its
      field map, `{"message": ...}`, a bare JSON string, and the success
      bodies of the individual handlers. */
  datatype Body =
    | Error(message: string)
    | InvalidPayload(invalidFields: map<string, string>)
    | Message(text: string)
    | Text(value: string)
    | Registered(email: string)
    | SessionIssued(token: string)
    | UserList(users: seq<Store.User>)
    | OneUser(user: Store.User)
    | CurrentUser(user: Store.User)
    | RedirectHome

  datatype Response = Response(status: int, body: Body)

  /** A verification e-mail handed to the mailer. */
  datatype Mail = VerificationMail(to: string, token: string)

  datatype Outcome = Outcome(response: Response, db: Db, mail: Option<Mail>)

  predicate IsRejection(out: Outcome) {
    400 <= out.response.status < 500
  }

  /** A response that leaves the table as it was and sends nothing. */
  function Reply(db: Db, status: int, body: Body): (out: Outcome)
    ensures out.db == db && out.mail.None? && out.response.status == status
  {
    Outcome(Response(status, body), db, None)
  }

  function BadRequest(db: Db, message: string): Outcome {
    Reply(db, StatusBadRequest, Error(message))
  }

  function InternalError(db: Db, message: string): Outcome {
    Reply(db, StatusInternalServerError, Error(message))
  }

  // ---------------------------------------------------------------- register

  /** handleRegister. */
  function HandleRegister(db: Db, body: Option<RegisterUserPayload>, o: Oracles): (out: Outcome)
    ensures IsRejection(out) ==> out.db == db && out.mail.None?
    ensures out.db != db ==> body.Some? && Store.GetUserByEmail(db, body.value.email).Failure?
  {
    if body.None? then BadRequest(db, "Invalid request payload")
    else
      var p := body.value;
      match ValidationFailure(Run(RegisterErrors(p, o.isEmail)))
      case Some(fields) => Reply(db, StatusBadRequest, InvalidPayload(fields))
      case None =>
        if Store.GetUserByEmail(db, p.email).Success? then
          BadRequest(db, "User with email " + p.email + " already exists")
        else if o.hashPassword.None? then InternalError(db, "Error hashing password")
        else
          var params := CreateUserParams(RoleIdOf(p.role), p.username, p.email, o.hashPassword.value,
                                         SubscriptionIdOf(p.subscription));
          match Store.CreateUser(db, params)
          case Failure(e) => InternalError(db, Store.ErrorMessage(e))
          case Success(db') =>
            match o.generateVerificationToken(p.email)
            case Failure(msg) => InternalError(db', msg)
            case Success(token) =>
              Outcome(Response(StatusCreated, Registered(p.email)), db', Some(VerificationMail(p.email, token)))
  }

  // ---------------------------------------------------------------- resend

  /** handleResendVerificationEmail. */
  function HandleResendVerificationEmail(db: Db, body: Option<ResendVerificationEmailPayload>, o: Oracles): (out: Outcome)
    ensures out.db == db
    ensures out.mail.Some? ==> out.response.status == StatusOK
  {
    if body.None? then BadRequest(db, "Invalid request payload")
    else
      var p := body.value;
      match ValidationFailure(Run(ResendErrors(p, o.isEmail)))
      case Some(fields) => Reply(db, StatusBadRequest, InvalidPayload(fields))
      case None =>
        match Store.GetUserByEmail(db, p.email)
        case Failure(_) => BadRequest(db, "User with email " + p.email + " does not exist")
        case Success(u) =>
          if u.isVerified then BadRequest(db, "User with email " + p.email + " is already verified")
          else
            match o.generateVerificationToken(p.email)
            case Failure(msg) => InternalError(db, msg)
            case Success(token) =>
              Outcome(Response(StatusOK, Message("Verification email sent")), db, Some(VerificationMail(p.email, token)))
  }

  // ---------------------------------------------------------------- verify

  /** handleVerifyAccount. */
  function HandleVerifyAccount(db: Db, token: string, o: Oracles): (out: Outcome)
    ensures out.mail.None?
    ensures out.db != db ==> out.response.status == StatusSeeOther
    ensures IsRejection(out) ==> out.db == db
  {
    if token == "" then BadRequest(db, "Token is missing")
    else
      match o.validateVerificationToken(token)
      case Failure(msg) => BadRequest(db, "Error validating verification token: " + msg)
      case Success(email) =>
        match Store.GetUserByEmail(db, email)
        case Failure(e) => BadRequest(db, "Error getting user by email: " + Store.ErrorMessage(e))
        case Success(u) =>
          if u.isVerified then BadRequest(db, "User is already verified")
          else Reply(Store.UpdateUserVerification(db, u.id), StatusSeeOther, RedirectHome)
  }

  // ---------------------------------------------------------------- login

  /** handleLogin. */
  function HandleLogin(db: Db, body: Option<LoginUserPayload>, o: Oracles): (out: Outcome)
    ensures out.db == db && out.mail.None?
  {
    if body.None? then BadRequest(db, "Invalid request payload")
    else
      var p := body.value;
      match ValidationFailure(Run(LoginErrors(p, o.isEmail)))
      case Some(fields) => Reply(db, StatusBadRequest, InvalidPayload(fields))
      case None =>
        match Store.GetUserByEmail(db, p.email)
        case Failure(_) => BadRequest(db, "You don't have an account. Please register")
        case Success(u) =>
          if !o.comparePasswords(u.passwordHash, p.password) then BadRequest(db, "Email or password is incorrect")
          else if !u.isVerified then BadRequest(db, "Please verify your email")
          else
            match o.createJwt(u.id)
            case Failure(msg) => InternalError(db, msg)
            case Success(token) => Reply(db, StatusOK, SessionIssued(token))
  }

  /** handleLogout: only clears the cookie. */
  function HandleLogout(db: Db): (out: Outcome)
    ensures out.db == db && out.response.status == StatusOK
  {
    Reply(db, StatusOK, Message("Logged out successfully"))
  }

  // ---------------------------------------------------------------- super user

  /** handleCreateSuperUser: promotes an existing account whose password
      matches, or creates an admin row for an unknown email. */
  function HandleCreateSuperUser(db: Db, body: Option<RegisterUserPayload>, o: Oracles): (out: Outcome)
    ensures IsRejection(out) ==> out.db == db
    ensures out.mail.None?
  {
    if body.None? then BadRequest(db, "Invalid request payload")
    else
      var p := body.value;
      match ValidationFailure(Run(RegisterErrors(p, o.isEmail)))
      case Some(fields) => Reply(db, StatusBadRequest, InvalidPayload(fields))
      case None =>
        if o.hashPassword.None? then InternalError(db, "Error hashing password")
        else
          match Store.GetUserByEmail(db, p.email)
          case Success(u) =>
            if !o.comparePasswords(u.passwordHash, p.password) then BadRequest(db, "Email or password is incorrect")
            else
              (match Store.GetUserRoleByID(db, u.id)
               case Failure(e) => InternalError(db, "Error getting user role by id: " + Store.ErrorMessage(e))
               case Success(role) =>
                 if role == SuperUserRole then BadRequest(db, "User is already a super user")
                 else Reply(Store.UpdateUserToSuperUser(db, u.id), StatusOK, Message("User updated to super user successfully")))
          case Failure(_) =>
            var candidate := Store.User(0, p.username, "", "", p.email, o.hashPassword.value, false, 0);
            match Store.CreateSuperUser(db, candidate)
            case Failure(e) => InternalError(db, Store.ErrorMessage(e))
            case Success(db') => Reply(db', StatusCreated, Message("Super user created successfully"))
  }

  // ---------------------------------------------------------------- privileged

  /** The privilege gate of the listing, fetch and delete handlers: the
      rejection to send, or None when the caller is a super user. */
  function Gate(db: Db, caller: int): (r: Option<Outcome>)
    ensures r.None? <==> IsSuperUser(db, caller).isSuper
    ensures r.Some? ==> r.value.db == db && r.value.mail.None?
    ensures r.Some? && IsSuperUser(db, caller).err.None? ==> r.value.response == Response(StatusForbidden, Error("Access denied"))
  {
    var priv := IsSuperUser(db, caller);
    if priv.err.Some? then Some(InternalError(db, "Error getting user role by id: " + priv.err.value))
    else if !priv.isSuper then Some(Reply(db, StatusForbidden, Error("Access denied")))
    else None
  }

  /** handleDeleteUser. */
  function HandleDeleteUser(db: Db, caller: int, idParam: string): (out: Outcome)
    ensures out.mail.None?
    ensures out.db != db ==> out.response.status == StatusOK
  {
    match Gate(db, caller)
    case Some(rejection) => rejection
    case None =>
      match Atoi(idParam)
      case Failure(e) => BadRequest(db, "Invalid id: " + AtoiMessage(idParam, e))
      case Success(n) =>
        var id := ToInt32(n);
        match Store.GetUserByID(db, id)
        case Failure(e) => BadRequest(db, Store.ErrorMessage(e))
        case Success(_) =>
          if id == caller then BadRequest(db, "You cannot delete yourself")
          else Reply(Store.DeleteUserByID(db, id), StatusOK, Message("User deleted successfully"))
  }

  /** handleGetUsersPaginated. */
  function HandleGetUsersPaginated(db: Db, caller: int, pageParam: string, pageSizeParam: string): (out: Outcome)
    ensures out.db == db && out.mail.None?
  {
    match Gate(db, caller)
    case Some(rejection) => rejection
    case None =>
      var page := PageParam(pageParam);
      var pageSize := PageSizeParam(pageSizeParam);
      match Store.GetUsersPaginated(db, page, pageSize)
      case Failure(_) => Reply(db, StatusBadRequest, Text("Error getting users by page and page size"))
      case Success(users) => Reply(db, StatusOK, UserList(users))
  }

  /** handleGetUserByID. */
  function HandleGetUserByID(db: Db, caller: int, idParam: string): (out: Outcome)
    ensures out.db == db && out.mail.None?
  {
    match Gate(db, caller)
    case Some(rejection) => rejection
    case None =>
      match Atoi(idParam)
      case Failure(e) => BadRequest(db, "Invalid id: " + AtoiMessage(idParam, e))
      case Success(n) =>
        match Store.GetUserByID(db, ToInt32(n))
        case Failure(e) => InternalError(db, "Error getting user by id: " + Store.ErrorMessage(e))
        case Success(u) => Reply(db, StatusOK, OneUser(u))
  }

  // ---------------------------------------------------------------- status

  /** The token the status endpoint checks: the `token` cookie when it is
      non-empty, otherwise the Authorization header. */
  function SessionToken(cookie: string, authorization: string): (token: string)
    ensures cookie != "" ==> token == cookie
    ensures cookie == "" ==> token == authorization
    ensures token == "" <==> cookie == "" && authorization == ""
  {
    if cookie != "" then cookie else authorization
  }

  /** handleIsAuthenticated. */
  function HandleIsAuthenticated(db: Db, cookie: string, authorization: string, o: Oracles): (out: Outcome)
    ensures out.db == db && out.mail.None?
    ensures out.response.status == StatusOK ==> SessionToken(cookie, authorization) != ""
  {
    var token := SessionToken(cookie, authorization);
    if token == "" then Reply(db, StatusUnauthorized, Error("Token is missing"))
    else
      match o.parseSession(token)
      case Unparsable => Reply(db, StatusUnauthorized, Error("Error parsing token"))
      case NotValid => Reply(db, StatusUnauthorized, Error("Token is invalid"))
      case Claims(claim) =>
        match Atoi(claim)
        case Failure(_) => InternalError(db, "Error getting user id from token")
        case Success(n) =>
          match Store.GetUserByID(db, ToInt32(n))
          case Failure(e) => InternalError(db, "Error getting user by id: " + Store.ErrorMessage(e))
          case Success(u) => Reply(db, StatusOK, CurrentUser(u))
  }

  // ---------------------------------------------------------------- dispatch

  /** One request against the table, dispatched as RegisterRoutes does. No
      rejection (a 4xx status) writes, and only a success sends mail. */
  function Step(db: Db, req: Request, o: Oracles): (out: Outcome)
    ensures IsRejection(out) ==> out.db == db
    ensures out.mail.Some? ==> out.response.status == StatusOK || out.response.status == StatusCreated
  {
    match req
    case Register(body) => HandleRegister(db, body, o)
    case ResendVerificationEmail(body) => HandleResendVerificationEmail(db, body, o)
    case VerifyAccount(token) => HandleVerifyAccount(db, token, o)
    case Login(body) => HandleLogin(db, body, o)
    case Logout => HandleLogout(db)
    case CreateSuperUser(body) => HandleCreateSuperUser(db, body, o)
    case DeleteUser(caller, id) => HandleDeleteUser(db, caller, id)
    case GetUsersPaginated(caller, page, pageSize) => HandleGetUsersPaginated(db, caller, page, pageSize)
    case GetUserByID(caller, id) => HandleGetUserByID(db, caller, id)
    case IsAuthenticated(cookie, authorization) => HandleIsAuthenticated(db, cookie, authorization, o)
  }
}
