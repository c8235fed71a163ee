/** The guard order of each handler, stated as facts about the state
    machine: which request is rejected, with which response, and that a
    rejection leaves the table alone; which request reaches the one write the
    handler makes, and what that write does. */
module Guards {
  import opened Wrappers
  import opened Decimal
  import opened Table
  import opened Payloads
  import opened Utils
  import opened Paging
  import opened Handlers
  import Store
  import Invariants

  // ---------------------------------------------------------------- register

  /** An email the lookup finds is rejected with 400, and nothing is written
      or mailed, whatever the rest of the request. */
  lemma RegisterRejectsExisting(db: Db, p: RegisterUserPayload, o: Oracles)
    requires ValidRegister(p, o.isEmail)
    requires Store.GetUserByEmail(db, p.email).Success?
    ensures HandleRegister(db, Some(p), o) == Outcome(Response(StatusBadRequest, Error("User with email " + p.email + " already exists")), db, None)
  {
  }

  /** In a valid table, an email the lookup does not find gets exactly one new
      row: unverified, with the converted role and subscription ids and the
      hash; the mail goes out exactly when the 201 does. */
  lemma RegisterCreatesOne(db: Db, p: RegisterUserPayload, o: Oracles)
    requires Valid(db)
    requires ValidRegister(p, o.isEmail)
    requires Store.GetUserByEmail(db, p.email).Failure?
    requires o.hashPassword.Some?
    ensures var out := HandleRegister(db, Some(p), o);
            && out.db.rows == db.rows + [Row(db.nextId, RoleIdOf(p.role), p.username, p.email, o.hashPassword.value,
                                              SubscriptionIdOf(p.subscription), false, db.nextId)]
            && (out.response.status == StatusCreated <==> o.generateVerificationToken(p.email).Success?)
            && (out.response.status != StatusCreated ==> out.response.status == StatusInternalServerError)
            && (out.mail.Some? <==> out.response.status == StatusCreated)
            && (out.mail.Some? ==> out.mail.value.to == p.email)
  {
    var params := CreateUserParams(RoleIdOf(p.role), p.username, p.email, o.hashPassword.value, SubscriptionIdOf(p.subscription));
    forall i | 0 <= i < |db.rows|
      ensures db.rows[i].email != p.email
    {
      assert Visible(db, db.rows[i]);
    }
    var created := Table.CreateUser(db, params);
    assert created.Success?;
    assert created.value.rows == db.rows + [created.value.rows[|db.rows|]];
  }

  // ---------------------------------------------------------------- verify

  /** Only a token that validates to the email of a pending user reaches the
      write, and the write verifies that user's own id; every other request
      is a 400 that leaves the table alone. */
  lemma VerifyWritesOnlyPending(db: Db, token: string, o: Oracles)
    ensures var out := HandleVerifyAccount(db, token, o);
            var check := o.validateVerificationToken(token);
            && (out.response.status == StatusSeeOther <==>
                  token != "" && check.Success? && Store.GetUserByEmail(db, check.value).Success?
                  && !Store.GetUserByEmail(db, check.value).value.isVerified)
            && (out.response.status == StatusSeeOther ==>
                  out.db == Store.UpdateUserVerification(db, Store.GetUserByEmail(db, check.value).value.id))
            && (out.response.status != StatusSeeOther ==> out.response.status == StatusBadRequest && out.db == db)
  {
  }

  /** In a valid table, after a successful verification the user the token
      names reads back as verified. */
  lemma VerifiedReadsBack(db: Db, token: string, o: Oracles)
    requires Valid(db)
    requires HandleVerifyAccount(db, token, o).response.status == StatusSeeOther
    ensures var email := o.validateVerificationToken(token).value;
            var after := Store.GetUserByEmail(HandleVerifyAccount(db, token, o).db, email);
            after.Success? && after.value.isVerified
  {
    VerifyWritesOnlyPending(db, token, o);
    VerificationReadsBack(db, o.validateVerificationToken(token).value);
  }

  /** Verifying the id the email lookup returns makes that lookup read back
      verified. */
  lemma VerificationReadsBack(db: Db, email: string)
    requires Valid(db)
    requires Store.GetUserByEmail(db, email).Success?
    ensures var after := Store.GetUserByEmail(Store.UpdateUserVerification(db, Store.GetUserByEmail(db, email).value.id), email);
            after.Success? && after.value.isVerified
  {
    var u := Store.GetUserByEmail(db, email).value;
    var i :| 0 <= i < |db.rows| && db.rows[i].email == email && Visible(db, db.rows[i]) && Store.UserOf(db, db.rows[i]) == u;
    var db' := Store.UpdateUserVerification(db, u.id);
    Invariants.VerificationKeepsValid(db, u.id);
    assert db'.rows[i].email == email && db'.rows[i].isVerified;
    Invariants.LookupByEmailUnique(db', i);
  }

  // ---------------------------------------------------------------- resend

  /** A verification mail is sent exactly to an existing, unverified user
      whose token was issued, and never changes the table. */
  lemma ResendMailsOnlyPending(db: Db, p: ResendVerificationEmailPayload, o: Oracles)
    ensures var out := HandleResendVerificationEmail(db, Some(p), o);
            var user := Store.GetUserByEmail(db, p.email);
            && (out.mail.Some? <==>
                  ValidEmail(p.email, o.isEmail) && user.Success? && !user.value.isVerified
                  && o.generateVerificationToken(p.email).Success?)
            && (out.mail.Some? ==> out.mail.value == VerificationMail(p.email, o.generateVerificationToken(p.email).value))
            && (ValidEmail(p.email, o.isEmail) && user.Failure? ==>
                  out.response == Response(StatusBadRequest, Error("User with email " + p.email + " does not exist")))
            && (ValidEmail(p.email, o.isEmail) && user.Success? && user.value.isVerified ==>
                  out.response == Response(StatusBadRequest, Error("User with email " + p.email + " is already verified")))
  {
  }

  // ---------------------------------------------------------------- login

  /** A session token is issued only to an existing, verified user whose
      password matches; a wrong password is reported before a missing
      verification. */
  lemma LoginDecision(db: Db, p: LoginUserPayload, o: Oracles)
    ensures var out := HandleLogin(db, Some(p), o);
            var user := Store.GetUserByEmail(db, p.email);
            && (out.response.body.SessionIssued? <==>
                  ValidEmail(p.email, o.isEmail) && p.password != "" && user.Success?
                  && o.comparePasswords(user.value.passwordHash, p.password) && user.value.isVerified
                  && o.createJwt(user.value.id).Success?)
            && (ValidEmail(p.email, o.isEmail) && p.password != "" && user.Success?
                && !o.comparePasswords(user.value.passwordHash, p.password) ==>
                  out.response == Response(StatusBadRequest, Error("Email or password is incorrect")))
            && (ValidEmail(p.email, o.isEmail) && p.password != "" && user.Failure? ==>
                  out.response == Response(StatusBadRequest, Error("You don't have an account. Please register")))
  {
  }

  // ---------------------------------------------------------------- super user

  /** An existing account with the wrong password is refused with 400 and is
      not promoted. */
  lemma SuperUserWrongPassword(db: Db, p: RegisterUserPayload, o: Oracles)
    requires ValidRegister(p, o.isEmail) && o.hashPassword.Some?
    requires Store.GetUserByEmail(db, p.email).Success?
    requires !o.comparePasswords(Store.GetUserByEmail(db, p.email).value.passwordHash, p.password)
    ensures HandleCreateSuperUser(db, Some(p), o) == Outcome(Response(StatusBadRequest, Error("Email or password is incorrect")), db, None)
  {
  }

  /** An existing super user is refused with 400 and nothing changes. */
  lemma SuperUserAlreadySuper(db: Db, p: RegisterUserPayload, o: Oracles)
    requires ValidRegister(p, o.isEmail) && o.hashPassword.Some?
    requires Store.GetUserByEmail(db, p.email).Success?
    requires o.comparePasswords(Store.GetUserByEmail(db, p.email).value.passwordHash, p.password)
    requires Store.GetUserRoleByID(db, Store.GetUserByEmail(db, p.email).value.id) == Success(SuperUserRole)
    ensures HandleCreateSuperUser(db, Some(p), o) == Outcome(Response(StatusBadRequest, Error("User is already a super user")), db, None)
  {
  }

  /** An existing account whose password matches and which is not yet a
      super user is promoted with 200, and the promotion is the only write. */
  lemma SuperUserPromotes(db: Db, p: RegisterUserPayload, o: Oracles)
    requires ValidRegister(p, o.isEmail) && o.hashPassword.Some?
    requires Store.GetUserByEmail(db, p.email).Success?
    requires o.comparePasswords(Store.GetUserByEmail(db, p.email).value.passwordHash, p.password)
    requires Store.GetUserRoleByID(db, Store.GetUserByEmail(db, p.email).value.id) != Success(SuperUserRole)
    ensures var id := Store.GetUserByEmail(db, p.email).value.id;
            HandleCreateSuperUser(db, Some(p), o)
              == Outcome(Response(StatusOK, Message("User updated to super user successfully")), Store.UpdateUserToSuperUser(db, id), None)
  {
  }

  /** In a valid table where role 4 is "super_user", the promoted account then
      passes the privilege check, and only its role changed. */
  lemma PromotedPassesCheck(db: Db, p: RegisterUserPayload, o: Oracles)
    requires Valid(db) && AdminIsSuperUser(db)
    requires ValidRegister(p, o.isEmail) && o.hashPassword.Some?
    requires Store.GetUserByEmail(db, p.email).Success?
    requires o.comparePasswords(Store.GetUserByEmail(db, p.email).value.passwordHash, p.password)
    requires Store.GetUserRoleByID(db, Store.GetUserByEmail(db, p.email).value.id) != Success(SuperUserRole)
    ensures var id := Store.GetUserByEmail(db, p.email).value.id;
            var out := HandleCreateSuperUser(db, Some(p), o);
            WritesOnly(db, out.db, id, RoleIdColumn) && IsSuperUser(out.db, id).isSuper
  {
    var u := Store.GetUserByEmail(db, p.email).value;
    SuperUserPromotes(db, p, o);
    var i :| 0 <= i < |db.rows| && db.rows[i].email == p.email && Visible(db, db.rows[i]) && u == Store.UserOf(db, db.rows[i]);
    PromotedIsSuperUser(db, u.id, i);
  }

  /** In a valid table where role 4 is "super_user", promoting an existing id
      makes the privilege check admit it. */
  lemma PromotedIsSuperUser(db: Db, id: int, i: nat)
    requires Valid(db) && AdminIsSuperUser(db)
    requires i < |db.rows| && db.rows[i].userId == id
    ensures IsSuperUser(Store.UpdateUserToSuperUser(db, id), id).isSuper
  {
    var db' := Store.UpdateUserToSuperUser(db, id);
    assert db'.rows[i].userId == id && db'.rows[i].roleId == AdminRoleId;
    Invariants.PromoteKeepsValid(db, id);
    IsSuperUserOfValid(db', id);
  }

  /** A row appended with the next id is the only row holding that id. */
  lemma AppendedIdUnique(db: Db, db': Db)
    requires Valid(db)
    requires |db'.rows| == |db.rows| + 1 && db'.rows[..|db.rows|] == db.rows
    requires db'.rows[|db.rows|].userId == db.nextId
    ensures forall k :: 0 <= k < |db'.rows| && db'.rows[k].userId == db.nextId ==> k == |db.rows|
  {
    forall k | 0 <= k < |db.rows|
      ensures db'.rows[k].userId != db.nextId
    {
      assert db'.rows[k] == db.rows[k];
    }
  }

  /** Where role 4 is "super_user", an admin row appended with the next id
      passes the privilege check. */
  lemma AppendedAdminIsSuperUser(db: Db, db': Db)
    requires Valid(db) && AdminIsSuperUser(db')
    requires |db'.rows| == |db.rows| + 1 && db'.rows[..|db.rows|] == db.rows
    requires db'.rows[|db.rows|].userId == db.nextId && db'.rows[|db.rows|].roleId == AdminRoleId
    ensures IsSuperUser(db', db.nextId).isSuper
  {
    AppendedIdUnique(db, db');
    var r := Store.GetUserRoleByID(db', db.nextId);
    assert r.Success? by {
      assert db'.rows[|db.rows|].roleId in db'.roles;
    }
    var k :| 0 <= k < |db'.rows| && db'.rows[k].userId == db.nextId && db'.rows[k].roleId in db'.roles
             && r.value == db'.roles[db'.rows[k].roleId];
    assert k == |db.rows|;
  }

  /** In a valid table where role 4 is "super_user", an unknown email gets one
      new admin row (role 4, subscription 1, unverified) whose id the privilege
      check admits. */
  lemma SuperUserCreates(db: Db, p: RegisterUserPayload, o: Oracles)
    requires Valid(db) && AdminIsSuperUser(db)
    requires ValidRegister(p, o.isEmail) && o.hashPassword.Some?
    requires Store.GetUserByEmail(db, p.email).Failure?
    ensures var out := HandleCreateSuperUser(db, Some(p), o);
            && out.response == Response(StatusCreated, Message("Super user created successfully"))
            && out.db.rows == db.rows + [Row(db.nextId, AdminRoleId, p.username, p.email, o.hashPassword.value,
                                              AdminSubscriptionId, false, db.nextId)]
            && IsSuperUser(out.db, db.nextId).isSuper
  {
    forall i | 0 <= i < |db.rows|
      ensures db.rows[i].email != p.email
    {
      assert Visible(db, db.rows[i]);
    }
    var candidate := Store.User(0, p.username, "", "", p.email, o.hashPassword.value, false, 0);
    var created := Store.CreateSuperUser(db, candidate);
    assert created.Success?;
    var db' := created.value;
    assert db'.rows == db.rows + [db'.rows[|db.rows|]];
    AppendedAdminIsSuperUser(db, db');
  }

  // ---------------------------------------------------------------- privileged

  /** A caller the privilege check reads as an ordinary user gets 403 from
      delete, listing and get-by-id, before any id is parsed or any target is
      looked at, and nothing changes. */
  lemma NonSuperUserForbidden(db: Db, caller: int, id: string, page: string, pageSize: string)
    requires IsSuperUser(db, caller) == Privilege(false, None)
    ensures HandleDeleteUser(db, caller, id) == Outcome(Response(StatusForbidden, Error("Access denied")), db, None)
    ensures HandleGetUserByID(db, caller, id) == Outcome(Response(StatusForbidden, Error("Access denied")), db, None)
    ensures HandleGetUsersPaginated(db, caller, page, pageSize) == Outcome(Response(StatusForbidden, Error("Access denied")), db, None)
  {
  }

  /** In a valid table a super user who names their own id is refused with
      400 and keeps their record. */
  lemma SelfDeleteRejected(db: Db, caller: int, id: string)
    requires Valid(db)
    requires IsSuperUser(db, caller).isSuper
    requires Atoi(id).Success? && ToInt32(Atoi(id).value) == caller
    ensures HandleDeleteUser(db, caller, id) == Outcome(Response(StatusBadRequest, Error("You cannot delete yourself")), db, None)
    ensures Store.GetUserByID(HandleDeleteUser(db, caller, id).db, caller).Success?
  {
    IsSuperUserOfValid(db, caller);
    var i :| 0 <= i < |db.rows| && db.rows[i].userId == caller && db.roles[db.rows[i].roleId] == SuperUserRole;
    assert Visible(db, db.rows[i]);
  }

  /** For a super user, delete answers 400 with Atoi's error for an id that
      does not parse; otherwise it looks up the int32 of the parsed id: a
      miss is 400 "user not found", the caller's own id is 400 "You cannot
      delete yourself", and any other existing id is deleted with 200. */
  lemma DeleteUserDecision(db: Db, caller: int, id: string)
    requires IsSuperUser(db, caller).isSuper
    ensures Atoi(id).Failure? ==>
              HandleDeleteUser(db, caller, id) ==
                Outcome(Response(StatusBadRequest, Error("Invalid id: " + AtoiMessage(id, Atoi(id).error))), db, None)
    ensures Atoi(id).Success? ==>
              var target := ToInt32(Atoi(id).value);
              var out := HandleDeleteUser(db, caller, id);
              && (Store.GetUserByID(db, target).Failure? ==>
                    out == Outcome(Response(StatusBadRequest, Error("user not found")), db, None))
              && (Store.GetUserByID(db, target).Success? && target == caller ==>
                    out == Outcome(Response(StatusBadRequest, Error("You cannot delete yourself")), db, None))
              && (Store.GetUserByID(db, target).Success? && target != caller ==>
                    out == Outcome(Response(StatusOK, Message("User deleted successfully")), Store.DeleteUserByID(db, target), None))
  {
  }

  /** A delete that succeeds removes exactly the rows of the named id, which
      is never the caller's. */
  lemma DeleteRemovesOnlyTarget(db: Db, caller: int, id: string)
    requires HandleDeleteUser(db, caller, id).response.status == StatusOK
    ensures Atoi(id).Success? && ToInt32(Atoi(id).value) != caller
    ensures var target := ToInt32(Atoi(id).value);
            var out := HandleDeleteUser(db, caller, id);
            && out.db == Store.DeleteUserByID(db, target)
            && (forall r :: r in out.db.rows <==> r in db.rows && r.userId != target)
            && (forall r :: r in db.rows && r.userId == caller ==> r in out.db.rows)
  {
  }

  /** For a super user the listing, with the offset computed without
      wrap-around, never fails: the normalised page and page size give a
      non-negative offset; the page holds the listing entries from that offset
      on, a full page while the listing lasts and its remainder where it ends. */
  lemma ListingForSuperUser(db: Db, caller: int, page: string, pageSize: string)
    requires IsSuperUser(db, caller).isSuper
    ensures var out := HandleGetUsersPaginated(db, caller, page, pageSize);
            var offset := Store.Offset(PageParam(page), PageSizeParam(pageSize));
            var size := PageSizeParam(pageSize);
            && out.response.status == StatusOK && out.response.body.UserList?
            && Store.GetUsersPaginated(db, PageParam(page), size) == Success(out.response.body.users)
            && (forall k :: 0 <= k < |out.response.body.users| ==>
                  offset + k < |Listing(db)| && out.response.body.users[k] == Store.FromListRow(Listing(db)[offset + k]))
            && (offset + size <= |Listing(db)| ==> |out.response.body.users| == size)
            && (offset < |Listing(db)| < offset + size ==> |out.response.body.users| == |Listing(db)| - offset)
            && (offset >= |Listing(db)| ==> out.response.body.users == [])
  {
  }

  /** For a super user, get-by-id answers 400 with Atoi's error for an id that
      does not parse; otherwise it looks up the int32 of the parsed id and
      answers 200 with exactly that user when a joined row holds the id, and 500
      "user not found" when none does. Nothing is written or mailed. */
  lemma GetUserByIDDecision(db: Db, caller: int, id: string)
    requires IsSuperUser(db, caller).isSuper
    ensures var out := HandleGetUserByID(db, caller, id);
            && out.db == db && out.mail.None?
            && (Atoi(id).Failure? ==>
                  out.response == Response(StatusBadRequest, Error("Invalid id: " + AtoiMessage(id, Atoi(id).error))))
    ensures Atoi(id).Success? ==>
              var target := ToInt32(Atoi(id).value);
              var out := HandleGetUserByID(db, caller, id);
              && ((exists i :: 0 <= i < |db.rows| && db.rows[i].userId == target && Visible(db, db.rows[i])) ==>
                    && out.response.status == StatusOK && out.response.body.OneUser?
                    && out.response.body.user.id == target
                    && exists i :: 0 <= i < |db.rows| && db.rows[i].userId == target && Visible(db, db.rows[i])
                                   && out.response.body.user == Store.UserOf(db, db.rows[i]))
              && ((forall i :: 0 <= i < |db.rows| ==> !(db.rows[i].userId == target && Visible(db, db.rows[i]))) ==>
                    out.response == Response(StatusInternalServerError, Error("Error getting user by id: user not found")))
  {
    if Atoi(id).Success? {
      var r := Store.GetUserByID(db, ToInt32(Atoi(id).value));
      if r.Failure? {
        assert Store.ErrorMessage(r.error) == "user not found";
        assert HandleGetUserByID(db, caller, id) == Outcome(Response(StatusInternalServerError,
          Error("Error getting user by id: " + "user not found")), db, None);
        assert "Error getting user by id: " + "user not found" == "Error getting user by id: user not found";
      }
    }
  }

  // ---------------------------------------------------------------- status

  /** A non-empty cookie decides the outcome whatever the Authorization
      header holds; with no cookie the header is checked exactly as a cookie
      would be; with neither the answer is 401 "Token is missing". */
  lemma StatusTokenPrecedence(db: Db, cookie: string, header: string, other: string, o: Oracles)
    ensures cookie != "" ==> HandleIsAuthenticated(db, cookie, header, o) == HandleIsAuthenticated(db, cookie, other, o)
    ensures HandleIsAuthenticated(db, "", header, o) == HandleIsAuthenticated(db, header, "", o)
    ensures HandleIsAuthenticated(db, "", "", o) == Outcome(Response(StatusUnauthorized, Error("Token is missing")), db, None)
  {
  }
}
