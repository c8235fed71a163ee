/** The life of one account, seen through its email: absent, registered but
    pending verification, or verified. Every request moves an account along
    Unregistered -> Pending -> Verified or deletes it, and never back from
    Verified to Pending. */
module Lifecycle {
  import opened Wrappers
  import opened Table
  import opened Payloads
  import opened Utils
  import opened Handlers
  import Store
  import Invariants

  datatype Account = Unregistered | Pending | Verified

  function StateOf(r: Row): Account {
    if r.isVerified then Verified else Pending
  }

  /** The state of the account registered under `email`. */
  function AccountOf(db: Db, email: string): (a: Account)
    ensures a == Unregistered <==> forall i :: 0 <= i < |db.rows| ==> db.rows[i].email != email
    ensures a != Unregistered ==> exists i :: 0 <= i < |db.rows| && db.rows[i].email == email && a == StateOf(db.rows[i])
  {
    match IndexWhere(db.rows, (r: Row) => r.email == email)
    case None => Unregistered
    case Some(i) => StateOf(db.rows[i])
  }

  /** The moves an account can make in one request. */
  predicate Allowed(s: Account, t: Account) {
    || s == t
    || (s == Unregistered && t == Pending)
    || (s == Pending && t == Verified)
    || t == Unregistered
  }

  /** In a valid table emails are unique, so the account of a row's email is
      that row's state. */
  lemma AccountOfRow(db: Db, i: nat)
    requires Valid(db) && i < |db.rows|
    ensures AccountOf(db, db.rows[i].email) == StateOf(db.rows[i])
  {
    var e := db.rows[i].email;
    var j :| 0 <= j < |db.rows| && db.rows[j].email == e && AccountOf(db, e) == StateOf(db.rows[j]);
  }

  /** Appending an unverified row with a fresh email opens a pending account
      for that email and leaves every other account as it was. */
  lemma AppendAccount(db: Db, db': Db, row: Row, e: string)
    requires Valid(db) && db'.rows == db.rows + [row] && !row.isVerified
    requires forall i :: 0 <= i < |db.rows| ==> db.rows[i].email != row.email
    ensures AccountOf(db', e) == if e == row.email then Pending else AccountOf(db, e)
  {
    var n := |db.rows|;
    forall j | 0 <= j < n
      ensures db'.rows[j] == db.rows[j]
    {
    }
    if e == row.email {
      assert db'.rows[n].email == e;
      var j :| 0 <= j < |db'.rows| && db'.rows[j].email == e && AccountOf(db', e) == StateOf(db'.rows[j]);
      assert j == n;
    } else if AccountOf(db', e) != Unregistered {
      var j :| 0 <= j < |db'.rows| && db'.rows[j].email == e && AccountOf(db', e) == StateOf(db'.rows[j]);
      assert j < n;
      AccountOfRow(db, j);
    }
  }

  /** An update that keeps every email in place and never clears a
      verification can only move a pending account to verified; one that
      keeps every verification flag moves nothing. */
  lemma UpdateAccount(db: Db, db': Db, e: string)
    requires Valid(db) && |db'.rows| == |db.rows|
    requires forall i :: 0 <= i < |db.rows| ==> db'.rows[i].email == db.rows[i].email
    requires forall i :: 0 <= i < |db.rows| ==> db.rows[i].isVerified ==> db'.rows[i].isVerified
    ensures AccountOf(db', e) == AccountOf(db, e) || (AccountOf(db, e) == Pending && AccountOf(db', e) == Verified)
    ensures (forall i :: 0 <= i < |db.rows| ==> db'.rows[i].isVerified == db.rows[i].isVerified) ==>
              AccountOf(db', e) == AccountOf(db, e)
  {
    if AccountOf(db', e) != Unregistered {
      var j :| 0 <= j < |db'.rows| && db'.rows[j].email == e && AccountOf(db', e) == StateOf(db'.rows[j]);
      AccountOfRow(db, j);
    }
  }

  /** Removing rows can only close an account. */
  lemma ShrinkAccount(db: Db, db': Db, e: string)
    requires Valid(db)
    requires forall r :: r in db'.rows ==> r in db.rows
    ensures AccountOf(db', e) == AccountOf(db, e) || AccountOf(db', e) == Unregistered
  {
    if AccountOf(db', e) != Unregistered {
      var j :| 0 <= j < |db'.rows| && db'.rows[j].email == e && AccountOf(db', e) == StateOf(db'.rows[j]);
      assert db'.rows[j] in db.rows;
      var k :| 0 <= k < |db.rows| && db.rows[k] == db'.rows[j];
      AccountOfRow(db, k);
    }
  }

  // ---------------------------------------------------------------- per handler

  /** Registration can only open a pending account. */
  lemma RegisterLifecycle(db: Db, body: Option<RegisterUserPayload>, o: Oracles, e: string)
    requires Valid(db)
    ensures var t := AccountOf(HandleRegister(db, body, o).db, e);
            t == AccountOf(db, e) || (AccountOf(db, e) == Unregistered && t == Pending)
  {
    var db' := HandleRegister(db, body, o).db;
    if body.Some? && db' != db {
      var p := body.value;
      Invariants.RegisterWrites(db, p, o);
      var created := Table.CreateUser(db, CreateUserParams(RoleIdOf(p.role), p.username, p.email,
                                                            if o.hashPassword.Some? then o.hashPassword.value else "",
                                                            SubscriptionIdOf(p.subscription)));
      AppendAccount(db, created.value, created.value.rows[|db.rows|], e);
    }
  }

  /** The only writes the super-user handler makes: the promotion of the
      account the email finds, or the insert of an admin row for it. */
  lemma CreateSuperUserWrites(db: Db, p: RegisterUserPayload, o: Oracles)
    ensures var out := HandleCreateSuperUser(db, Some(p), o);
            var found := Store.GetUserByEmail(db, p.email);
            var created := Table.CreateUser(db, CreateUserParams(AdminRoleId, p.username, p.email,
                                                                  if o.hashPassword.Some? then o.hashPassword.value else "",
                                                                  AdminSubscriptionId));
            || out.db == db
            || (found.Success? && out.db == Store.UpdateUserToSuperUser(db, found.value.id))
            || (found.Failure? && created.Success? && out.db == created.value)
  {
  }

  /** Creating or promoting a super user can only open a pending account. */
  lemma CreateSuperUserLifecycle(db: Db, body: Option<RegisterUserPayload>, o: Oracles, e: string)
    requires Valid(db)
    ensures var t := AccountOf(HandleCreateSuperUser(db, body, o).db, e);
            t == AccountOf(db, e) || (AccountOf(db, e) == Unregistered && t == Pending)
  {
    var db' := HandleCreateSuperUser(db, body, o).db;
    if body.Some? {
      var p := body.value;
      CreateSuperUserWrites(db, p, o);
      var found := Store.GetUserByEmail(db, p.email);
      if db' == db {
      } else if found.Success? {
        PromotionKeepsAccounts(db, found.value.id, e);
      } else {
        var created := Table.CreateUser(db, CreateUserParams(AdminRoleId, p.username, p.email,
                                                              if o.hashPassword.Some? then o.hashPassword.value else "",
                                                              AdminSubscriptionId));
        AppendAccount(db, created.value, created.value.rows[|db.rows|], e);
      }
    }
  }

  /** A promotion moves no account. */
  lemma PromotionKeepsAccounts(db: Db, id: int, e: string)
    requires Valid(db)
    ensures AccountOf(Store.UpdateUserToSuperUser(db, id), e) == AccountOf(db, e)
  {
    UpdateAccount(db, Store.UpdateUserToSuperUser(db, id), e);
  }

  /** Verification can only move a pending account to verified. */
  lemma VerifyAccountLifecycle(db: Db, token: string, o: Oracles, e: string)
    requires Valid(db)
    ensures var t := AccountOf(HandleVerifyAccount(db, token, o).db, e);
            t == AccountOf(db, e) || (AccountOf(db, e) == Pending && t == Verified)
  {
    var check := o.validateVerificationToken(token);
    if check.Success? && Store.GetUserByEmail(db, check.value).Success? {
      UpdateAccount(db, Store.UpdateUserVerification(db, Store.GetUserByEmail(db, check.value).value.id), e);
    }
  }

  /** Deletion can only close an account. */
  lemma DeleteUserLifecycle(db: Db, caller: int, id: string, e: string)
    requires Valid(db)
    ensures var t := AccountOf(HandleDeleteUser(db, caller, id).db, e);
            t == AccountOf(db, e) || t == Unregistered
  {
    if Decimal.Atoi(id).Success? {
      ShrinkAccount(db, Store.DeleteUserByID(db, Decimal.ToInt32(Decimal.Atoi(id).value)), e);
    }
  }

  /** Every request moves every account along the lifecycle: only
      verification verifies, only registration and super-user creation open
      an account, and only deletion closes one. */
  lemma StepFollowsLifecycle(db: Db, req: Request, o: Oracles, e: string)
    requires Valid(db)
    ensures var s := AccountOf(db, e);
            var t := AccountOf(Step(db, req, o).db, e);
            && Allowed(s, t)
            && (s != Verified && t == Verified ==> req.VerifyAccount?)
            && (s == Unregistered && t != Unregistered ==> req.Register? || req.CreateSuperUser?)
            && (s != Unregistered && t == Unregistered ==> req.DeleteUser?)
  {
    match req
    case Register(body) => RegisterLifecycle(db, body, o, e);
    case VerifyAccount(token) => VerifyAccountLifecycle(db, token, o, e);
    case CreateSuperUser(body) => CreateSuperUserLifecycle(db, body, o, e);
    case DeleteUser(caller, id) => DeleteUserLifecycle(db, caller, id, e);
    case _ =>
  }

  // ---------------------------------------------------------------- traces

  /** One request together with the primitives' answers to it. */
  datatype Call = Call(req: Request, oracles: Oracles)

  /** The table after a sequence of requests. */
  function Replay(db: Db, calls: seq<Call>): Db
    decreases |calls|
  {
    if |calls| == 0 then db
    else Replay(Step(db, calls[0].req, calls[0].oracles).db, calls[1..])
  }

  /** Any sequence of requests keeps the table valid. */
  lemma {:induction false} ReplayKeepsValid(db: Db, calls: seq<Call>)
    requires Valid(db)
    ensures Valid(Replay(db, calls))
    decreases |calls|
  {
    if |calls| > 0 {
      Invariants.StepKeepsValid(db, calls[0].req, calls[0].oracles);
      ReplayKeepsValid(Step(db, calls[0].req, calls[0].oracles).db, calls[1..]);
    }
  }

  /** Verification is one-way: a verified account stays verified through any
      sequence of requests that deletes nobody. */
  lemma {:induction false} VerifiedStaysVerified(db: Db, calls: seq<Call>, e: string)
    requires Valid(db) && AccountOf(db, e) == Verified
    requires forall k :: 0 <= k < |calls| ==> !calls[k].req.DeleteUser?
    ensures AccountOf(Replay(db, calls), e) == Verified
    decreases |calls|
  {
    if |calls| > 0 {
      var next := Step(db, calls[0].req, calls[0].oracles).db;
      StepFollowsLifecycle(db, calls[0].req, calls[0].oracles, e);
      Invariants.StepKeepsValid(db, calls[0].req, calls[0].oracles);
      assert forall k :: 0 <= k < |calls[1..]| ==> calls[1..][k] == calls[k + 1];
      VerifiedStaysVerified(next, calls[1..], e);
    }
  }
}
