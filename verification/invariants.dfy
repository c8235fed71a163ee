/** The table invariant `Valid` is kept by every store write the handlers
    make, and so by every request. */
module Invariants {
  import opened Wrappers
  import opened Table
  import opened Payloads
  import opened Utils
  import opened Handlers
  import Store
  import TableFacts

  /** An insert with catalogued role and subscription ids keeps the table valid:
      the new row takes the next id, a fresh email and resolvable ids. */
  lemma InsertKeepsValid(db: Db, p: CreateUserParams)
    requires Valid(db)
    requires 1 <= p.roleId <= 4 && 1 <= p.subscriptionId <= 4
    ensures Table.CreateUser(db, p).Success? ==> Valid(Table.CreateUser(db, p).value)
  {
    var r := Table.CreateUser(db, p);
    if r.Success? {
      var db' := r.value;
      var n := |db.rows|;
      var row := db'.rows[n];
      assert Visible(db', row);
      forall i | 0 <= i < n
        ensures db'.rows[i] == db.rows[i] && db.rows[i].email != p.email
      {
        assert db'.rows[..n][i] == db.rows[i];
      }
      forall i | 0 <= i < |db'.rows|
        ensures db'.rows[i].userId < db'.nextId && db'.rows[i].createdAt < db'.nextId && Visible(db', db'.rows[i])
      {
        if i < n {
          assert Visible(db, db.rows[i]);
        }
      }
      forall i, j | 0 <= i < j < |db'.rows|
        ensures Ordered(db'.rows[i], db'.rows[j])
      {
        if j < n {
          assert Ordered(db.rows[i], db.rows[j]);
        }
      }
    }
  }

  /** An update keeps the table valid when the rows it leaves behind all
      survive the joins: ids, creation times and emails are untouched. */
  lemma UpdateKeepsValid(db: Db, db': Db, id: int, c: Column)
    requires Valid(db) && WritesOnly(db, db', id, c)
    requires forall i :: 0 <= i < |db'.rows| ==> Visible(db', db'.rows[i])
    ensures Valid(db')
  {
    forall i, j | 0 <= i < j < |db'.rows|
      ensures Ordered(db'.rows[i], db'.rows[j])
    {
      assert Ordered(db.rows[i], db.rows[j]);
    }
  }

  /** Promotion writes role 4, which the catalog holds. */
  lemma PromoteKeepsValid(db: Db, id: int)
    requires Valid(db)
    ensures Valid(Store.UpdateUserToSuperUser(db, id))
  {
    var db' := Store.UpdateUserToSuperUser(db, id);
    forall i | 0 <= i < |db'.rows|
      ensures Visible(db', db'.rows[i])
    {
      assert Visible(db, db.rows[i]);
    }
    UpdateKeepsValid(db, db', id, RoleIdColumn);
  }

  /** Demotion writes role 1, which the catalog holds. */
  lemma DemoteKeepsValid(db: Db, id: int)
    requires Valid(db)
    ensures Valid(Store.UpdateUserToNormalUser(db, id))
  {
    var db' := Store.UpdateUserToNormalUser(db, id);
    forall i | 0 <= i < |db'.rows|
      ensures Visible(db', db'.rows[i])
    {
      assert Visible(db, db.rows[i]);
    }
    UpdateKeepsValid(db, db', id, RoleIdColumn);
  }

  /** Verification touches no column the joins read. */
  lemma VerificationKeepsValid(db: Db, id: int)
    requires Valid(db)
    ensures Valid(Store.UpdateUserVerification(db, id))
  {
    var db' := Store.UpdateUserVerification(db, id);
    forall i | 0 <= i < |db'.rows|
      ensures Visible(db', db'.rows[i])
    {
      assert Visible(db, db.rows[i]);
    }
    UpdateKeepsValid(db, db', id, IsVerifiedColumn);
  }

  /** Deleting rows keeps the rest ordered, bounded and visible. */
  lemma DeleteKeepsValid(db: Db, id: int)
    requires Valid(db)
    ensures Valid(Store.DeleteUserByID(db, id))
  {
    var db' := Store.DeleteUserByID(db, id);
    TableFacts.WithoutKeepsOrder(db.rows, id);
    forall i | 0 <= i < |db'.rows|
      ensures db'.rows[i].userId < db'.nextId && db'.rows[i].createdAt < db'.nextId && Visible(db', db'.rows[i])
    {
      assert db'.rows[i] in db.rows;
    }
  }

  /** In a valid table the email lookup finds the one row with that email. */
  lemma LookupByEmailUnique(db: Db, i: nat)
    requires Valid(db) && i < |db.rows|
    ensures Store.GetUserByEmail(db, db.rows[i].email) == Success(Store.UserOf(db, db.rows[i]))
  {
    var email := db.rows[i].email;
    assert Visible(db, db.rows[i]);
    forall k | 0 <= k < |db.rows| && k != i
      ensures db.rows[k].email != email
    {
      if k < i {
        assert Ordered(db.rows[k], db.rows[i]);
      } else {
        assert Ordered(db.rows[i], db.rows[k]);
      }
    }
    var r := Store.GetUserByEmail(db, email);
    var j :| 0 <= j < |db.rows| && db.rows[j].email == email && Visible(db, db.rows[j]) && r.value == Store.UserOf(db, db.rows[j]);
    assert j == i;
  }

  /** The only write the register handler makes: the insert of the new row. */
  lemma RegisterWrites(db: Db, p: RegisterUserPayload, o: Oracles)
    ensures var out := HandleRegister(db, Some(p), o);
            var created := Table.CreateUser(db, CreateUserParams(RoleIdOf(p.role), p.username, p.email,
                                                                  if o.hashPassword.Some? then o.hashPassword.value else "",
                                                                  SubscriptionIdOf(p.subscription)));
            out.db == db || (created.Success? && out.db == created.value)
  {
  }

  lemma RegisterKeepsValid(db: Db, body: Option<RegisterUserPayload>, o: Oracles)
    requires Valid(db)
    ensures Valid(HandleRegister(db, body, o).db)
  {
    if body.Some? {
      var p := body.value;
      RegisterWrites(db, p, o);
      InsertKeepsValid(db, CreateUserParams(RoleIdOf(p.role), p.username, p.email,
                                            if o.hashPassword.Some? then o.hashPassword.value else "",
                                            SubscriptionIdOf(p.subscription)));
    }
  }

  lemma VerifyAccountKeepsValid(db: Db, token: string, o: Oracles)
    requires Valid(db)
    ensures Valid(HandleVerifyAccount(db, token, o).db)
  {
    var check := o.validateVerificationToken(token);
    if check.Success? && Store.GetUserByEmail(db, check.value).Success? {
      VerificationKeepsValid(db, Store.GetUserByEmail(db, check.value).value.id);
    }
  }

  lemma CreateSuperUserKeepsValid(db: Db, body: Option<RegisterUserPayload>, o: Oracles)
    requires Valid(db)
    ensures Valid(HandleCreateSuperUser(db, body, o).db)
  {
    if body.Some? && o.hashPassword.Some? {
      var p := body.value;
      var found := Store.GetUserByEmail(db, p.email);
      if found.Success? {
        PromoteKeepsValid(db, found.value.id);
      } else {
        InsertKeepsValid(db, CreateUserParams(AdminRoleId, p.username, p.email, o.hashPassword.value, AdminSubscriptionId));
      }
    }
  }

  lemma DeleteUserKeepsValid(db: Db, caller: int, id: string)
    requires Valid(db)
    ensures Valid(HandleDeleteUser(db, caller, id).db)
  {
    if Decimal.Atoi(id).Success? {
      DeleteKeepsValid(db, Decimal.ToInt32(Decimal.Atoi(id).value));
    }
  }

  /** Every request keeps the table valid. */
  lemma StepKeepsValid(db: Db, req: Request, o: Oracles)
    requires Valid(db)
    ensures Valid(Step(db, req, o).db)
  {
    match req
    case Register(body) => RegisterKeepsValid(db, body, o);
    case VerifyAccount(token) => VerifyAccountKeepsValid(db, token, o);
    case CreateSuperUser(body) => CreateSuperUserKeepsValid(db, body, o);
    case DeleteUser(caller, id) => DeleteUserKeepsValid(db, caller, id);
    case _ =>
  }
}
