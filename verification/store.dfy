/** The user store: thin wrappers over the table statements that convert joined
    rows into `User` records, map "no rows" to "user not found" on the two
    lookups, and compute LIMIT/OFFSET from a page number. */
module Store {
  import opened Wrappers
  import opened Decimal
  import opened Table

  /** The `User` record handed to the handlers (timestamps reduced to the
      logical creation time). */
  datatype User = User(
    id: int,
    username: string,
    role: string,
    subscription: string,
    email: string,
    passwordHash: string,
    isVerified: bool,
    createdAt: nat)

  /** The store's own "user not found" error, or a query error passed through. */
  datatype StoreError = UserNotFound | Query(cause: SqlError)

  function ErrorMessage(e: StoreError): string {
    match e
    case UserNotFound => "user not found"
    case Query(cause) => SqlMessage(cause)
  }

  /** The lookups' error mapping: only "no rows" is rewritten. */
  function LookupError(e: SqlError): (r: StoreError)
    ensures r == UserNotFound <==> e == NoRows
    ensures r != UserNotFound ==> r == Query(e)
    ensures e == NoRows ==> ErrorMessage(r) == "user not found"
  {
    if e == NoRows then UserNotFound else Query(e)
  }

  function FromUserRow(r: UserRow): User {
    User(r.userId, r.username, r.role, r.subscriptionType, r.email, r.passwordHash, r.isVerified, r.createdAt)
  }

  /** The listing conversion leaves the password hash empty: the listing query
      does not select it. */
  function FromListRow(r: ListRow): User {
    User(r.userId, r.username, r.role, r.subscriptionType, r.email, "", r.isVerified, r.createdAt)
  }

  /** The User record the lookups build from a table row. */
  function UserOf(db: Db, row: Row): User {
    FromUserRow(JoinRow(db, row))
  }

  /** The listing and the lookups build the same record from a row, except
      that the listing leaves the password hash empty. */
  lemma ListAndLookupAgree(db: Db, row: Row)
    ensures FromListRow(ToListRow(db, row)) == UserOf(db, row).(passwordHash := "")
    ensures UserOf(db, row).id == row.userId && UserOf(db, row).email == row.email
    ensures UserOf(db, row).isVerified == row.isVerified && UserOf(db, row).passwordHash == row.passwordHash
  {
  }

  /** GetUserByEmail: the user with that email, or "user not found" when no
      joined row has it. */
  function GetUserByEmail(db: Db, email: string): (r: Result<User, StoreError>)
    ensures r.Failure? <==> forall i :: 0 <= i < |db.rows| ==> !(db.rows[i].email == email && Visible(db, db.rows[i]))
    ensures r.Failure? ==> r.error == UserNotFound
    ensures r.Success? ==> r.value.email == email
    ensures r.Success? ==> exists i :: 0 <= i < |db.rows| && db.rows[i].email == email && Visible(db, db.rows[i])
                                       && r.value == UserOf(db, db.rows[i])
  {
    match Table.GetUserByEmail(db, email)
    case Failure(e) => Failure(LookupError(e))
    case Success(row) => Success(FromUserRow(row))
  }

  /** GetUserByID: the user with that id, or "user not found". */
  function GetUserByID(db: Db, id: int): (r: Result<User, StoreError>)
    ensures r.Failure? <==> forall i :: 0 <= i < |db.rows| ==> !(db.rows[i].userId == id && Visible(db, db.rows[i]))
    ensures r.Failure? ==> r.error == UserNotFound
    ensures r.Success? ==> r.value.id == id
    ensures r.Success? ==> exists i :: 0 <= i < |db.rows| && db.rows[i].userId == id && Visible(db, db.rows[i])
                                       && r.value == UserOf(db, db.rows[i])
  {
    match Table.GetUserByID(db, id)
    case Failure(e) => Failure(LookupError(e))
    case Success(row) => Success(FromUserRow(row))
  }

  /** GetUserRoleByID: the role name; its error is the query's, unmapped. */
  function GetUserRoleByID(db: Db, id: int): (r: Result<string, StoreError>)
    ensures r.Failure? <==> forall i :: 0 <= i < |db.rows| ==> !(db.rows[i].userId == id && db.rows[i].roleId in db.roles)
    ensures r.Failure? ==> r.error == Query(NoRows)
    ensures r.Success? ==> exists i :: 0 <= i < |db.rows| && db.rows[i].userId == id && db.rows[i].roleId in db.roles
                                       && r.value == db.roles[db.rows[i].roleId]
  {
    match GetUserRoleByUserID(db, id)
    case Failure(e) => Failure(Query(e))
    case Success(name) => Success(name)
  }

  /** Multiplying by a positive n and dividing by it again gives k back, with
      no remainder (Euclidean division, any sign of k). */
  lemma MulDivMod(k: int, n: int)
    requires n >= 1
    ensures (k * n) % n == 0 && (k * n) / n == k
  {
    var q := (k * n) / n;
    var r := (k * n) % n;
    assert (k - q) * n == r;
    assert k - q == 0 by {
      if k - q >= 1 {
        MulMonotone(k - q, n);
        assert false;
      } else if k - q <= -1 {
        MulMonotone(q - k, n);
        assert false;
      }
    }
  }

  lemma MulMonotone(a: int, n: int)
    requires a >= 1 && n >= 1
    ensures a * n >= n
  {
  }

  /** The OFFSET of a page: (page - 1) * pageSize, in unbounded integers. */
  function Offset(page: int, pageSize: int): (offset: int)
    ensures page >= 1 && pageSize >= 0 ==> offset >= 0
    ensures page == 1 ==> offset == 0
    ensures pageSize >= 1 ==> offset % pageSize == 0 && offset / pageSize == page - 1
  {
    if pageSize >= 1 then MulDivMod(page - 1, pageSize); (page - 1) * pageSize
    else (page - 1) * pageSize
  }

  /** GetUsersPaginated: LIMIT pageSize OFFSET Offset(page, pageSize), one User
      per returned row, in the same order: a full page while the listing lasts,
      its remainder on the page where it ends, nothing beyond it. */
  function GetUsersPaginated(db: Db, page: int, pageSize: int): (r: Result<seq<User>, StoreError>)
    ensures page >= 1 && pageSize >= 0 ==> r.Success?
    ensures r.Failure? ==> r.error == Query(NegativeArgument)
    ensures r.Success? ==> |r.value| <= pageSize
    ensures r.Success? ==> var offset := Offset(page, pageSize);
                           forall k :: 0 <= k < |r.value| ==>
                             0 <= offset + k < |Listing(db)| && r.value[k] == FromListRow(Listing(db)[offset + k])
    ensures r.Success? && Offset(page, pageSize) + pageSize <= |Listing(db)| ==> |r.value| == pageSize
    ensures r.Success? && Offset(page, pageSize) < |Listing(db)| < Offset(page, pageSize) + pageSize ==>
              |r.value| == |Listing(db)| - Offset(page, pageSize)
  {
    match GetAllUsersPaginated(db, pageSize, Offset(page, pageSize))
    case Failure(e) => Failure(Query(e))
    case Success(rows) => Success(seq(|rows|, k requires 0 <= k < |rows| => FromListRow(rows[k])))
  }

  /** CreateUser: inserts the five given columns; the only error is the
      insert's own, passed through. */
  function CreateUser(db: Db, p: CreateUserParams): (r: Result<Db, StoreError>)
    ensures r.Failure? <==> exists i :: 0 <= i < |db.rows| && db.rows[i].email == p.email
    ensures r.Failure? ==> r.error == Query(DuplicateEmail(p.email))
    ensures r.Success? ==> Table.CreateUser(db, p) == Success(r.value)
  {
    match Table.CreateUser(db, p)
    case Failure(e) => Failure(Query(e))
    case Success(db') => Success(db')
  }

  /** CreateSuperUser: forwards username, email and password hash to
      CreateAdmin; the other fields of the input are not used. */
  function CreateSuperUser(db: Db, u: User): (r: Result<Db, StoreError>)
    ensures r.Failure? <==> exists i :: 0 <= i < |db.rows| && db.rows[i].email == u.email
    ensures r.Failure? ==> r.error == Query(DuplicateEmail(u.email))
    ensures r.Success? ==> && |r.value.rows| == |db.rows| + 1 && r.value.rows[..|db.rows|] == db.rows
                           && r.value.roles == db.roles && r.value.subscriptions == db.subscriptions
                           && r.value.nextId == db.nextId + 1
    ensures r.Success? ==> var row := r.value.rows[|db.rows|];
                           && row.roleId == AdminRoleId && row.subscriptionId == AdminSubscriptionId
                           && row.username == u.username && row.email == u.email
                           && row.passwordHash == u.passwordHash && !row.isVerified && row.userId == db.nextId
  {
    match CreateAdmin(db, CreateAdminParams(u.username, u.email, u.passwordHash))
    case Failure(e) => Failure(Query(e))
    case Success(db') => Success(db')
  }

  /** UpdateUserToSuperUser: writes role_id 4 on that user only. */
  function UpdateUserToSuperUser(db: Db, id: int): (db': Db)
    ensures WritesOnly(db, db', id, RoleIdColumn)
    ensures forall i :: 0 <= i < |db'.rows| && db'.rows[i].userId == id ==> db'.rows[i].roleId == AdminRoleId
  {
    UpdateUserToAdmin(db, id)
  }

  /** UpdateUserToNormalUser: writes role_id 1 on that user only. */
  function UpdateUserToNormalUser(db: Db, id: int): (db': Db)
    ensures WritesOnly(db, db', id, RoleIdColumn)
    ensures forall i :: 0 <= i < |db'.rows| && db'.rows[i].userId == id ==> db'.rows[i].roleId == FreeUserRoleId
  {
    UpdateUserToFreeUser(db, id)
  }

  /** UpdateUserVerification: sets is_verified to true, never to false. */
  function UpdateUserVerification(db: Db, id: int): (db': Db)
    ensures WritesOnly(db, db', id, IsVerifiedColumn)
    ensures forall i :: 0 <= i < |db.rows| ==> db'.rows[i].isVerified == (db.rows[i].isVerified || db.rows[i].userId == id)
  {
    UpdateUserVerificationStatus(db, true, id)
  }

  /** DeleteUserByID: removes that user's rows and no other. */
  function DeleteUserByID(db: Db, id: int): (db': Db)
    ensures db'.roles == db.roles && db'.subscriptions == db.subscriptions && db'.nextId == db.nextId
    ensures forall r :: r in db'.rows <==> r in db.rows && r.userId != id
  {
    Table.DeleteUserByID(db, id)
  }

  /** UpdateUserPassword: writes password_hash on that user only. */
  function UpdateUserPassword(db: Db, id: int, passwordHash: string): (db': Db)
    ensures WritesOnly(db, db', id, PasswordHashColumn)
    ensures forall i :: 0 <= i < |db'.rows| && db'.rows[i].userId == id ==> db'.rows[i].passwordHash == passwordHash
  {
    Table.UpdateUserPassword(db, passwordHash, id)
  }

  /** CreateSuperUser's result depends only on the username, email and password
      hash of its input. */
  lemma CreateSuperUserIgnoresRole(db: Db, u: User, v: User)
    requires u.username == v.username && u.email == v.email && u.passwordHash == v.passwordHash
    ensures CreateSuperUser(db, u) == CreateSuperUser(db, v)
  {
  }

  // ------------------------------------------------------------------------
  // The offset as the Go code computes it: `int32(page)` in the handler, then
  // `(page - 1) * pageSize` in int32 arithmetic, which wraps on overflow.

  /** The offset with every intermediate result truncated to int32. */
  function OffsetInt32(page: int, pageSize: int): (offset: int)
    ensures Int32Min <= offset <= Int32Max
    ensures (offset - (ToInt32(page) - 1) * ToInt32(pageSize)) % TwoTo32 == 0
  {
    var p := ToInt32(page);
    var s := ToInt32(pageSize);
    var product := ToInt32(p - 1) * s;
    assert product - (p - 1) * s == (ToInt32(p - 1) - (p - 1)) * s;
    MultipleScales(ToInt32(p - 1) - (p - 1), s);
    MultipleSum(ToInt32(product) - product, product - (p - 1) * s);
    ToInt32(product)
  }

  /** A multiple of 2^32 stays one when scaled. */
  lemma MultipleScales(d: int, s: int)
    requires d % TwoTo32 == 0
    ensures (d * s) % TwoTo32 == 0
  {
    var q := d / TwoTo32;
    assert d == q * TwoTo32;
    assert d * s == (q * s) * TwoTo32;
    MulDivMod(q * s, TwoTo32);
  }

  /** The sum of two multiples of 2^32 is one. */
  lemma MultipleSum(a: int, b: int)
    requires a % TwoTo32 == 0 && b % TwoTo32 == 0
    ensures (a + b) % TwoTo32 == 0
  {
    var qa := a / TwoTo32;
    var qb := b / TwoTo32;
    assert a + b == (qa + qb) * TwoTo32;
    MulDivMod(qa + qb, TwoTo32);
  }

  /** The listing as written: the int32 offset handed to the query, which
      then reads the listing from that (possibly wrapped) position. */
  function GetUsersPaginatedInt32(db: Db, page: int, pageSize: int): (r: Result<seq<User>, StoreError>)
    ensures r.Failure? <==> ToInt32(pageSize) < 0 || OffsetInt32(page, pageSize) < 0
    ensures r.Success? ==> var offset := OffsetInt32(page, pageSize);
                           forall k :: 0 <= k < |r.value| ==>
                             0 <= offset + k < |Listing(db)| && r.value[k] == FromListRow(Listing(db)[offset + k])
    ensures r.Success? && OffsetInt32(page, pageSize) + ToInt32(pageSize) <= |Listing(db)| ==>
              |r.value| == ToInt32(pageSize)
  {
    match GetAllUsersPaginated(db, ToInt32(pageSize), OffsetInt32(page, pageSize))
    case Failure(e) => Failure(Query(e))
    case Success(rows) => Success(seq(|rows|, k requires 0 <= k < |rows| => FromListRow(rows[k])))
  }

  /** Page 214748366 of size 10 is a page the handler accepts, yet its int32
      offset wraps to -2147483646 and the database refuses the query; the
      unbounded offset is 2147483650 and the query succeeds (with no rows
      unless the table is that long). */
  lemma OffsetOverflow(db: Db)
    ensures OffsetInt32(214748366, 10) == -2147483646
    ensures GetUsersPaginatedInt32(db, 214748366, 10).Failure?
    ensures Offset(214748366, 10) == 2147483650
    ensures GetUsersPaginated(db, 214748366, 10).Success?
  {
    assert ToInt32(214748365 * 10) == -2147483646 by {
      assert 2147483650 % TwoTo32 == 2147483650;
    }
  }

  /** Page 429496731 of size 10 wraps the other way: its int32 offset is 4, so
      the query succeeds and returns the listing from its fifth entry on (a
      full page once the listing has 14 entries), while the intended offset
      4294967300 lies past the end of any listing shorter than that. */
  lemma OffsetWrapsPositive(db: Db)
    ensures OffsetInt32(429496731, 10) == 4
    ensures Offset(429496731, 10) == 4294967300
    ensures var r := GetUsersPaginatedInt32(db, 429496731, 10);
            && r.Success?
            && (forall k :: 0 <= k < |r.value| ==> r.value[k] == FromListRow(Listing(db)[4 + k]))
            && (|Listing(db)| >= 14 ==> |r.value| == 10)
    ensures |Listing(db)| <= 4294967300 ==> GetUsersPaginated(db, 429496731, 10) == Success([])
  {
    assert ToInt32(429496730 * 10) == 4 by {
      assert 4294967300 % TwoTo32 == 4;
    }
  }
}
