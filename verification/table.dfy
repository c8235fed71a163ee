/** The `users` table and the effect of each generated SQL statement on it.

    The table is a sequence of rows in insertion order. `user_id` and
    `created_at` are both drawn from the counter `nextId`, so insertion order is
    `created_at` order and `ORDER BY created_at DESC` is the reverse of the
    sequence. The `roles` and `subscriptions` reference tables are maps from id
    to name; the queries that join them see only rows whose ids resolve.
    Two schema facts are assumed because the schema is not part of this model:
    `email` is UNIQUE, and `is_verified` defaults to false on insert. */
module Table {
  import opened Wrappers

  /** The role id CreateAdmin inserts and UpdateUserToAdmin writes. */
  const AdminRoleId: int := 4
  /** The role id UpdateUserToFreeUser writes. */
  const FreeUserRoleId: int := 1
  /** The subscription id CreateAdmin inserts. */
  const AdminSubscriptionId: int := 1

  datatype Row = Row(
    userId: int,
    roleId: int,
    username: string,
    email: string,
    passwordHash: string,
    subscriptionId: int,
    isVerified: bool,
    createdAt: nat)

  datatype Db = Db(
    rows: seq<Row>,
    roles: map<int, string>,
    subscriptions: map<int, string>,
    nextId: nat)

  /** `sql.ErrNoRows`, a unique-key violation on `email`, and the database's
      refusal of a negative LIMIT or OFFSET. */
  datatype SqlError = NoRows | DuplicateEmail(email: string) | NegativeArgument

  function SqlMessage(e: SqlError): string {
    match e
    case NoRows => "sql: no rows in result set"
    case DuplicateEmail(email) => "duplicate entry '" + email + "' for key 'email'"
    case NegativeArgument => "incorrect arguments to LIMIT/OFFSET"
  }

  datatype CreateUserParams = CreateUserParams(
    roleId: int, username: string, email: string, passwordHash: string, subscriptionId: int)

  datatype CreateAdminParams = CreateAdminParams(username: string, email: string, passwordHash: string)

  /** A row of GetUserByEmail / GetUserByID: the user joined with its role name
      and subscription type. The password hash is carried as a plain column. */
  datatype UserRow = UserRow(
    userId: int,
    role: string,
    username: string,
    email: string,
    subscriptionType: string,
    isVerified: bool,
    createdAt: nat,
    passwordHash: string)

  /** A row of GetAllUsersPaginated: the same join, without the password hash. */
  datatype ListRow = ListRow(
    userId: int,
    role: string,
    username: string,
    email: string,
    isVerified: bool,
    subscriptionType: string,
    createdAt: nat)

  // ---------------------------------------------------------------- invariants

  /** What every pair of rows i < j satisfies: ids and creation times increase,
      and emails differ (the UNIQUE key). */
  predicate Ordered(a: Row, b: Row) {
    a.userId < b.userId && a.createdAt < b.createdAt && a.email != b.email
  }

  /** A row survives both inner joins. */
  predicate Visible(db: Db, r: Row) {
    r.roleId in db.roles && r.subscriptionId in db.subscriptions
  }

  /** The reference tables hold the four role ids and the four subscription ids
      the conversion functions can produce. */
  predicate Catalog(db: Db) {
    forall k :: 1 <= k <= 4 ==> k in db.roles && k in db.subscriptions
  }

  predicate Valid(db: Db) {
    && Catalog(db)
    && (forall i, j :: 0 <= i < j < |db.rows| ==> Ordered(db.rows[i], db.rows[j]))
    && (forall i :: 0 <= i < |db.rows| ==> db.rows[i].userId < db.nextId && db.rows[i].createdAt < db.nextId)
    && (forall i :: 0 <= i < |db.rows| ==> Visible(db, db.rows[i]))
  }

  /** The empty table over a given catalog. */
  function Empty(roles: map<int, string>, subscriptions: map<int, string>): (db: Db)
    requires forall k :: 1 <= k <= 4 ==> k in roles && k in subscriptions
    ensures Valid(db) && |db.rows| == 0
  {
    Db([], roles, subscriptions, 1)
  }

  // ---------------------------------------------------------------- helpers

  /** The first index whose row satisfies p. */
  function IndexWhere(rows: seq<Row>, p: Row -> bool): (r: Option<nat>)
    ensures r.Some? ==> r.value < |rows| && p(rows[r.value])
    ensures r.Some? ==> forall j :: 0 <= j < r.value ==> !p(rows[j])
    ensures r.None? ==> forall j :: 0 <= j < |rows| ==> !p(rows[j])
  {
    if |rows| == 0 then None
    else if p(rows[0]) then Some(0)
    else match IndexWhere(rows[1..], p)
      case None => None
      case Some(k) => Some(k + 1)
  }

  /** Applies f to the rows whose user_id is id (the WHERE of an UPDATE). */
  function UpdateWhere(rows: seq<Row>, id: int, f: Row -> Row): (out: seq<Row>)
    ensures |out| == |rows|
    ensures forall i :: 0 <= i < |rows| ==> out[i] == if rows[i].userId == id then f(rows[i]) else rows[i]
  {
    seq(|rows|, i requires 0 <= i < |rows| => if rows[i].userId == id then f(rows[i]) else rows[i])
  }

  /** The columns an UPDATE statement of this file writes. */
  datatype Column = RoleIdColumn | IsVerifiedColumn | PasswordHashColumn | SubscriptionIdColumn

  /** Two versions of a row agree on every column except c. */
  predicate SameOutside(a: Row, b: Row, c: Column) {
    && a.userId == b.userId && a.username == b.username && a.email == b.email && a.createdAt == b.createdAt
    && (c == RoleIdColumn || a.roleId == b.roleId)
    && (c == IsVerifiedColumn || a.isVerified == b.isVerified)
    && (c == PasswordHashColumn || a.passwordHash == b.passwordHash)
    && (c == SubscriptionIdColumn || a.subscriptionId == b.subscriptionId)
  }

  /** The frame of `UPDATE users SET c = ? WHERE user_id = id`: the reference
      tables, the counter and every other row are unchanged, and the matching
      rows change in column c at most. */
  predicate WritesOnly(db: Db, db': Db, id: int, c: Column) {
    && db'.roles == db.roles && db'.subscriptions == db.subscriptions && db'.nextId == db.nextId
    && |db'.rows| == |db.rows|
    && (forall i :: 0 <= i < |db.rows| && db.rows[i].userId != id ==> db'.rows[i] == db.rows[i])
    && (forall i :: 0 <= i < |db.rows| && db.rows[i].userId == id ==> SameOutside(db.rows[i], db'.rows[i], c))
  }

  // ---------------------------------------------------------------- inserts

  /** CreateUser: inserts exactly the given five columns; user_id and created_at
      come from the counter and is_verified takes its default, false. */
  function CreateUser(db: Db, p: CreateUserParams): (r: Result<Db, SqlError>)
    ensures r.Failure? <==> exists i :: 0 <= i < |db.rows| && db.rows[i].email == p.email
    ensures r.Failure? ==> r.error == DuplicateEmail(p.email)
    ensures r.Success? ==> && r.value.roles == db.roles && r.value.subscriptions == db.subscriptions
                           && r.value.nextId == db.nextId + 1
                           && |r.value.rows| == |db.rows| + 1 && r.value.rows[..|db.rows|] == db.rows
    ensures r.Success? ==> var row := r.value.rows[|db.rows|];
                           && row.roleId == p.roleId && row.username == p.username && row.email == p.email
                           && row.passwordHash == p.passwordHash && row.subscriptionId == p.subscriptionId
                           && !row.isVerified && row.userId == db.nextId && row.createdAt == db.nextId
  {
    if IndexWhere(db.rows, (r: Row) => r.email == p.email).Some? then Failure(DuplicateEmail(p.email))
    else
      var row := Row(db.nextId, p.roleId, p.username, p.email, p.passwordHash, p.subscriptionId, false, db.nextId);
      Success(db.(rows := db.rows + [row], nextId := db.nextId + 1))
  }

  /** CreateAdmin: the same insert with role_id 4 and subscription_id 1 fixed by
      the statement text. */
  function CreateAdmin(db: Db, p: CreateAdminParams): (r: Result<Db, SqlError>)
    ensures r.Failure? <==> exists i :: 0 <= i < |db.rows| && db.rows[i].email == p.email
    ensures r.Failure? ==> r.error == DuplicateEmail(p.email)
    ensures r.Success? ==> && r.value.roles == db.roles && r.value.subscriptions == db.subscriptions
                           && r.value.nextId == db.nextId + 1
                           && |r.value.rows| == |db.rows| + 1 && r.value.rows[..|db.rows|] == db.rows
    ensures r.Success? ==> var row := r.value.rows[|db.rows|];
                           && row.roleId == AdminRoleId && row.subscriptionId == AdminSubscriptionId
                           && row.username == p.username && row.email == p.email && row.passwordHash == p.passwordHash
                           && !row.isVerified && row.userId == db.nextId && row.createdAt == db.nextId
  {
    CreateUser(db, CreateUserParams(AdminRoleId, p.username, p.email, p.passwordHash, AdminSubscriptionId))
  }

  // ---------------------------------------------------------------- delete

  /** The rows whose user_id differs from id, in their original order. */
  function Without(rows: seq<Row>, id: int): (out: seq<Row>)
    ensures |out| <= |rows|
    ensures forall r :: r in out <==> r in rows && r.userId != id
  {
    if |rows| == 0 then []
    else
      var last := rows[|rows| - 1];
      assert forall r :: r in rows <==> r in rows[..|rows| - 1] || r == last;
      Without(rows[..|rows| - 1], id) + (if last.userId == id then [] else [last])
  }

  /** DeleteUserByID: removes the rows with that user_id and nothing else. */
  function DeleteUserByID(db: Db, id: int): (db': Db)
    ensures db'.roles == db.roles && db'.subscriptions == db.subscriptions && db'.nextId == db.nextId
    ensures forall r :: r in db'.rows <==> r in db.rows && r.userId != id
  {
    db.(rows := Without(db.rows, id))
  }

  // ---------------------------------------------------------------- updates

  /** UpdateUserToAdmin: role_id := 4 on the matching row, nothing else. */
  function UpdateUserToAdmin(db: Db, id: int): (db': Db)
    ensures WritesOnly(db, db', id, RoleIdColumn)
    ensures forall i :: 0 <= i < |db'.rows| && db'.rows[i].userId == id ==> db'.rows[i].roleId == AdminRoleId
  {
    db.(rows := UpdateWhere(db.rows, id, (r: Row) => r.(roleId := AdminRoleId)))
  }

  /** UpdateUserToFreeUser: role_id := 1 on the matching row, nothing else. */
  function UpdateUserToFreeUser(db: Db, id: int): (db': Db)
    ensures WritesOnly(db, db', id, RoleIdColumn)
    ensures forall i :: 0 <= i < |db'.rows| && db'.rows[i].userId == id ==> db'.rows[i].roleId == FreeUserRoleId
  {
    db.(rows := UpdateWhere(db.rows, id, (r: Row) => r.(roleId := FreeUserRoleId)))
  }

  /** UpdateUserVerificationStatus: is_verified := the given flag on the matching row. */
  function UpdateUserVerificationStatus(db: Db, isVerified: bool, id: int): (db': Db)
    ensures WritesOnly(db, db', id, IsVerifiedColumn)
    ensures forall i :: 0 <= i < |db'.rows| && db'.rows[i].userId == id ==> db'.rows[i].isVerified == isVerified
  {
    db.(rows := UpdateWhere(db.rows, id, (r: Row) => r.(isVerified := isVerified)))
  }

  /** UpdateUserPassword: password_hash := the given hash on the matching row. */
  function UpdateUserPassword(db: Db, passwordHash: string, id: int): (db': Db)
    ensures WritesOnly(db, db', id, PasswordHashColumn)
    ensures forall i :: 0 <= i < |db'.rows| && db'.rows[i].userId == id ==> db'.rows[i].passwordHash == passwordHash
  {
    db.(rows := UpdateWhere(db.rows, id, (r: Row) => r.(passwordHash := passwordHash)))
  }

  /** UpdateUserSubscriptionStatus: subscription_id := the given id on the matching row. */
  function UpdateUserSubscriptionStatus(db: Db, subscriptionId: int, id: int): (db': Db)
    ensures WritesOnly(db, db', id, SubscriptionIdColumn)
    ensures forall i :: 0 <= i < |db'.rows| && db'.rows[i].userId == id ==> db'.rows[i].subscriptionId == subscriptionId
  {
    db.(rows := UpdateWhere(db.rows, id, (r: Row) => r.(subscriptionId := subscriptionId)))
  }

  // ---------------------------------------------------------------- reads

  /** The name a reference table gives an id (only looked up for ids it holds). */
  function NameOf(names: map<int, string>, id: int): string {
    if id in names then names[id] else ""
  }

  /** The joined projection of a row; only ever applied to visible rows. */
  function JoinRow(db: Db, r: Row): UserRow {
    UserRow(r.userId, NameOf(db.roles, r.roleId), r.username, r.email, NameOf(db.subscriptions, r.subscriptionId),
            r.isVerified, r.createdAt, r.passwordHash)
  }

  /** GetUserByEmail: the joined row whose email equals the argument, or no rows. */
  function GetUserByEmail(db: Db, email: string): (r: Result<UserRow, SqlError>)
    ensures r.Failure? <==> forall i :: 0 <= i < |db.rows| ==> !(db.rows[i].email == email && Visible(db, db.rows[i]))
    ensures r.Failure? ==> r.error == NoRows
    ensures r.Success? ==> exists i :: 0 <= i < |db.rows| && db.rows[i].email == email && Visible(db, db.rows[i])
                                       && r.value == JoinRow(db, db.rows[i])
  {
    match IndexWhere(db.rows, (r: Row) => r.email == email && Visible(db, r))
    case None => Failure(NoRows)
    case Some(i) => Success(JoinRow(db, db.rows[i]))
  }

  /** GetUserByID: the joined row whose user_id equals the argument, or no rows. */
  function GetUserByID(db: Db, id: int): (r: Result<UserRow, SqlError>)
    ensures r.Failure? <==> forall i :: 0 <= i < |db.rows| ==> !(db.rows[i].userId == id && Visible(db, db.rows[i]))
    ensures r.Failure? ==> r.error == NoRows
    ensures r.Success? ==> exists i :: 0 <= i < |db.rows| && db.rows[i].userId == id && Visible(db, db.rows[i])
                                       && r.value == JoinRow(db, db.rows[i])
  {
    match IndexWhere(db.rows, (r: Row) => r.userId == id && Visible(db, r))
    case None => Failure(NoRows)
    case Some(i) => Success(JoinRow(db, db.rows[i]))
  }

  /** GetUserRoleByUserID: the role name of the user, joining `roles` only. */
  function GetUserRoleByUserID(db: Db, id: int): (r: Result<string, SqlError>)
    ensures r.Failure? <==> forall i :: 0 <= i < |db.rows| ==> !(db.rows[i].userId == id && db.rows[i].roleId in db.roles)
    ensures r.Failure? ==> r.error == NoRows
    ensures r.Success? ==> exists i :: 0 <= i < |db.rows| && db.rows[i].userId == id && db.rows[i].roleId in db.roles
                                       && r.value == db.roles[db.rows[i].roleId]
  {
    match IndexWhere(db.rows, (r: Row) => r.userId == id && r.roleId in db.roles)
    case None => Failure(NoRows)
    case Some(i) => Success(db.roles[db.rows[i].roleId])
  }

  /** The listing projection of a row; only ever applied to visible rows. */
  function ToListRow(db: Db, r: Row): ListRow {
    ListRow(r.userId, NameOf(db.roles, r.roleId), r.username, r.email, r.isVerified,
            NameOf(db.subscriptions, r.subscriptionId), r.createdAt)
  }

  /** The visible rows of a prefix of the table, newest insertion first. */
  function NewestFirst(db: Db, rows: seq<Row>): (out: seq<ListRow>)
    ensures |out| <= |rows|
  {
    if |rows| == 0 then []
    else
      var last := rows[|rows| - 1];
      (if Visible(db, last) then [ToListRow(db, last)] else []) + NewestFirst(db, rows[..|rows| - 1])
  }

  /** Every listed row is the join of some visible row of the table. */
  lemma {:induction false} NewestFirstFromTable(db: Db, rows: seq<Row>, m: nat)
    requires m < |NewestFirst(db, rows)|
    ensures exists k :: 0 <= k < |rows| && Visible(db, rows[k]) && NewestFirst(db, rows)[m] == ToListRow(db, rows[k])
  {
    var n := |rows| - 1;
    var prefix := rows[..n];
    var rest := NewestFirst(db, prefix);
    if Visible(db, rows[n]) && m == 0 {
      assert NewestFirst(db, rows)[m] == ToListRow(db, rows[n]);
    } else {
      var h := if Visible(db, rows[n]) then 1 else 0;
      assert NewestFirst(db, rows)[m] == rest[m - h];
      NewestFirstFromTable(db, prefix, m - h);
      var k :| 0 <= k < |prefix| && Visible(db, prefix[k]) && rest[m - h] == ToListRow(db, prefix[k]);
      assert prefix[k] == rows[k];
    }
  }

  /** The entry is the listing projection of some visible row. */
  predicate ProjectsVisible(db: Db, rows: seq<Row>, e: ListRow) {
    exists k :: 0 <= k < |rows| && Visible(db, rows[k]) && e == ToListRow(db, rows[k])
  }

  /** Every entry of a prefix's listing is the projection of a visible row of it. */
  lemma NewestFirstSound(db: Db, rows: seq<Row>)
    ensures forall m :: 0 <= m < |NewestFirst(db, rows)| ==> ProjectsVisible(db, rows, NewestFirst(db, rows)[m])
  {
    forall m | 0 <= m < |NewestFirst(db, rows)|
      ensures ProjectsVisible(db, rows, NewestFirst(db, rows)[m])
    {
      NewestFirstFromTable(db, rows, m);
    }
  }

  /** Every joined row, ordered by created_at descending: at most one entry per
      row of the table, each the projection of a row that survives the joins. */
  function Listing(db: Db): (out: seq<ListRow>)
    ensures |out| <= |db.rows|
    ensures forall m :: 0 <= m < |out| ==> ProjectsVisible(db, db.rows, out[m])
  {
    NewestFirstSound(db, db.rows);
    NewestFirst(db, db.rows)
  }

  /** GetAllUsersPaginated: skip `offset` rows of the listing, then return at
      most `limit` of them; a negative argument is refused by the database. */
  function GetAllUsersPaginated(db: Db, limit: int, offset: int): (r: Result<seq<ListRow>, SqlError>)
    ensures r.Failure? <==> limit < 0 || offset < 0
    ensures r.Failure? ==> r.error == NegativeArgument
    ensures r.Success? ==> |r.value| <= limit
    ensures r.Success? ==> forall k :: 0 <= k < |r.value| ==>
                             offset + k < |Listing(db)| && r.value[k] == Listing(db)[offset + k]
    ensures r.Success? && offset + limit <= |Listing(db)| ==> |r.value| == limit
    ensures r.Success? && offset < |Listing(db)| < offset + limit ==> |r.value| == |Listing(db)| - offset
  {
    if limit < 0 || offset < 0 then Failure(NegativeArgument)
    else
      var all := Listing(db);
      if offset >= |all| then Success([])
      else if offset + limit <= |all| then Success(all[offset..offset + limit])
      else Success(all[offset..])
  }
}

/** Facts about the table that relate several statements or hold of the whole
    listing rather than of one call. */
module TableFacts {
  import opened Wrappers
  import opened Table

  /** ORDER BY created_at DESC: when creation times increase along the table,
      the listing is strictly newest first. */
  lemma {:induction false} NewestFirstDescending(db: Db, rows: seq<Row>)
    requires forall i, j :: 0 <= i < j < |rows| ==> rows[i].createdAt < rows[j].createdAt
    ensures forall a, b :: 0 <= a < b < |NewestFirst(db, rows)| ==>
              NewestFirst(db, rows)[a].createdAt > NewestFirst(db, rows)[b].createdAt
  {
    if |rows| > 0 {
      var n := |rows| - 1;
      var prefix := rows[..n];
      var rest := NewestFirst(db, prefix);
      var out := NewestFirst(db, rows);
      NewestFirstDescending(db, prefix);
      var h := if Visible(db, rows[n]) then 1 else 0;
      forall a, b | 0 <= a < b < |out|
        ensures out[a].createdAt > out[b].createdAt
      {
        assert out[b] == rest[b - h];
        if a < h {
          NewestFirstFromTable(db, prefix, b - h);
          var k :| 0 <= k < |prefix| && Visible(db, prefix[k]) && rest[b - h] == ToListRow(db, prefix[k]);
          assert prefix[k] == rows[k];
        } else {
          assert out[a] == rest[a - h];
        }
      }
    }
  }

  /** Every visible row of the table appears in the listing. */
  lemma {:induction false} NewestFirstComplete(db: Db, rows: seq<Row>, i: nat)
    requires i < |rows| && Visible(db, rows[i])
    ensures ToListRow(db, rows[i]) in NewestFirst(db, rows)
  {
    var n := |rows| - 1;
    if i < n {
      NewestFirstComplete(db, rows[..n], i);
      assert rows[..n][i] == rows[i];
    }
  }

  /** In a valid table every row is visible, so the listing has one entry per row. */
  lemma {:induction false} NewestFirstLength(db: Db, rows: seq<Row>)
    requires forall i :: 0 <= i < |rows| ==> Visible(db, rows[i])
    ensures |NewestFirst(db, rows)| == |rows|
  {
    if |rows| > 0 {
      NewestFirstLength(db, rows[..|rows| - 1]);
    }
  }

  /** The listing of a valid table: newest first, complete, one entry per row. */
  lemma ListingOfValid(db: Db)
    requires Valid(db)
    ensures |Listing(db)| == |db.rows|
    ensures forall a, b :: 0 <= a < b < |Listing(db)| ==> Listing(db)[a].createdAt > Listing(db)[b].createdAt
    ensures forall i :: 0 <= i < |db.rows| ==> ToListRow(db, db.rows[i]) in Listing(db)
  {
    NewestFirstDescending(db, db.rows);
    NewestFirstLength(db, db.rows);
    forall i | 0 <= i < |db.rows|
      ensures ToListRow(db, db.rows[i]) in Listing(db)
    {
      NewestFirstComplete(db, db.rows, i);
    }
  }

  /** Two consecutive windows of the listing concatenate to the window of
      their combined size: paging neither skips nor repeats a row. */
  lemma ConsecutivePages(db: Db, limit: nat, offset: nat)
    ensures GetAllUsersPaginated(db, limit, offset).Success?
    ensures GetAllUsersPaginated(db, limit, offset + limit).Success?
    ensures GetAllUsersPaginated(db, limit, offset).value + GetAllUsersPaginated(db, limit, offset + limit).value
            == GetAllUsersPaginated(db, 2 * limit, offset).value
  {
    var all := Listing(db);
    var p1 := GetAllUsersPaginated(db, limit, offset).value;
    var p2 := GetAllUsersPaginated(db, limit, offset + limit).value;
    var both := GetAllUsersPaginated(db, 2 * limit, offset).value;
    assert |p1 + p2| == |both|;
    forall k | 0 <= k < |both|
      ensures (p1 + p2)[k] == both[k]
    {
      if k < |p1| {
        assert (p1 + p2)[k] == p1[k];
      } else {
        assert (p1 + p2)[k] == p2[k - |p1|];
      }
    }
  }

  /** Deleting rows keeps the remaining ones pairwise ordered. */
  lemma {:induction false} WithoutKeepsOrder(rows: seq<Row>, id: int)
    requires forall i, j :: 0 <= i < j < |rows| ==> Ordered(rows[i], rows[j])
    ensures forall i, j :: 0 <= i < j < |Without(rows, id)| ==> Ordered(Without(rows, id)[i], Without(rows, id)[j])
  {
    if |rows| > 0 {
      var n := |rows| - 1;
      var prefix := rows[..n];
      WithoutKeepsOrder(prefix, id);
      var rest := Without(prefix, id);
      var out := Without(rows, id);
      assert out == rest + (if rows[n].userId == id then [] else [rows[n]]);
      forall i, j | 0 <= i < j < |out|
        ensures Ordered(out[i], out[j])
      {
        if j >= |rest| {
          assert out[i] == rest[i];
          assert out[i] in prefix;
          var k :| 0 <= k < n && prefix[k] == out[i];
          assert rows[k] == out[i];
        }
      }
    }
  }
}
