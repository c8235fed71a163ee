/** The helpers shared by the handlers: payload validation, the privilege
    decision, and the conversion of role and subscription words to ids. */
module Utils {
  import opened Wrappers
  import opened Payloads
  import opened Table
  import Store

  // ---------------------------------------------------------------- validation

  /** The message recorded for a failing field. */
  function TagMessage(tag: string): string {
    "Validation failed on the '" + tag + "' tag"
  }

  /** The invalid-fields map built from a list of field errors: entries are
      added in order, so a later entry for a field overwrites an earlier one. */
  function InvalidFields(errs: seq<FieldError>): map<string, string> {
    if errs == [] then map[]
    else
      var last := errs[|errs| - 1];
      InvalidFields(errs[..|errs| - 1])[FieldName(last.field) := TagMessage(last.tag)]
  }

  /** The names of the failing fields, as a set. */
  function FailingFields(errs: seq<FieldError>): set<string> {
    set i | 0 <= i < |errs| :: FieldName(errs[i].field)
  }

  /** The map has an entry for a field exactly when some error names it. */
  lemma {:induction false} InvalidFieldsKeys(errs: seq<FieldError>)
    ensures InvalidFields(errs).Keys == FailingFields(errs)
  {
    if errs != [] {
      var n := |errs| - 1;
      var prefix := errs[..n];
      InvalidFieldsKeys(prefix);
      forall k
        ensures k in FailingFields(errs) <==> k in FailingFields(prefix) || k == FieldName(errs[n].field)
      {
        if k in FailingFields(errs) && k != FieldName(errs[n].field) {
          var i :| 0 <= i < |errs| && FieldName(errs[i].field) == k;
          assert prefix[i] == errs[i];
        }
        if k in FailingFields(prefix) {
          var i :| 0 <= i < n && FieldName(prefix[i].field) == k;
          assert errs[i] == prefix[i];
        }
      }
    }
  }

  lemma FieldNameInjective(f: Field, g: Field)
    ensures FieldName(f) == FieldName(g) ==> f == g
  {
  }

  /** The entry of a field is the message of the LAST error for that field;
      with distinct fields, every error's own message. */
  lemma {:induction false} InvalidFieldsLastWins(errs: seq<FieldError>, i: nat)
    requires i < |errs|
    requires forall j :: i < j < |errs| ==> errs[j].field != errs[i].field
    ensures FieldName(errs[i].field) in InvalidFields(errs)
    ensures InvalidFields(errs)[FieldName(errs[i].field)] == TagMessage(errs[i].tag)
  {
    var n := |errs| - 1;
    if i < n {
      var prefix := errs[..n];
      InvalidFieldsLastWins(prefix, i);
      FieldNameInjective(errs[n].field, errs[i].field);
    }
  }

  /** One entry per failing field: with distinct fields the map has exactly as
      many entries as there are errors. */
  lemma {:induction false} InvalidFieldsSize(errs: seq<FieldError>)
    requires DistinctFields(errs)
    ensures |InvalidFields(errs)| == |errs|
  {
    if errs != [] {
      var n := |errs| - 1;
      var prefix := errs[..n];
      InvalidFieldsSize(prefix);
      var k := FieldName(errs[n].field);
      InvalidFieldsKeys(prefix);
      forall i | 0 <= i < |prefix|
        ensures FieldName(prefix[i].field) != k
      {
        assert prefix[i] == errs[i];
        FieldNameInjective(prefix[i].field, errs[n].field);
      }
      assert k !in InvalidFields(prefix);
    }
  }

  /** The failure ValidatePayload reports: the invalid fields when the
      validator returned field errors, nothing on every other path. */
  function ValidationFailure(run: ValidatorRun): (r: Option<map<string, string>>)
    ensures r.Some? <==> run.Failed?
    ensures r.Some? ==> r.value.Keys == FailingFields(run.errors)
  {
    if run.Failed? then InvalidFieldsKeys(run.errors); Some(InvalidFields(run.errors)) else None
  }

  const InvalidPayloadError: string := "invalid payload"

  /** ValidatePayload: a field-validation failure yields the invalid-fields
      map and an error; every other path yields an empty map and no error. */
  method ValidatePayload(run: ValidatorRun) returns (invalid: map<string, string>, err: Option<string>)
    ensures err.Some? <==> run.Failed?
    ensures err.Some? ==> err.value == InvalidPayloadError && invalid == InvalidFields(run.errors)
    ensures err.None? ==> invalid == map[]
  {
    if run.Failed? {
      var errs := run.errors;
      invalid := map[];
      var k := 0;
      while k < |errs|
        invariant 0 <= k <= |errs|
        invariant invalid == InvalidFields(errs[..k])
      {
        assert errs[..k + 1][..k] == errs[..k];
        invalid := invalid[FieldName(errs[k].field) := TagMessage(errs[k].tag)];
        k := k + 1;
      }
      assert errs[..|errs|] == errs;
      return invalid, Some(InvalidPayloadError);
    }
    return map[], None;
  }

  // ---------------------------------------------------------------- privilege

  /** The role name the privilege check accepts. */
  const SuperUserRole: string := "super_user"

  /** The link between ids and names that the model assumes: role id 4, the id
      CreateAdmin and UpdateUserToAdmin write, is named "super_user". */
  predicate AdminIsSuperUser(db: Db) {
    AdminRoleId in db.roles && db.roles[AdminRoleId] == SuperUserRole
  }

  /** IsSuperUser's `(bool, error)` pair. */
  datatype Privilege = Privilege(isSuper: bool, err: Option<string>)

  /** IsSuperUser: true exactly when the stored role name is "super_user"; a
      failed role lookup yields false together with an error. */
  function IsSuperUser(db: Db, userId: int): (r: Privilege)
    ensures r.err.Some? ==> !r.isSuper
    ensures r.err.Some? <==> Store.GetUserRoleByID(db, userId).Failure?
    ensures r.isSuper <==> Store.GetUserRoleByID(db, userId) == Success(SuperUserRole)
  {
    match Store.GetUserRoleByID(db, userId)
    case Failure(e) => Privilege(false, Some("error getting user role by id: " + Store.ErrorMessage(e)))
    case Success(role) => Privilege(role == SuperUserRole, None)
  }

  /** In a valid table the decision is about the caller's own row: privileged
      exactly when that row exists and its role is named "super_user"; an
      unknown caller is an error, never a privilege. */
  lemma IsSuperUserOfValid(db: Db, userId: int)
    requires Valid(db)
    ensures IsSuperUser(db, userId).isSuper <==>
              exists i :: 0 <= i < |db.rows| && db.rows[i].userId == userId && db.roles[db.rows[i].roleId] == SuperUserRole
    ensures IsSuperUser(db, userId).err.Some? <==> forall i :: 0 <= i < |db.rows| ==> db.rows[i].userId != userId
  {
    var r := Store.GetUserRoleByID(db, userId);
    if r.Success? {
      var i :| 0 <= i < |db.rows| && db.rows[i].userId == userId && db.rows[i].roleId in db.roles
               && r.value == db.roles[db.rows[i].roleId];
      forall j | 0 <= j < |db.rows| && j != i
        ensures db.rows[j].userId != userId
      {
        if j < i {
          assert Ordered(db.rows[j], db.rows[i]);
        } else {
          assert Ordered(db.rows[i], db.rows[j]);
        }
      }
    }
  }

  // ---------------------------------------------------------------- codes

  /** The role words the conversion recognises, indexed by the id they map to. */
  function RoleWord(id: int): string
    requires 1 <= id <= 4
  {
    if id == 1 then "free_user" else if id == 2 then "premium_user" else if id == 3 then "nutritionist" else "admin"
  }

  predicate KnownRole(role: string) {
    role == "free_user" || role == "premium_user" || role == "nutritionist" || role == "admin"
  }

  /** ConvertRoleStringToRoleID: a role id in 1..4; unknown words map to 1. */
  function RoleIdOf(role: string): (id: int)
    ensures 1 <= id <= 4
    ensures !KnownRole(role) ==> id == 1
    ensures KnownRole(role) ==> RoleWord(id) == role
  {
    if role == "free_user" then 1
    else if role == "premium_user" then 2
    else if role == "nutritionist" then 3
    else if role == "admin" then 4
    else 1
  }

  /** Each id in 1..4 comes from exactly one known word, and "admin" is the
      word for the id CreateAdmin writes. */
  lemma RoleWordsRoundTrip(id: int)
    requires 1 <= id <= 4
    ensures KnownRole(RoleWord(id)) && RoleIdOf(RoleWord(id)) == id
    ensures RoleIdOf("admin") == AdminRoleId
  {
  }

  /** The conversion is injective on the four known words. */
  lemma RoleIdOfInjective(a: string, b: string)
    requires KnownRole(a) && KnownRole(b) && RoleIdOf(a) == RoleIdOf(b)
    ensures a == b
  {
  }

  function SubscriptionWord(id: int): string
    requires 1 <= id <= 4
  {
    if id == 1 then "Active" else if id == 2 then "Inactive" else if id == 3 then "Pending" else "Cancelled"
  }

  predicate KnownSubscription(s: string) {
    s == "Active" || s == "Inactive" || s == "Pending" || s == "Cancelled"
  }

  /** ConvertSubscriptionStringToSubscriptionID: an id in 1..4; unknown words map to 1. */
  function SubscriptionIdOf(subscription: string): (id: int)
    ensures 1 <= id <= 4
    ensures !KnownSubscription(subscription) ==> id == 1
    ensures KnownSubscription(subscription) ==> SubscriptionWord(id) == subscription
  {
    if subscription == "Active" then 1
    else if subscription == "Inactive" then 2
    else if subscription == "Pending" then 3
    else if subscription == "Cancelled" then 4
    else 1
  }

  lemma SubscriptionWordsRoundTrip(id: int)
    requires 1 <= id <= 4
    ensures KnownSubscription(SubscriptionWord(id)) && SubscriptionIdOf(SubscriptionWord(id)) == id
  {
  }
}
