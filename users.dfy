/** The user-administration routes: creation behind an ordered validation
    chain, the email format predicate, partial updates through a numbered
    SET list, password changes, lookup and deletion, over a table of rows. */
module Users {
  import opened Wrappers
  import Rows
  import opened JsString
  import opened Validation
  import SqlUpdate

  const MinPasswordLength := 8
  const DefaultRole := "user"

  const MissingFields := "Email, password, and full name are required"
  const InvalidEmail := "Invalid email format"
  const ShortPassword := "Password must be at least 8 characters long"
  const InvalidRole := "Invalid role. Must be admin or user"
  const EmailExists := "Email already exists"
  const NoFields := "No fields to update"
  const UserNotFound := "User not found"
  const PasswordRequired := "Password is required"
  const PasswordUpdated := "Password updated successfully"
  const UserDeleted := "User deleted successfully"

  /** A row of the users table (timestamps left out). */
  datatype User = User(id: int, email: string, passwordHash: string, fullName: string, role: string, isActive: bool)

  /** The columns the routes answer with: never the password hash. */
  datatype Profile = Profile(id: int, email: string, fullName: string, role: string, isActive: bool)

  function ProfileOf(u: User): Profile
  {
    Profile(u.id, u.email, u.fullName, u.role, u.isActive)
  }

  // ---------------------------------------------------------------------
  // The email format `^[^\s@]+@[^\s@]+\.[^\s@]+$`

  /** A character the class `[^\s@]` admits. */
  predicate PlainChar(c: char)
  {
    !IsSpace(c) && c != '@'
  }

  /** Text made only of characters `[^\s@]` admits. */
  predicate Plain(s: string)
  {
    forall i :: 0 <= i < |s| ==> PlainChar(s[i])
  }

  lemma PlainSlice(s: string, lo: nat, hi: nat)
    requires Plain(s) && lo <= hi <= |s|
    ensures Plain(s[lo..hi])
  {
    assert forall j :: 0 <= j < hi - lo ==> s[lo..hi][j] == s[lo + j];
  }

  /** A '.' with at least one character on each side. */
  predicate InnerDot(d: string)
  {
    exists k :: 0 < k < |d| - 1 && d[k] == '.'
  }

  /** The regular expression, decided by splitting at the first '@'. */
  predicate IsEmail(s: string)
  {
    match IndexOf(s, '@')
    case None => false
    case Some(i) => i > 0 && Plain(s[..i]) && Plain(s[i + 1..]) && InnerDot(s[i + 1..])
  }

  /** The shape the regular expression describes: local part, '@', then a
      domain split at some '.' into two non-empty halves. */
  function EmailText(local: string, host: string, tld: string): string
  {
    local + "@" + host + "." + tld
  }

  lemma EmailTextChars(local: string, host: string, tld: string)
    ensures EmailText(local, host, tld) == local + ['@'] + (host + ['.'] + tld)
  {
  }

  lemma DotIsPlain()
    ensures PlainChar('.') && !PlainChar('@')
  {
  }

  /** Every text of the regular expression's shape is accepted. */
  lemma EmailAccepted(local: string, host: string, tld: string)
    requires local != "" && host != "" && tld != ""
    requires Plain(local) && Plain(host) && Plain(tld)
    ensures IsEmail(EmailText(local, host, tld))
  {
    DotIsPlain();
    var s := EmailText(local, host, tld);
    var d := host + ['.'] + tld;
    EmailTextChars(local, host, tld);
    assert s[|local|] == '@';
    var i := IndexOf(s, '@').value;
    assert s[..i] == local;
    assert s[i + 1..] == d;
    assert d[|host|] == '.';
    assert Plain(d) by {
      forall j | 0 <= j < |d| ensures PlainChar(d[j]) {
        if j < |host| { assert d[j] == host[j]; }
        else if j > |host| { assert d[j] == tld[j - |host| - 1]; }
      }
    }
  }

  /** Every accepted text has the regular expression's shape. */
  lemma EmailParts(s: string) returns (local: string, host: string, tld: string)
    requires IsEmail(s)
    ensures s == EmailText(local, host, tld)
    ensures local != "" && host != "" && tld != ""
    ensures Plain(local) && Plain(host) && Plain(tld)
  {
    var i := IndexOf(s, '@').value;
    var d := s[i + 1..];
    var k :| 0 < k < |d| - 1 && d[k] == '.';
    local, host, tld := s[..i], d[..k], d[k + 1..];
    assert d == host + ['.'] + tld;
    assert s == local + ['@'] + d;
    EmailTextChars(local, host, tld);
    PlainSlice(d, 0, k);
    PlainSlice(d, k + 1, |d|);
  }

  predicate ValidRole(role: string)
  {
    role == "admin" || role == "user"
  }

  // ---------------------------------------------------------------------
  // Table queries

  predicate HasId(rows: seq<User>, id: int)
  {
    exists k :: 0 <= k < |rows| && rows[k].id == id
  }

  predicate EmailTaken(rows: seq<User>, email: string)
  {
    exists k :: 0 <= k < |rows| && rows[k].email == email
  }

  /** Some row other than the one with `id` holds `email`. */
  predicate EmailTakenByOther(rows: seq<User>, email: string, id: int)
  {
    exists k :: 0 <= k < |rows| && rows[k].email == email && rows[k].id != id
  }

  /** The key column that lookups by id compare. */
  function UserId(row: User): int
  {
    row.id
  }

  /** Every id is below `bound`, the next serial value. */
  ghost predicate IdsBelow(rows: seq<User>, bound: int)
  {
    forall k :: 0 <= k < |rows| ==> rows[k].id < bound
  }

  /** Ids and emails are unique. */
  ghost predicate UniqueRows(rows: seq<User>)
  {
    forall i, j :: 0 <= i < j < |rows| ==> rows[i].id != rows[j].id && rows[i].email != rows[j].email
  }

  // ---------------------------------------------------------------------
  // Creation

  /** A creation request; None is a field the JSON body does not carry. */
  datatype CreateBody = CreateBody(email: Option<string>, password: Option<string>, fullName: Option<string>, role: Option<string>)

  function OrEmpty(o: Option<string>): string
  {
    if o.Some? then o.value else ""
  }

  /** The role after destructuring with its default. */
  function RoleOf(b: CreateBody): string
  {
    if b.role.Some? then b.role.value else DefaultRole
  }

  /** The creation checks in the order the handler runs them. */
  function CreateChecks(b: CreateBody, rows: seq<User>): seq<Check>
  {
    [ Check(!(Present(b.email) && Present(b.password) && Present(b.fullName)), HttpError(400, MissingFields)),
      Check(!IsEmail(OrEmpty(b.email)), HttpError(400, InvalidEmail)),
      Check(Utf16Length(OrEmpty(b.password)) < MinPasswordLength, HttpError(400, ShortPassword)),
      Check(!ValidRole(RoleOf(b)), HttpError(400, InvalidRole)),
      Check(EmailTaken(rows, OrEmpty(b.email)), HttpError(409, EmailExists)) ]
  }

  /** A request is accepted exactly when all three fields are present, the
      email is well formed, the password is 8 UTF-16 code units or longer
      (`password.length`), the role (default 'user') is admin or user, and
      no row holds the email. */
  lemma CreateAcceptedIff(b: CreateBody, rows: seq<User>)
    ensures FirstFailure(CreateChecks(b, rows)).None? <==>
      && Present(b.email) && Present(b.password) && Present(b.fullName)
      && IsEmail(b.email.value) && Utf16Length(b.password.value) >= MinPasswordLength
      && ValidRole(RoleOf(b)) && !EmailTaken(rows, b.email.value)
  {
    var c := CreateChecks(b, rows);
    assert !c[0].fails && !c[1].fails && !c[2].fails && !c[3].fails && !c[4].fails ==>
      forall k :: 0 <= k < |c| ==> !c[k].fails;
  }

  /** A missing field is reported before anything else, whatever the rest. */
  lemma MissingFieldReportedFirst(b: CreateBody, rows: seq<User>)
    requires !Present(b.email) || !Present(b.password) || !Present(b.fullName)
    ensures FirstFailure(CreateChecks(b, rows)) == Some(HttpError(400, MissingFields))
  {
    FirstFailureAt(CreateChecks(b, rows), 0);
  }

  /** A 409 is only ever answered to an otherwise valid request. */
  lemma ConflictOnlyWhenValid(b: CreateBody, rows: seq<User>)
    requires FirstFailure(CreateChecks(b, rows)) == Some(HttpError(409, EmailExists))
    ensures Present(b.email) && Present(b.password) && Present(b.fullName)
    ensures IsEmail(b.email.value) && Utf16Length(b.password.value) >= MinPasswordLength && ValidRole(RoleOf(b))
    ensures EmailTaken(rows, b.email.value)
  {
    var c := CreateChecks(b, rows);
    var k := FirstFailureIndex(c);
    assert k == 4;
    assert !c[0].fails && !c[1].fails && !c[2].fails && !c[3].fails;
  }

  /** The position of the check whose error `FirstFailure` reports. */
  lemma {:induction false} FirstFailureIndex(c: seq<Check>) returns (k: nat)
    requires FirstFailure(c).Some?
    ensures k < |c| && c[k].fails && FirstFailure(c) == Some(c[k].error)
    ensures forall j :: 0 <= j < k ==> !c[j].fails
  {
    if c[0].fails {
      k := 0;
    } else {
      var k1 := FirstFailureIndex(c[1..]);
      k := k1 + 1;
      assert forall j :: 1 <= j < k ==> c[j] == c[1..][j - 1];
    }
  }

  // ---------------------------------------------------------------------
  // Partial update

  /** An update request; None is a field the JSON body does not carry. */
  datatype UpdateBody = UpdateBody(email: Option<string>, fullName: Option<string>, role: Option<string>, isActive: Option<bool>)

  function AsText(v: Option<string>): Option<SqlUpdate.SqlValue>
  {
    if v.Some? then Some(SqlUpdate.Text(v.value)) else None
  }

  function AsFlag(v: Option<bool>): Option<SqlUpdate.SqlValue>
  {
    if v.Some? then Some(SqlUpdate.Flag(v.value)) else None
  }

  /** The supplied fields in the order the handler pushes them. */
  function UpdateFields(b: UpdateBody): seq<SqlUpdate.Field>
  {
    SqlUpdate.Supplied("email", AsText(b.email)) + SqlUpdate.Supplied("full_name", AsText(b.fullName))
    + SqlUpdate.Supplied("role", AsText(b.role)) + SqlUpdate.Supplied("is_active", AsFlag(b.isActive))
  }

  /** The checks the handler runs before sending the statement, in order. */
  function UpdateValidation(rows: seq<User>, id: int, b: UpdateBody): seq<Check>
  {
    [ Check(b.email.Some? && !IsEmail(b.email.value), HttpError(400, InvalidEmail)),
      Check(b.email.Some? && EmailTakenByOther(rows, b.email.value, id), HttpError(409, EmailExists)),
      Check(b.role.Some? && !ValidRole(b.role.value), HttpError(400, InvalidRole)),
      Check(UpdateFields(b) == [], HttpError(400, NoFields)) ]
  }

  /** The validation chain answers with the first failing check's error,
      read in the handler's order. */
  lemma UpdateValidationCascade(rows: seq<User>, id: int, b: UpdateBody)
    ensures FirstFailure(UpdateValidation(rows, id, b)) ==
      if b.email.Some? && !IsEmail(b.email.value) then Some(HttpError(400, InvalidEmail))
      else if b.email.Some? && EmailTakenByOther(rows, b.email.value, id) then Some(HttpError(409, EmailExists))
      else if b.role.Some? && !ValidRole(b.role.value) then Some(HttpError(400, InvalidRole))
      else if UpdateFields(b) == [] then Some(HttpError(400, NoFields))
      else None
  {
    var c := UpdateValidation(rows, id, b);
    if c[0].fails {
      FirstFailureAt(c, 0);
    } else if c[1].fails {
      FirstFailureAt(c, 1);
    } else if c[2].fails {
      FirstFailureAt(c, 2);
    } else if c[3].fails {
      FirstFailureAt(c, 3);
    } else {
      assert forall k :: 0 <= k < |c| ==> !c[k].fails;
    }
  }

  /** All update checks; the last one is the empty result of the UPDATE. */
  function UpdateChecks(rows: seq<User>, id: int, b: UpdateBody): seq<Check>
  {
    UpdateValidation(rows, id, b) + [Check(!HasId(rows, id), HttpError(404, UserNotFound))]
  }

  function TextOr(v: Option<SqlUpdate.SqlValue>, otherwise: string): string
  {
    if v.Some? && v.value.Text? then v.value.text else otherwise
  }

  function FlagOr(v: Option<SqlUpdate.SqlValue>, otherwise: bool): bool
  {
    if v.Some? && v.value.Flag? then v.value.flag else otherwise
  }

  /** A row after the database executes the statement on it. */
  function Apply(u: User, s: SqlUpdate.Update): User
  {
    u.(email := TextOr(SqlUpdate.Assigned(s.assignments, s.values, "email"), u.email),
       fullName := TextOr(SqlUpdate.Assigned(s.assignments, s.values, "full_name"), u.fullName),
       role := TextOr(SqlUpdate.Assigned(s.assignments, s.values, "role"), u.role),
       isActive := FlagOr(SqlUpdate.Assigned(s.assignments, s.values, "is_active"), u.isActive))
  }

  lemma ColumnsDistinct()
    ensures "email" != "full_name" && "email" != "role" && "email" != "is_active"
    ensures "full_name" != "role" && "full_name" != "is_active" && "role" != "is_active"
  {
    assert "email"[0] == 'e' && "full_name"[0] == 'f' && "role"[0] == 'r' && "is_active"[0] == 'i';
  }

  /** The value the update binds to `column`, from the four supplied fields. */
  lemma UpdateFieldValue(b: UpdateBody, column: string)
    ensures SqlUpdate.FieldValue(UpdateFields(b), column) ==
      var e, n, r, a := SqlUpdate.Supplied("email", AsText(b.email)), SqlUpdate.Supplied("full_name", AsText(b.fullName)),
                        SqlUpdate.Supplied("role", AsText(b.role)), SqlUpdate.Supplied("is_active", AsFlag(b.isActive));
      if SqlUpdate.FieldValue(e, column).Some? then SqlUpdate.FieldValue(e, column)
      else if SqlUpdate.FieldValue(n, column).Some? then SqlUpdate.FieldValue(n, column)
      else if SqlUpdate.FieldValue(r, column).Some? then SqlUpdate.FieldValue(r, column)
      else SqlUpdate.FieldValue(a, column)
  {
    var e, n, r, a := SqlUpdate.Supplied("email", AsText(b.email)), SqlUpdate.Supplied("full_name", AsText(b.fullName)),
                      SqlUpdate.Supplied("role", AsText(b.role)), SqlUpdate.Supplied("is_active", AsFlag(b.isActive));
    SqlUpdate.FieldValueAppend(e, n, column);
    SqlUpdate.FieldValueAppend(e + n, r, column);
    SqlUpdate.FieldValueAppend(e + n + r, a, column);
  }

  lemma UpdateFieldValues(b: UpdateBody)
    ensures SqlUpdate.FieldValue(UpdateFields(b), "email") == if b.email.Some? then Some(SqlUpdate.Text(b.email.value)) else None
    ensures SqlUpdate.FieldValue(UpdateFields(b), "full_name") == if b.fullName.Some? then Some(SqlUpdate.Text(b.fullName.value)) else None
    ensures SqlUpdate.FieldValue(UpdateFields(b), "role") == if b.role.Some? then Some(SqlUpdate.Text(b.role.value)) else None
    ensures SqlUpdate.FieldValue(UpdateFields(b), "is_active") == if b.isActive.Some? then Some(SqlUpdate.Flag(b.isActive.value)) else None
  {
    ColumnsDistinct();
    UpdateFieldValue(b, "email");
    UpdateFieldValue(b, "full_name");
    UpdateFieldValue(b, "role");
    UpdateFieldValue(b, "is_active");
    SqlUpdate.SuppliedValue("email", AsText(b.email), "full_name");
    SqlUpdate.SuppliedValue("email", AsText(b.email), "role");
    SqlUpdate.SuppliedValue("email", AsText(b.email), "is_active");
    SqlUpdate.SuppliedValue("full_name", AsText(b.fullName), "role");
    SqlUpdate.SuppliedValue("full_name", AsText(b.fullName), "is_active");
    SqlUpdate.SuppliedValue("role", AsText(b.role), "is_active");
    SqlUpdate.SuppliedValue("email", AsText(b.email), "email");
    SqlUpdate.SuppliedValue("full_name", AsText(b.fullName), "full_name");
    SqlUpdate.SuppliedValue("role", AsText(b.role), "role");
    SqlUpdate.SuppliedValue("is_active", AsFlag(b.isActive), "is_active");
  }

  /** The SET list holds exactly the supplied fields, at most the four
      columns, numbered `$1..$n`, then the timestamp, with the id as `$(n+1)`. */
  lemma UpdateStatementShape(b: UpdateBody, id: int)
    ensures |UpdateFields(b)| <= 4
    ensures |UpdateFields(b)| == (if b.email.Some? then 1 else 0) + (if b.fullName.Some? then 1 else 0)
                                 + (if b.role.Some? then 1 else 0) + (if b.isActive.Some? then 1 else 0)
    ensures SqlUpdate.WellNumbered(SqlUpdate.Statement(UpdateFields(b), SqlUpdate.Number(id)))
    ensures SqlUpdate.Statement(UpdateFields(b), SqlUpdate.Number(id)).whereParam == |UpdateFields(b)| + 1
  {
    SqlUpdate.StatementWellNumbered(UpdateFields(b), SqlUpdate.Number(id));
  }

  /** The update writes the supplied columns and nothing else: id and
      password hash are untouched, as is every column not supplied. */
  lemma UpdateWritesSupplied(u: User, b: UpdateBody, id: int)
    ensures Apply(u, SqlUpdate.Statement(UpdateFields(b), SqlUpdate.Number(id))) ==
      u.(email := OrElse(b.email, u.email), fullName := OrElse(b.fullName, u.fullName),
         role := OrElse(b.role, u.role), isActive := if b.isActive.Some? then b.isActive.value else u.isActive)
  {
    var s := SqlUpdate.Statement(UpdateFields(b), SqlUpdate.Number(id));
    UpdateFieldValues(b);
    SqlUpdate.StatementWrites(UpdateFields(b), SqlUpdate.Number(id), "email");
    SqlUpdate.StatementWrites(UpdateFields(b), SqlUpdate.Number(id), "full_name");
    SqlUpdate.StatementWrites(UpdateFields(b), SqlUpdate.Number(id), "role");
    SqlUpdate.StatementWrites(UpdateFields(b), SqlUpdate.Number(id), "is_active");
  }

  function OrElse(v: Option<string>, otherwise: string): string
  {
    if v.Some? then v.value else otherwise
  }

  /** An update supplying none of the four fields answers 400 'No fields to
      update'; nothing is written. */
  lemma EmptyUpdateRejected(rows: seq<User>, id: int, b: UpdateBody)
    requires b.email.None? && b.fullName.None? && b.role.None? && b.isActive.None?
    ensures FirstFailure(UpdateChecks(rows, id, b)) == Some(HttpError(400, NoFields))
  {
    FirstFailureAt(UpdateValidation(rows, id, b), 3);
    FirstFailureAppend(UpdateValidation(rows, id, b), [Check(!HasId(rows, id), HttpError(404, UserNotFound))]);
  }

  /** Resubmitting the email the user already has is no conflict: the
      uniqueness check ignores the row being updated. */
  lemma OwnEmailNoConflict(rows: seq<User>, id: int, k: nat, b: UpdateBody)
    requires UniqueRows(rows) && k < |rows| && rows[k].id == id
    requires b.email == Some(rows[k].email)
    ensures !UpdateValidation(rows, id, b)[1].fails
  {
  }

  // ---------------------------------------------------------------------
  // Password change

  function PasswordChecks(rows: seq<User>, id: int, password: Option<string>): seq<Check>
  {
    [ Check(!Present(password), HttpError(400, PasswordRequired)),
      Check(Utf16Length(OrEmpty(password)) < MinPasswordLength, HttpError(400, ShortPassword)),
      Check(!HasId(rows, id), HttpError(404, UserNotFound)) ]
  }

  /** A password change is refused unless the password is present and is
      8 UTF-16 code units or longer (`password.length`), and the user exists. */
  lemma PasswordAcceptedIff(rows: seq<User>, id: int, password: Option<string>)
    ensures FirstFailure(PasswordChecks(rows, id, password)).None? <==>
      Present(password) && Utf16Length(password.value) >= MinPasswordLength && HasId(rows, id)
  {
    var c := PasswordChecks(rows, id, password);
    assert !c[0].fails && !c[1].fails && !c[2].fails ==> forall k :: 0 <= k < |c| ==> !c[k].fails;
  }

  /** The length test counts code units: four emoji are long enough for
      both creation and a password change. */
  lemma AstralPasswordLongEnough(b: CreateBody, rows: seq<User>, id: int)
    requires b.password.Some? && |b.password.value| == 4
    requires forall i :: 0 <= i < 4 ==> b.password.value[i] as int >= 0x1_0000
    ensures !CreateChecks(b, rows)[2].fails
    ensures !PasswordChecks(rows, id, b.password)[1].fails
  {
    Utf16LengthAstral(b.password.value);
  }

  // ---------------------------------------------------------------------
  // The table

  class UserTable {
    var rows: seq<User>
    var nextId: int

    ghost predicate Valid()
      reads this
    {
      UniqueRows(rows) && IdsBelow(rows, nextId)
    }

    constructor ()
      ensures rows == [] && Valid()
    {
      rows := [];
      nextId := 1;
    }

    /** GET /:id */
    method Get(id: int) returns (r: Result<Profile>)
      ensures r.Err? <==> !HasId(rows, id)
      ensures r.Err? ==> r.error == HttpError(404, UserNotFound)
      ensures r.Ok? ==> exists k :: 0 <= k < |rows| && rows[k].id == id && r.value == ProfileOf(rows[k])
    {
      var k := Rows.Find(rows, UserId, id);
      if k.None? {
        return Err(HttpError(404, UserNotFound));
      }
      r := Ok(ProfileOf(rows[k.value]));
    }

    /** POST /: the new row gets the next serial id, the given role or
        'user', is active, and stores the hash computed for the password. */
    method Create(b: CreateBody, passwordHash: string) returns (r: Result<Profile>)
      requires Valid()
      modifies this
      ensures Valid()
      ensures r.Err? <==> FirstFailure(CreateChecks(b, old(rows))).Some?
      ensures r.Err? ==> Some(r.error) == FirstFailure(CreateChecks(b, old(rows)))
                         && rows == old(rows) && nextId == old(nextId)
      ensures r.Ok? ==>
        var u := User(old(nextId), b.email.value, passwordHash, b.fullName.value, RoleOf(b), true);
        rows == old(rows) + [u] && r.value == ProfileOf(u) && nextId == old(nextId) + 1
    {
      var checks := CreateChecks(b, rows);
      var failure := FirstFailure(checks);
      if failure.Some? {
        return Err(failure.value);
      }
      CreateAcceptedIff(b, rows);
      var u := User(nextId, b.email.value, passwordHash, b.fullName.value, RoleOf(b), true);
      rows := rows + [u];
      nextId := nextId + 1;
      r := Ok(ProfileOf(u));
    }

    /** The database executing an update statement: the row with `id`, if
        any, gets the statement's values; its new columns are returned. */
    method Execute(s: SqlUpdate.Update, id: int) returns (found: Option<Profile>)
      requires Valid()
      requires forall k :: 0 <= k < |rows| && rows[k].id == id ==> UniqueRows(rows[k := Apply(rows[k], s)])
      modifies this
      ensures Valid() && nextId == old(nextId)
      ensures found.None? <==> !HasId(old(rows), id)
      ensures found.None? ==> rows == old(rows)
      ensures found.Some? ==> exists k :: 0 <= k < |old(rows)| && old(rows)[k].id == id
                                && rows == old(rows)[k := Apply(old(rows)[k], s)]
                                && found.value == ProfileOf(rows[k])
    {
      var k := Rows.Find(rows, UserId, id);
      if k.None? {
        return None;
      }
      var u := Apply(rows[k.value], s);
      rows := rows[k.value := u];
      found := Some(ProfileOf(u));
    }

    /** The checks and SET-list construction of PUT /:id, up to the query. */
    method Prepare(id: int, b: UpdateBody) returns (r: Result<SqlUpdate.Update>)
      ensures r.Err? <==> FirstFailure(UpdateValidation(rows, id, b)).Some?
      ensures r.Err? ==> Some(r.error) == FirstFailure(UpdateValidation(rows, id, b))
      ensures r.Ok? ==> r.value == SqlUpdate.Statement(UpdateFields(b), SqlUpdate.Number(id))
    {
      UpdateValidationCascade(rows, id, b);
      var updates: seq<SqlUpdate.Assignment> := [];
      var values: seq<SqlUpdate.SqlValue> := [];
      var paramCount: nat := 1;
      ghost var fields: seq<SqlUpdate.Field> := [];
      if b.email.Some? {
        if !IsEmail(b.email.value) {
          return Err(HttpError(400, InvalidEmail));
        }
        if EmailTakenByOther(rows, b.email.value, id) {
          return Err(HttpError(409, EmailExists));
        }
      }
      updates, values, paramCount := SqlUpdate.PushSupplied(updates, values, paramCount, fields, "email", AsText(b.email));
      fields := fields + SqlUpdate.Supplied("email", AsText(b.email));
      updates, values, paramCount := SqlUpdate.PushSupplied(updates, values, paramCount, fields, "full_name", AsText(b.fullName));
      fields := fields + SqlUpdate.Supplied("full_name", AsText(b.fullName));
      if b.role.Some? && !ValidRole(b.role.value) {
        return Err(HttpError(400, InvalidRole));
      }
      updates, values, paramCount := SqlUpdate.PushSupplied(updates, values, paramCount, fields, "role", AsText(b.role));
      fields := fields + SqlUpdate.Supplied("role", AsText(b.role));
      updates, values, paramCount := SqlUpdate.PushSupplied(updates, values, paramCount, fields, "is_active", AsFlag(b.isActive));
      fields := fields + SqlUpdate.Supplied("is_active", AsFlag(b.isActive));
      assert [] + SqlUpdate.Supplied("email", AsText(b.email)) == SqlUpdate.Supplied("email", AsText(b.email));
      if |updates| == 0 {
        return Err(HttpError(400, NoFields));
      }
      updates := updates + [SqlUpdate.Now("updated_at")];
      values := values + [SqlUpdate.Number(id)];
      r := Ok(SqlUpdate.Update(updates, values, paramCount));
    }

    /** PUT /:id: returns the answer and the statement sent to the
        database, None when the handler answered before sending one. */
    method Update(id: int, b: UpdateBody) returns (r: Result<Profile>, sent: Option<SqlUpdate.Update>)
      requires Valid()
      modifies this
      ensures Valid() && nextId == old(nextId)
      ensures r.Err? <==> FirstFailure(UpdateChecks(old(rows), id, b)).Some?
      ensures r.Err? ==> Some(r.error) == FirstFailure(UpdateChecks(old(rows), id, b)) && rows == old(rows)
      ensures sent.Some? <==> FirstFailure(UpdateValidation(old(rows), id, b)).None?
      ensures sent.Some? ==> sent.value == SqlUpdate.Statement(UpdateFields(b), SqlUpdate.Number(id))
      ensures r.Ok? ==> sent.Some? && (exists k :: 0 <= k < |old(rows)| && old(rows)[k].id == id
                                         && rows == old(rows)[k := Apply(old(rows)[k], sent.value)]
                                         && r.value == ProfileOf(rows[k]))
    {
      var prepared := Prepare(id, b);
      FirstFailureAppend(UpdateValidation(rows, id, b), [Check(!HasId(rows, id), HttpError(404, UserNotFound))]);
      if prepared.Err? {
        return Err(prepared.error), None;
      }
      sent := Some(prepared.value);
      UpdateKeepsUnique(rows, b, id);
      var found := Execute(prepared.value, id);
      if found.None? {
        return Err(HttpError(404, UserNotFound)), sent;
      }
      r := Ok(found.value);
    }

    /** PUT /:id/password */
    method ChangePassword(id: int, password: Option<string>, passwordHash: string) returns (r: Result<string>)
      requires Valid()
      modifies this
      ensures Valid() && nextId == old(nextId)
      ensures r.Err? <==> FirstFailure(PasswordChecks(old(rows), id, password)).Some?
      ensures r.Err? ==> Some(r.error) == FirstFailure(PasswordChecks(old(rows), id, password)) && rows == old(rows)
      ensures r.Ok? ==> r.value == PasswordUpdated
                        && (exists k :: 0 <= k < |old(rows)| && old(rows)[k].id == id
                              && rows == old(rows)[k := old(rows)[k].(passwordHash := passwordHash)])
    {
      var checks := PasswordChecks(rows, id, password);
      var failure := FirstFailure(checks);
      if failure.Some? {
        return Err(failure.value);
      }
      PasswordAcceptedIff(rows, id, password);
      var k := Rows.Find(rows, UserId, id).value;
      rows := rows[k := rows[k].(passwordHash := passwordHash)];
      r := Ok(PasswordUpdated);
    }

    /** DELETE /:id */
    method Delete(id: int) returns (r: Result<string>)
      requires Valid()
      modifies this
      ensures Valid() && nextId == old(nextId)
      ensures r.Err? <==> !HasId(old(rows), id)
      ensures r.Err? ==> r.error == HttpError(404, UserNotFound) && rows == old(rows)
      ensures r.Ok? ==> r.value == UserDeleted
                        && (exists k :: 0 <= k < |old(rows)| && old(rows)[k].id == id
                              && rows == old(rows)[..k] + old(rows)[k + 1..])
      ensures !HasId(rows, id)
    {
      var k := Rows.Find(rows, UserId, id);
      if k.None? {
        return Err(HttpError(404, UserNotFound));
      }
      ghost var before := rows;
      rows := rows[..k.value] + rows[k.value + 1..];
      RemoveKeepsUnique(before, k.value, nextId);
      r := Ok(UserDeleted);
    }
  }

  /** An update that passed the uniqueness check keeps ids and emails unique. */
  lemma UpdateKeepsUnique(rows: seq<User>, b: UpdateBody, id: int)
    requires UniqueRows(rows)
    requires !(b.email.Some? && EmailTakenByOther(rows, b.email.value, id))
    ensures forall k :: 0 <= k < |rows| && rows[k].id == id ==>
      UniqueRows(rows[k := Apply(rows[k], SqlUpdate.Statement(UpdateFields(b), SqlUpdate.Number(id)))])
  {
    var s := SqlUpdate.Statement(UpdateFields(b), SqlUpdate.Number(id));
    forall k | 0 <= k < |rows| && rows[k].id == id
      ensures UniqueRows(rows[k := Apply(rows[k], s)])
    {
      UpdateWritesSupplied(rows[k], b, id);
      var rows' := rows[k := Apply(rows[k], s)];
      forall i, j | 0 <= i < j < |rows'|
        ensures rows'[i].id != rows'[j].id && rows'[i].email != rows'[j].email
      {
        if i == k && b.email.Some? {
          assert rows[j].id != id;
        } else if j == k && b.email.Some? {
          assert rows[i].id != id;
        }
      }
    }
  }

  lemma RemoveKeepsUnique(rows: seq<User>, k: nat, bound: int)
    requires UniqueRows(rows) && IdsBelow(rows, bound) && k < |rows|
    ensures UniqueRows(rows[..k] + rows[k + 1..]) && IdsBelow(rows[..k] + rows[k + 1..], bound)
    ensures !HasId(rows[..k] + rows[k + 1..], rows[k].id)
  {
    var r := rows[..k] + rows[k + 1..];
    assert forall j :: 0 <= j < |r| ==> r[j] == if j < k then rows[j] else rows[j + 1];
  }
}
