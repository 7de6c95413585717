/**
 * The employee API of the back office: the role list read from the column's
 * MySQL `enum(...)` type, and the `employee` table with its lookup, insert,
 * delete and partial update. The table keeps ids and email addresses
 * unique: insert and update both refuse an address another row holds.
 */
module EmployeeRoutes {
  import opened Common
  import opened Text
  import opened Lists
  import opened SqlNumbers

  // ------------------------------------------------------------ GET /roles

  /** Strips the `enum(` opening and the first `)` from the column type. */
  function CleanEnum(columnType: string): string {
    ReplaceFirst(ReplaceFirst(columnType, "enum(", ""), ")", "")
  }

  /** One enum field with its single quotes removed and its white space trimmed. */
  function CleanValue(field: string): (v: string)
    ensures '\'' !in v && Trimmed(v)
  {
    var unquoted := RemoveAll(field, '\'');
    var v := Trim(unquoted);
    TrimAddsNothing(unquoted);
    v
  }

  /** The role names read from a column type such as `enum('admin','staff')`: one per comma-separated field. */
  function ParseRoles(columnType: string): (roles: seq<string>)
    ensures |roles| == Count(CleanEnum(columnType), ',') + 1
    ensures forall k :: 0 <= k < |roles| ==> '\'' !in roles[k] && Trimmed(roles[k])
  {
    var fields := Split(CleanEnum(columnType), ',');
    seq(|fields|, k requires 0 <= k < |fields| => CleanValue(fields[k]))
  }

  function Quoted(v: string): string {
    "'" + v + "'"
  }

  /** The type string MySQL reports for an enum column with the given values. */
  function EnumType(values: seq<string>): string {
    "enum(" + Join(QuotedAll(values), ',') + ")"
  }

  function QuotedAll(values: seq<string>): (r: seq<string>)
    ensures |r| == |values| && forall k :: 0 <= k < |values| ==> r[k] == Quoted(values[k])
  {
    seq(|values|, k requires 0 <= k < |values| => Quoted(values[k]))
  }

  /** A value that survives the round trip: no quote, comma or `)` inside and no white space at either end. */
  predicate PlainValue(v: string) {
    '\'' !in v && ',' !in v && ')' !in v && Trimmed(v)
  }

  /** Parsing the type of an enum column gives back exactly its values, in order. */
  lemma ParseRolesOfEnumType(values: seq<string>)
    requires values != []
    requires forall k :: 0 <= k < |values| ==> PlainValue(values[k])
    ensures ParseRoles(EnumType(values)) == values
  {
    var quoted := QuotedAll(values);
    forall k | 0 <= k < |quoted|
      ensures ',' !in quoted[k] && ')' !in quoted[k]
    {
      QuotedFree(values[k], ',');
      QuotedFree(values[k], ')');
    }
    CleanEnumOfEnumType(values);
    SplitJoin(quoted, ',');
    var roles := ParseRoles(EnumType(values));
    forall k | 0 <= k < |values|
      ensures roles[k] == values[k]
    {
      CleanValueOfQuoted(values[k]);
    }
  }

  /** Quoting adds only quotes. */
  lemma QuotedFree(v: string, c: char)
    requires c != '\'' && c !in v
    ensures c !in Quoted(v)
  {
  }

  /** Removing `enum(` and the first `)` leaves the quoted values joined by commas. */
  lemma CleanEnumOfEnumType(values: seq<string>)
    requires forall k :: 0 <= k < |values| ==> ')' !in Quoted(values[k])
    ensures CleanEnum(EnumType(values)) == Join(QuotedAll(values), ',')
  {
    var quoted := QuotedAll(values);
    var joined := Join(quoted, ',');
    assert ReplaceFirst(EnumType(values), "enum(", "") == joined + ")" by {
      assert EnumType(values)[..5] == "enum(";
      assert EnumType(values)[5..] == joined + ")";
    }
    JoinFree(quoted, ',', ')');
    ReplaceFirstAtEnd(joined, ')');
  }

  /** Unquoting and trimming a quoted plain value gives the value back. */
  lemma CleanValueOfQuoted(v: string)
    requires PlainValue(v)
    ensures CleanValue(Quoted(v)) == v
  {
    RemoveAllConcat("'" + v, "'", '\'');
    RemoveAllConcat("'", v, '\'');
    assert RemoveAll(Quoted(v), '\'') == v;
    TrimOfTrimmed(v);
  }

  // ------------------------------------------------------------ the table

  /** A row of the `employee` table. A missing mobile number is NULL; `updatedAt` is the `updated_at` column. */
  datatype Employee = Employee(
    id: nat,
    name: string,
    email: string,
    password: string,
    mobile: Option<string>,
    role: string,
    updatedAt: Option<int>)

  /** A JSON request body. An absent field is `None`; JavaScript treats absent and `""` alike as false. */
  datatype EmployeeBody = EmployeeBody(
    name: Option<string>,
    email: Option<string>,
    password: Option<string>,
    mobile: Option<string>,
    role: Option<string>)

  /** JavaScript truthiness of a string field. */
  predicate Given(f: Option<string>) {
    f.Some? && f.value != ""
  }

  /** The `:id` path parameter passes the `isNaN` check: here, a non-empty run of decimal digits. */
  predicate IsNumericId(param: string) {
    param != [] && AllDigits(param)
  }

  function IdValue(param: string): nat
    requires IsNumericId(param)
  {
    DecimalValue(param)
  }

  predicate HasId(rows: seq<Employee>, id: nat) {
    exists k :: 0 <= k < |rows| && rows[k].id == id
  }

  /** Another row than `id` already holds `email` (the `email = ? AND id != ?` query). */
  predicate EmailTakenByOther(rows: seq<Employee>, email: string, id: int) {
    exists k :: 0 <= k < |rows| && rows[k].email == email && rows[k].id != id
  }

  predicate EmailTaken(rows: seq<Employee>, email: string) {
    exists k :: 0 <= k < |rows| && rows[k].email == email
  }

  function WithId(id: nat): Employee -> bool {
    (e: Employee) => e.id == id
  }

  /** The position of the row with this id, if any. */
  function IndexOfId(rows: seq<Employee>, id: nat): (r: Option<nat>)
    ensures r.None? <==> !HasId(rows, id)
    ensures r.Some? ==> r.value < |rows| && rows[r.value].id == id
  {
    FindIndex(rows, WithId(id))
  }

  predicate UniqueEmails(rows: seq<Employee>) {
    forall p, q :: 0 <= p < q < |rows| ==> rows[p].email != rows[q].email
  }

  /** Ids are unique and below the auto-increment counter, and no two rows share an email address. */
  predicate TableValid(rows: seq<Employee>, nextId: nat) {
    && (forall p, q :: 0 <= p < q < |rows| ==> rows[p].id != rows[q].id)
    && (forall k :: 0 <= k < |rows| ==> rows[k].id < nextId)
    && UniqueEmails(rows)
  }

  lemma AppendKeepsTableValid(rows: seq<Employee>, nextId: nat, e: Employee)
    requires TableValid(rows, nextId)
    requires e.id == nextId && !EmailTaken(rows, e.email)
    ensures !HasId(rows, e.id)
    ensures TableValid(rows + [e], nextId + 1)
  {
  }

  lemma RemoveKeepsTableValid(rows: seq<Employee>, nextId: nat, k: nat)
    requires TableValid(rows, nextId) && k < |rows|
    ensures TableValid(rows[..k] + rows[k + 1..], nextId)
  {
    var r := rows[..k] + rows[k + 1..];
    assert forall i :: 0 <= i < |r| ==> r[i] == rows[if i < k then i else i + 1];
  }

  lemma ReplaceKeepsTableValid(rows: seq<Employee>, nextId: nat, k: nat, e: Employee)
    requires TableValid(rows, nextId) && k < |rows|
    requires e.id == rows[k].id
    requires !EmailTakenByOther(rows, e.email, e.id)
    ensures TableValid(rows[k := e], nextId)
  {
    var r := rows[k := e];
    forall p, q | 0 <= p < q < |r|
      ensures r[p].email != r[q].email
    {
      if p == k {
        assert rows[q].id != e.id;
      } else if q == k {
        assert rows[p].id != e.id;
      }
    }
  }

  /** Deleting the row at `k` leaves exactly the rows with another id, when ids are unique. */
  lemma RemoveKeepsOthers(rows: seq<Employee>, nextId: nat, k: nat)
    requires TableValid(rows, nextId) && k < |rows|
    ensures forall e :: e in rows[..k] + rows[k + 1..] <==> e in rows && e.id != rows[k].id
  {
    var r := rows[..k] + rows[k + 1..];
    forall e
      ensures e in r <==> e in rows && e.id != rows[k].id
    {
      if e in r {
        var i :| 0 <= i < |r| && r[i] == e;
        assert e == rows[if i < k then i else i + 1];
      }
      if e in rows && e.id != rows[k].id {
        var j :| 0 <= j < |rows| && rows[j] == e;
        assert j != k;
        assert e == r[if j < k then j else j - 1];
      }
    }
  }

  // ------------------------------------------------------------ the PUT builder

  /** The columns a PUT may set. */
  datatype Column = NameColumn | EmailColumn | MobileColumn | RoleColumn | PasswordColumn
  {
    /** Position in the order the handler tests the fields. */
    function Rank(): nat {
      match this
      case NameColumn => 0
      case EmailColumn => 1
      case MobileColumn => 2
      case RoleColumn => 3
      case PasswordColumn => 4
    }

    function Clause(): string {
      match this
      case NameColumn => "name = ?"
      case EmailColumn => "email = ?"
      case MobileColumn => "mobile = ?"
      case RoleColumn => "role = ?"
      case PasswordColumn => "password = ?"
    }
  }

  const UPDATED_AT_CLAUSE: string := "updated_at = CURRENT_TIMESTAMP"

  function Field(body: EmployeeBody, c: Column): Option<string> {
    match c
    case NameColumn => body.name
    case EmailColumn => body.email
    case MobileColumn => body.mobile
    case RoleColumn => body.role
    case PasswordColumn => body.password
  }

  /** The PUT body sets nothing: every updatable field is absent or empty. */
  predicate NothingGiven(body: EmployeeBody) {
    !Given(body.name) && !Given(body.email) && !Given(body.mobile) && !Given(body.role) && !Given(body.password)
  }

  /** The column when the body gives it, or nothing. */
  function Picked(body: EmployeeBody, c: Column): seq<Column> {
    if Given(Field(body, c)) then [c] else []
  }

  /** The columns a PUT body sets: exactly the given ones, in the handler's order. */
  function SetColumns(body: EmployeeBody): (cols: seq<Column>)
    ensures forall c :: c in cols <==> Given(Field(body, c))
    ensures cols == [] <==> NothingGiven(body)
  {
    Picked(body, NameColumn) + Picked(body, EmailColumn) + Picked(body, MobileColumn)
    + Picked(body, RoleColumn) + Picked(body, PasswordColumn)
  }

  predicate RankSorted(cols: seq<Column>) {
    forall p, q :: 0 <= p < q < |cols| ==> cols[p].Rank() < cols[q].Rank()
  }

  lemma ConcatRankSorted(a: seq<Column>, b: seq<Column>, bound: nat)
    requires RankSorted(a) && RankSorted(b)
    requires forall k :: 0 <= k < |a| ==> a[k].Rank() < bound
    requires forall k :: 0 <= k < |b| ==> bound <= b[k].Rank()
    ensures RankSorted(a + b)
  {
  }

  /** Each column is set at most once, and the clauses follow the order name, email, mobile, role, password. */
  lemma SetColumnsInOrder(body: EmployeeBody)
    ensures RankSorted(SetColumns(body))
  {
    var n, e, m, r, p :=
      Picked(body, NameColumn), Picked(body, EmailColumn), Picked(body, MobileColumn),
      Picked(body, RoleColumn), Picked(body, PasswordColumn);
    ConcatRankSorted(n, e, 1);
    ConcatRankSorted(n + e, m, 2);
    ConcatRankSorted(n + e + m, r, 3);
    ConcatRankSorted(n + e + m + r, p, 4);
  }

  /** The `column = ?` texts of some columns. */
  function Clauses(cols: seq<Column>): (r: seq<string>)
    ensures |r| == |cols| && forall k :: 0 <= k < |cols| ==> r[k] == cols[k].Clause()
  {
    seq(|cols|, k requires 0 <= k < |cols| => cols[k].Clause())
  }

  /** The body's string for one column (empty when absent). */
  function ValueOf(body: EmployeeBody, c: Column): string {
    match Field(body, c)
    case Some(v) => v
    case None => ""
  }

  /** The body's values for some columns. */
  function Values(body: EmployeeBody, cols: seq<Column>): (r: seq<string>)
    ensures |r| == |cols| && forall k :: 0 <= k < |cols| ==> r[k] == ValueOf(body, cols[k])
  {
    seq(|cols|, k requires 0 <= k < |cols| => ValueOf(body, cols[k]))
  }

  lemma ClausesAndValuesConcat(body: EmployeeBody, a: seq<Column>, b: seq<Column>)
    ensures Clauses(a + b) == Clauses(a) + Clauses(b)
    ensures Values(body, a + b) == Values(body, a) + Values(body, b)
  {
  }

  /**
   * One `if (field) { push clause; push value }` step of the handler: the
   * lists built for the columns so far become the lists for those columns
   * and this one, when the body gives it.
   */
  method PushIfGiven(fields: seq<string>, params: seq<string>, body: EmployeeBody, c: Column, ghost cols: seq<Column>)
    returns (fields': seq<string>, params': seq<string>)
    requires fields == Clauses(cols) && params == Values(body, cols)
    ensures fields' == Clauses(cols + Picked(body, c))
    ensures params' == Values(body, cols + Picked(body, c))
  {
    ClausesAndValuesConcat(body, cols, Picked(body, c));
    fields', params' := fields, params;
    if Given(Field(body, c)) {
      fields', params' := fields + [c.Clause()], params + [ValueOf(body, c)];
    }
  }

  /** Builds the SET clauses and the query parameters of a PUT, one field at a time in the handler's order. */
  method BuildUpdate(body: EmployeeBody, idParam: string) returns (fields: seq<string>, params: seq<string>)
    ensures fields == Clauses(SetColumns(body)) + [UPDATED_AT_CLAUSE]
    ensures params == Values(body, SetColumns(body)) + [idParam]
  {
    var n, e, m, r, p :=
      Picked(body, NameColumn), Picked(body, EmailColumn), Picked(body, MobileColumn),
      Picked(body, RoleColumn), Picked(body, PasswordColumn);
    fields, params := [], [];
    assert [] + n == n;
    fields, params := PushIfGiven(fields, params, body, NameColumn, []);
    fields, params := PushIfGiven(fields, params, body, EmailColumn, n);
    fields, params := PushIfGiven(fields, params, body, MobileColumn, n + e);
    fields, params := PushIfGiven(fields, params, body, RoleColumn, n + e + m);
    fields, params := PushIfGiven(fields, params, body, PasswordColumn, n + e + m + r);
    fields, params := fields + [UPDATED_AT_CLAUSE], params + [idParam];
  }

  /** The value a row holds in one settable column. */
  function Stored(e: Employee, c: Column): Option<string> {
    match c
    case NameColumn => Some(e.name)
    case EmailColumn => Some(e.email)
    case MobileColumn => e.mobile
    case RoleColumn => Some(e.role)
    case PasswordColumn => Some(e.password)
  }

  /** One `column = ?` assignment of the UPDATE. */
  function Assign(e: Employee, c: Column, v: string): (r: Employee)
    ensures r.id == e.id && r.updatedAt == e.updatedAt
    ensures forall d :: Stored(r, d) == if d == c then Some(v) else Stored(e, d)
  {
    match c
    case NameColumn => e.(name := v)
    case EmailColumn => e.(email := v)
    case MobileColumn => e.(mobile := Some(v))
    case RoleColumn => e.(role := v)
    case PasswordColumn => e.(password := v)
  }

  /** The UPDATE's assignments, left to right. */
  function ApplyColumns(e: Employee, cols: seq<Column>, body: EmployeeBody): Employee
    decreases |cols|
  {
    if cols == [] then e
    else ApplyColumns(Assign(e, cols[0], ValueOf(body, cols[0])), cols[1..], body)
  }

  /** After the assignments, a listed column holds the body's value and every other column is unchanged. */
  lemma {:induction false} ApplyColumnsEffect(e: Employee, cols: seq<Column>, body: EmployeeBody)
    ensures ApplyColumns(e, cols, body).id == e.id
    ensures ApplyColumns(e, cols, body).updatedAt == e.updatedAt
    ensures forall d :: Stored(ApplyColumns(e, cols, body), d) == if d in cols then Some(ValueOf(body, d)) else Stored(e, d)
    decreases |cols|
  {
    if cols != [] {
      var e' := Assign(e, cols[0], ValueOf(body, cols[0]));
      ApplyColumnsEffect(e', cols[1..], body);
      assert forall d :: d in cols <==> d == cols[0] || d in cols[1..];
    }
  }

  /** The row the PUT's UPDATE leaves: every given field written, the rest kept, `updated_at` set to now. */
  function Updated(e: Employee, body: EmployeeBody, now: int): (r: Employee)
    ensures r.id == e.id && r.updatedAt == Some(now)
    ensures forall c :: Stored(r, c) == if Given(Field(body, c)) then Field(body, c) else Stored(e, c)
  {
    var cols := SetColumns(body);
    ApplyColumnsEffect(e, cols, body);
    ApplyColumns(e, cols, body).(updatedAt := Some(now))
  }

  // ------------------------------------------------------------ POST /

  predicate MissingRequired(body: EmployeeBody) {
    !Given(body.name) || !Given(body.email) || !Given(body.password) || !Given(body.role)
  }

  /** The row the INSERT writes under a new id; `mobile` is stored as sent. */
  function NewRow(body: EmployeeBody, id: nat): Employee
    requires !MissingRequired(body)
  {
    Employee(id, body.name.value, body.email.value, body.password.value, body.mobile, body.role.value, None)
  }

  /** The `employee` table and its auto-increment counter. */
  class EmployeeTable {
    var rows: seq<Employee>
    var nextId: nat

    ghost predicate Valid()
      reads this
    {
      TableValid(rows, nextId)
    }

    constructor ()
      ensures Valid() && rows == []
    {
      rows, nextId := [], 1;
    }

    /** GET /:id: 400 for an id that is not a number, 404 when no row has it. */
    function Get(idParam: string): (reply: Reply<Employee>)
      reads this
      ensures reply.Ok? || reply.BadRequest? || reply.NotFound?
      ensures reply.BadRequest? <==> !IsNumericId(idParam)
      ensures reply.NotFound? <==> IsNumericId(idParam) && !HasId(rows, IdValue(idParam))
      ensures reply.Ok? ==> reply.body in rows && reply.body.id == IdValue(idParam)
    {
      if !IsNumericId(idParam) then BadRequest("Invalid employee ID format")
      else
        match IndexOfId(rows, IdValue(idParam))
        case None => NotFound("Employee not found")
        case Some(k) => Ok(rows[k])
    }

    /**
     * POST /: 400 when a required field is missing or the email address is
     * already in the table; otherwise the row is inserted under a new id.
     */
    method Add(body: EmployeeBody) returns (reply: Reply<Employee>)
      requires Valid()
      modifies this
      ensures Valid()
      ensures reply.Created? || reply.BadRequest?
      ensures reply.BadRequest? <==> MissingRequired(body) || EmailTaken(old(rows), body.email.value)
      ensures reply.BadRequest? ==> rows == old(rows)
      ensures reply.Created? ==>
        && !HasId(old(rows), reply.body.id)
        && reply.body == NewRow(body, reply.body.id)
        && rows == old(rows) + [reply.body]
    {
      if MissingRequired(body) {
        return BadRequest("Missing required fields");
      }
      if EmailTaken(rows, body.email.value) {
        return BadRequest("Email already exists");
      }
      var e := NewRow(body, nextId);
      AppendKeepsTableValid(rows, nextId, e);
      rows, nextId := rows + [e], nextId + 1;
      reply := Created(e);
    }

    /** DELETE /:id: 400 for an empty id, 404 when no row has the id MySQL reads from it, otherwise that row is removed. */
    method Delete(idParam: string) returns (reply: Reply<string>)
      requires Valid()
      modifies this
      ensures Valid()
      ensures reply.Ok? || reply.BadRequest? || reply.NotFound?
      ensures reply.BadRequest? <==> idParam == ""
      ensures reply.NotFound? <==> idParam != "" && (SqlId(idParam).None? || !HasId(old(rows), SqlId(idParam).value))
      ensures !reply.Ok? ==> rows == old(rows)
      ensures reply.Ok? ==>
        && SqlId(idParam).Some?
        && |rows| == |old(rows)| - 1
        && forall e :: e in rows <==> e in old(rows) && e.id != SqlId(idParam).value
    {
      if idParam == "" {
        return BadRequest("Employee ID is required");
      }
      var target := SqlId(idParam);
      if target.None? {
        return NotFound("Employee not found");
      }
      match IndexOfId(rows, target.value)
      case None =>
        reply := NotFound("Employee not found");
      case Some(k) =>
        RemoveKeepsTableValid(rows, nextId, k);
        RemoveKeepsOthers(rows, nextId, k);
        rows := rows[..k] + rows[k + 1..];
        reply := Ok("Employee deleted successfully");
    }

    /**
     * PUT /:id: 400 for an id that is not a number, for a body with no
     * field given, or for an email address another row holds (checked
     * before the id is looked up); 404 when no row has the id; otherwise the
     * given fields are written and `updated_at` set to `now`.
     */
    method Update(idParam: string, body: EmployeeBody, now: int) returns (reply: Reply<Employee>)
      requires Valid()
      modifies this
      ensures Valid()
      ensures reply.Ok? || reply.BadRequest? || reply.NotFound?
      ensures reply.BadRequest? <==>
        || !IsNumericId(idParam)
        || NothingGiven(body)
        || (Given(body.email) && EmailTakenByOther(old(rows), body.email.value, IdValue(idParam)))
      ensures reply.NotFound? <==> !reply.BadRequest? && !HasId(old(rows), IdValue(idParam))
      ensures !reply.Ok? ==> rows == old(rows)
      ensures reply.Ok? ==>
        var k := IndexOfId(old(rows), IdValue(idParam)).value;
        && reply.body == Updated(old(rows)[k], body, now)
        && rows == old(rows)[k := reply.body]
    {
      if !IsNumericId(idParam) {
        return BadRequest("Invalid ID format");
      }
      if SetColumns(body) == [] {
        return BadRequest("No update data");
      }
      var fields, params := BuildUpdate(body, idParam);
      var id := IdValue(idParam);
      if Given(body.email) && EmailTakenByOther(rows, body.email.value, id) {
        return BadRequest("Email already exists");
      }
      match IndexOfId(rows, id)
      case None =>
        reply := NotFound("Employee not found");
      case Some(k) =>
        var e := Updated(rows[k], body, now);
        assert !EmailTakenByOther(rows, e.email, e.id) by {
          if !Given(body.email) {
            assert Stored(e, EmailColumn) == Stored(rows[k], EmailColumn);
          } else {
            assert Stored(e, EmailColumn) == body.email;
          }
        }
        ReplaceKeepsTableValid(rows, nextId, k, e);
        rows := rows[k := e];
        reply := Ok(e);
    }
  }

  /** Keeping one's own address is not a clash: only other rows count. */
  lemma OwnEmailAllowed(rows: seq<Employee>, nextId: nat, k: nat)
    requires TableValid(rows, nextId) && k < |rows|
    ensures !EmailTakenByOther(rows, rows[k].email, rows[k].id)
  {
  }
}
