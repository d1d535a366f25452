/**
 * `validateLogin`: the role decides the table, the selected columns and the
 * fields of the returned user; the database is a function from the statement
 * to its outcome.
 */
module Login {
  import opened Results
  import opened Text

  datatype Role = Customer | Supplier | Carrier

  /** The `userType` string naming each role. */
  function Tag(r: Role): string {
    match r
    case Customer => "customer"
    case Supplier => "supplier"
    case Carrier => "carrier"
  }

  /** The role named by `userType`, if it is one of the three. */
  function ParseRole(userType: string): (r: Option<Role>)
    ensures r.Some? <==> userType in ["customer", "supplier", "carrier"]
    ensures r.Some? ==> Tag(r.value) == userType
  {
    if userType == "customer" then Some(Customer)
    else if userType == "supplier" then Some(Supplier)
    else if userType == "carrier" then Some(Carrier)
    else None
  }

  /** The table holding each kind of user. */
  function TableName(r: Role): string {
    match r
    case Customer => "Customer"
    case Supplier => "Supplier"
    case Carrier => "Carrier"
  }

  /** `s.charAt(0).toUpperCase() + s.slice(1)`. */
  function Capitalize(s: string): (c: string)
    ensures |c| == |s|
    ensures |s| > 0 ==> c[0] == UpperChar(s[0]) && c[1..] == s[1..]
  {
    if s == [] then [] else [UpperChar(s[0])] + s[1..]
  }

  /** The table name derived from the role's tag is the role's table. */
  lemma CapitalizedTagIsTable(r: Role)
    ensures Capitalize(Tag(r)) == TableName(r)
  {
    var t := Tag(r);
    assert [UpperChar(t[0])] + t[1..] == TableName(r);
  }

  /** The role-specific part of the column list. */
  function RoleColumns(r: Role): string {
    match r
    case Customer => ", contactNumber, homeAddress"
    case Supplier => ", supplyType"
    case Carrier => ", serviceArea, overallRating"
  }

  /** The columns every role selects. */
  const BaseColumns := "userID, name, password"

  /** `selectFields` once the role's columns are appended. */
  function SelectFields(r: Role): string {
    BaseColumns + RoleColumns(r)
  }

  /** The condition on the credentials: placeholder `:1` is the user id, `:2` the password. */
  const CredentialFilter := " WHERE userID = :1 AND password = :2"

  /** The query template, over the column list and the table. */
  function LoginSql(selectFields: string, tableName: string): string {
    "SELECT " + selectFields + " FROM " + tableName + CredentialFilter
  }

  /** A statement as handed to `connection.execute`: SQL text and bind values. */
  datatype Statement = Statement(sql: string, params: seq<string>)

  /** The one statement a valid login issues. */
  function LoginStatement(r: Role, userId: string, password: string): Statement {
    Statement(LoginSql(SelectFields(r), TableName(r)), [userId, password])
  }

  /** A result row keyed by upper-case column name, as `OUT_FORMAT_OBJECT` delivers it. */
  type Row<V> = map<string, V>

  datatype ExecOutcome<V> = Rows(rows: seq<Row<V>>) | DbError

  /** `userRecord.KEY`: `None` stands for `undefined`. */
  function Get<V>(row: Row<V>, key: string): Option<V> {
    if key in row then Some(row[key]) else None
  }

  /** The user object of a successful login. */
  type User<V> = map<string, Option<V>>

  /**
   * `{success: true, user}`, `{success: false}` and
   * `{success: false, message: 'Login failed'}`.
   */
  datatype LoginResult<V> = LoggedIn(user: User<V>) | NoMatch | LoginFailed

  function Succeeded<V>(res: LoginResult<V>): bool {
    res.LoggedIn?
  }

  function Message<V>(res: LoginResult<V>): Option<string> {
    if res.LoginFailed? then Some("Login failed") else None
  }

  /** The fields each role adds to `id` and `name`. */
  function RoleFields(r: Role): set<string> {
    match r
    case Customer => {"contactNumber", "homeAddress"}
    case Supplier => {"supplyType"}
    case Carrier => {"serviceArea", "overallRating"}
  }

  /** The user object normalised from the first row. */
  function UserObject<V>(r: Role, row: Row<V>): User<V> {
    var base := map["id" := Get(row, "USERID"), "name" := Get(row, "NAME")];
    match r
    case Customer => base["contactNumber" := Get(row, "CONTACTNUMBER")]["homeAddress" := Get(row, "HOMEADDRESS")]
    case Supplier => base["supplyType" := Get(row, "SUPPLYTYPE")]
    case Carrier => base["serviceArea" := Get(row, "SERVICEAREA")]["overallRating" := Get(row, "OVERALLRATING")]
  }

  /** The statements a login attempt issues: one for a valid role, none otherwise. */
  function Issued(userId: string, password: string, userType: string): seq<Statement> {
    match ParseRole(userType)
    case None => []
    case Some(r) => [LoginStatement(r, userId, password)]
  }

  /** The outcome of a login attempt against a database. */
  function Outcome<V>(userId: string, password: string, userType: string,
                      execute: Statement -> ExecOutcome<V>): LoginResult<V> {
    match ParseRole(userType)
    case None => LoginFailed
    case Some(r) =>
      match execute(LoginStatement(r, userId, password))
      case DbError => LoginFailed
      case Rows(rows) => if |rows| > 0 then LoggedIn(UserObject(r, rows[0])) else NoMatch
  }

  /** `validateLogin(userId, password, userType)`. */
  method ValidateLogin<V>(userId: string, password: string, userType: string,
                          execute: Statement -> ExecOutcome<V>)
    returns (result: LoginResult<V>, issued: seq<Statement>)
    ensures issued == Issued(userId, password, userType)
    ensures result == Outcome(userId, password, userType, execute)
  {
    issued := [];
    if userType !in ["customer", "supplier", "carrier"] {
      // 'Invalid user type' is thrown and caught as a failed login
      return LoginFailed, issued;
    }
    var role := ParseRole(userType).value;
    var tableName := Capitalize(userType);
    CapitalizedTagIsTable(role);
    var params := [userId, password];
    var selectFields := BaseColumns;
    if userType == "customer" {
      selectFields := selectFields + ", contactNumber, homeAddress";
    } else if userType == "supplier" {
      selectFields := selectFields + ", supplyType";
    } else if userType == "carrier" {
      selectFields := selectFields + ", serviceArea, overallRating";
    }
    assert selectFields == SelectFields(role);
    var query := LoginSql(selectFields, tableName);
    var statement := Statement(query, params);
    issued := [statement];
    var outcome := execute(statement);
    if outcome.DbError? {
      return LoginFailed, issued;
    }
    if |outcome.rows| > 0 {
      var userRecord := outcome.rows[0];
      var userDetails := map["id" := Get(userRecord, "USERID"), "name" := Get(userRecord, "NAME")];
      if userType == "customer" {
        userDetails := userDetails["contactNumber" := Get(userRecord, "CONTACTNUMBER")];
        userDetails := userDetails["homeAddress" := Get(userRecord, "HOMEADDRESS")];
      } else if userType == "supplier" {
        userDetails := userDetails["supplyType" := Get(userRecord, "SUPPLYTYPE")];
      } else if userType == "carrier" {
        userDetails := userDetails["serviceArea" := Get(userRecord, "SERVICEAREA")];
        userDetails := userDetails["overallRating" := Get(userRecord, "OVERALLRATING")];
      }
      result := LoggedIn(userDetails);
    } else {
      result := NoMatch;
    }
  }

  /**
   * An unknown role fails with the 'Login failed' message before any statement
   * is issued, whatever the database would answer.
   */
  lemma InvalidRoleRejected<V>(userId: string, password: string, userType: string,
                               execute: Statement -> ExecOutcome<V>)
    requires userType !in ["customer", "supplier", "carrier"]
    ensures Issued(userId, password, userType) == []
    ensures Outcome(userId, password, userType, execute) == LoginFailed
    ensures Message(Outcome(userId, password, userType, execute)) == Some("Login failed")
  {
  }

  /**
   * A valid role issues exactly one statement, against the role's table, with
   * the user id and the password as its two bind values in that order, and the
   * statement ends by matching `userID` to the first and `password` to the second.
   */
  lemma StatementShape(r: Role, userId: string, password: string)
    ensures Issued(userId, password, Tag(r)) == [LoginStatement(r, userId, password)]
    ensures LoginStatement(r, userId, password).params == [userId, password]
    ensures StartsWith(LoginStatement(r, userId, password).sql,
                       "SELECT " + SelectFields(r) + " FROM " + TableName(r))
    ensures var sql := LoginStatement(r, userId, password).sql;
      |CredentialFilter| <= |sql| && sql[|sql| - |CredentialFilter|..] == CredentialFilter
  {
    var p := "SELECT " + SelectFields(r) + " FROM " + TableName(r);
    var sql := LoginStatement(r, userId, password).sql;
    assert sql == p + CredentialFilter;
    assert sql[..|p|] == p;
    assert sql[|p|..] == CredentialFilter;
  }

  /**
   * A successful login returns `id`, `name` and exactly the role's fields, never
   * the password; `id` comes from `USERID` and every other field from the
   * upper-cased column of the same name.
   */
  lemma UserFields<V>(r: Role, row: Row<V>)
    ensures UserObject(r, row).Keys == {"id", "name"} + RoleFields(r)
    ensures "password" !in UserObject(r, row)
    ensures UserObject(r, row)["id"] == Get(row, "USERID")
    ensures forall k :: k in UserObject(r, row) && k != "id" ==> UserObject(r, row)[k] == Get(row, ToUpper(k))
  {
    UpperCaseKeys(r);
  }

  /** The upper-case names of the columns a role's user object reads. */
  lemma UpperCaseKeys(r: Role)
    ensures ToUpper("name") == "NAME"
    ensures r == Customer ==> ToUpper("contactNumber") == "CONTACTNUMBER" && ToUpper("homeAddress") == "HOMEADDRESS"
    ensures r == Supplier ==> ToUpper("supplyType") == "SUPPLYTYPE"
    ensures r == Carrier ==> ToUpper("serviceArea") == "SERVICEAREA" && ToUpper("overallRating") == "OVERALLRATING"
  {
    assert ToUpper("name") == "NAME";
    match r
    case Customer =>
      assert ToUpper("contactNumber") == "CONTACTNUMBER";
      assert ToUpper("homeAddress") == "HOMEADDRESS";
    case Supplier =>
      assert ToUpper("supplyType") == "SUPPLYTYPE";
    case Carrier =>
      assert ToUpper("serviceArea") == "SERVICEAREA";
      assert ToUpper("overallRating") == "OVERALLRATING";
  }

  /**
   * An empty answer and a failure are told apart: no match gives
   * `{success: false}` without a message, a database error the 'Login failed'
   * message.
   */
  lemma NoMatchIsNotFailure<V>(r: Role, userId: string, password: string,
                               execute: Statement -> ExecOutcome<V>)
    ensures execute(LoginStatement(r, userId, password)) == Rows([]) ==>
              Outcome(userId, password, Tag(r), execute) == NoMatch
              && Message(Outcome(userId, password, Tag(r), execute)) == None
    ensures execute(LoginStatement(r, userId, password)) == DbError ==>
              Message(Outcome(userId, password, Tag(r), execute)) == Some("Login failed")
    ensures Succeeded(Outcome(userId, password, Tag(r), execute)) <==>
              execute(LoginStatement(r, userId, password)).Rows?
              && |execute(LoginStatement(r, userId, password)).rows| > 0
  {
    assert ParseRole(Tag(r)) == Some(r);
  }
}
