# Tracking-System: SQL construction and input validation, in Dafny

Tracking-System is a small order-and-shipment tracker: an Express service in
front of an Oracle database, plus a browser script. Most of its handlers send a
fixed statement to the database. This project models the parts that build SQL
text from user input, and the validation on both sides of that step:

- **Order filter builder** (`selectionOrders` on the server), in `order_filter.dfy`.
  - A list of conditions becomes `SELECT * FROM "Order" WHERE 1=1 AND` plus one
    ` field op :k` clause per condition, with the values bound as positional
    parameters.
  - Field names and operators must be exact members of fixed lists.
  - `orderDate` values are shifted by seven UTC hours (`dates.dfy` models the
    `Date` arithmetic involved).
  - A `LIKE` value without `%` is wrapped in `%`.
- **Shipment projection** (`selectFromShipment`), in `shipment.dfy`.
  - Each comma-separated name, trimmed, must be one of seven columns.
  - The list as received, untrimmed, becomes the SELECT list.
- **Division query** (`divideModelsFromDb`), in `division.dfy`.
  - Each model is written as a SQL character-string literal, quotes doubled as
    section 5.3 of ISO/IEC 9075-2 requires, inside `SELECT '<m>' AS model FROM dual`.
  - These selects are joined by ` UNION ALL `.
- **Login** (`validateLogin`), in `login.dfy`.
  - The role chooses the table, the column list and the fields of the returned
    user.
  - The database is a function from the issued statement to its outcome.
- **Initialisation script** (`initiateDemotable`), in `init_script.dfy`.
  - The script is split at `;` into trimmed, non-empty statements, which run in
    order.
  - A failing `DROP` of a missing table (ORA-00942) is tolerated. Any other
    failure rolls back.
  - The database's answer to each statement is a parameter.
- **Browser side** (`public/scripts.js`), in `client.dfy`.
  - Filter rows are collected into conditions, and the script decides whether
    the request is sent at all.
  - The error text of a failed insert is classified into a user message.
  - Covers `sanitizeTrim`.
- **String primitives** in `text.dfy` (`trim`, `split`, `join`, `includes`,
  `startsWith`, `toUpperCase`, decimal rendering) and `Result`/`Option` in
  `results.dfy`.

Each imperative routine of the source is a `method` that keeps the source's
loop and variables. Its `ensures` ties the result to a specification function,
and lemmas state what the source promises about that function.

Two observations about the code, both visible in the lemmas:

- The logical connector of a condition is not checked against any list. It is
  copied verbatim into the SQL text (`OrderFilter.SqlLayout`), unlike the field
  and the operator, so it can add placeholders of its own
  (`OrderFilter.ColonInConnectorBreaksCount`).
- The browser gives a condition a connector according to its row's DOM index,
  not according to its position in the list sent. So the first condition sent
  can carry one (`Client.FirstSentMayCarryConnector`); the server then ignores
  it (`OrderFilter.FirstConnectorIgnored`).

## Model

| member | source | states |
|---|---|---|
| OrderFilter.SelectionOrders | src/appService.js:217-256 | The clause-building loop yields the first failing condition's error and no statement, or the SQL text and parameter list that the specification functions assign to the whole list |
| OrderFilter.BindSpec | src/appService.js:227-246 | A bad field is reported before a bad operator. A check fails exactly for a field or operator outside its list, or `LIKE` on `orderDate`. A date is bound shifted by exactly 7 hours, or invalid. A `LIKE` value is wrapped in `%` iff it has none. Other values are bound unchanged |
| OrderFilter.BuildSucceedsIff | src/appService.js:223-235 | The list builds iff every condition passes its checks |
| OrderFilter.FirstErrorReported | src/appService.js:230-235 | When condition i is the first to fail, the result is exactly its error, with no partial clause or parameters |
| OrderFilter.WhitelistEnforced | src/appService.js:227-235 | A field or operator outside its list (exact, case-sensitive) makes the whole build fail |
| OrderFilter.ParamsAligned | src/appService.js:252-255 | There is one parameter per condition, and parameter k is the bound value of condition k |
| OrderFilter.SqlLayout | src/appService.js:248-253 | Condition k's text is appended directly after the text of conditions 0..k-1. It is the connector (only when k > 0 and the connector is truthy), then ` field op :k+1` |
| OrderFilter.SqlPrefix | src/appService.js:253 | The text built for any prefix of the list is a prefix of the final SQL |
| OrderFilter.FirstConnectorIgnored | src/appService.js:248-250 | Replacing the first condition's connector by anything leaves the SQL unchanged |
| OrderFilter.ValuesStayOutOfSql | src/appService.js:252-254 | Lists differing only in their values fail alike and build identical SQL |
| OrderFilter.ClauseColons | src/appService.js:248-252 | A checked clause holds exactly one colon more than its connector: the placeholder's |
| OrderFilter.ClauseHasOneColon | src/appService.js:248-252 | A checked clause holds exactly one colon, its placeholder's, when it is the first clause or its connector has no colon |
| OrderFilter.PlaceholderCount | src/appService.js:219-255 | When every check passes and no connector after the first condition's contains a colon, the number of `:` in the SQL equals the number of parameters |
| OrderFilter.TwoConditionColons | src/appService.js:219-255 | Two checked conditions build a statement with two parameters whose colons are the two placeholders plus those of the second connector |
| OrderFilter.ColonInConnectorBreaksCount | src/appService.js:248-249 | `totalCost > 1`, then `totalCost > 2` with connector `OR totalCost = :1 OR`, passes every check and builds SQL with three colons for two parameters |
| OrderFilter.MessageIdentifiesError | src/appService.js:229-244 | Different errors give different messages, so the message returned names the rejected field or operator |
| Dates.AddUtcHoursShifts | src/appService.js:239-241 | `setUTCHours(getUTCHours() + d)` moves a valid time by exactly d hours, across day boundaries, or clips it to the invalid date. An invalid date stays invalid |
| Dates.FieldsRecompose | src/appService.js:240 | Splitting a time value into day, hour, minute, second and millisecond fields and rebuilding it gives it back |
| ShipmentProjection.SelectFromShipment | src/appService.js:271-290 | The validation loop fails on the first trimmed name outside the columns, or on a missing list, and otherwise yields the statement of `Projection` |
| ShipmentProjection.FirstInvalidSpec | src/appService.js:283-287 | No invalid name is found iff every name is a column; a name reported is in the list and not a column |
| ShipmentProjection.ProjectionAccepts | src/appService.js:282-290 | Accepted iff every trimmed piece is one of the seven columns. The SELECT list is then the raw input verbatim |
| ShipmentProjection.EmptyPieceRejected | src/appService.js:282-286 | A blank piece (empty input, trailing comma) is rejected as an invalid field |
| ShipmentProjection.AcceptedListIsInert | src/appService.js:273-290 | An accepted raw list holds only ASCII letters, commas and whitespace |
| ShipmentProjection.MessageIdentifiesError | src/appService.js:282-296 | Every error message starts with `Error selecting from shipment: `, and different errors give different messages |
| ShipmentProjection.ColumnsAreLetters | src/appService.js:273-281 | The seven column names are made of ASCII letters |
| DivisionQuery.LiteralRoundTrip | src/appService.js:385 | A model sanitised by `SanitizeModel` and closed by a quote reads back, under SQL literal rules, as exactly the model, and the text after it stays outside the literal |
| DivisionQuery.SanitizeCounts | src/appService.js:385 | `SanitizeModel` doubles the number of quotes and adds one character per quote |
| DivisionQuery.SelectLiteral | src/appService.js:388 | Each select starts `SELECT '`, and its literal reads back as the model followed by ` AS model FROM dual` |
| DivisionQuery.ModelSelectsRoundTrip | src/appService.js:386-389 | Literal i of the selects that `ModelSubquery` joins with ` UNION ALL ` is model i, and joining the models with commas gives back the input |
| DivisionQuery.DivideSpec | src/appService.js:384-401 | A missing list fails. Otherwise the statement starts with the carrier query's head and contains the whole subquery |
| Login.ParseRole | src/appService.js:449-451 | A role is recognised iff the user type is `customer`, `supplier` or `carrier`, and the role names that type |
| Login.CapitalizedTagIsTable | src/appService.js:452 | Capitalising a role's user type gives that role's table name |
| Login.ValidateLogin | src/appService.js:447-504 | The login routine issues the statements of `Issued` and returns the outcome of `Outcome` |
| Login.InvalidRoleRejected | src/appService.js:449-451 | An unknown user type issues no statement and fails with 'Login failed' |
| Login.StatementShape | src/appService.js:452-471 | A valid role issues exactly one statement, selecting the role's columns from the role's table and ending in ` WHERE userID = :1 AND password = :2`, with bind values `[userId, password]` |
| Login.UserFields | src/appService.js:474-494 | The user object has exactly `id`, `name` and the role's fields, never `password`. `id` is read from `USERID` and every other field from its upper-cased column name |
| Login.UpperCaseKeys | src/appService.js:476-490 | The columns read are the upper-case forms of the user-object field names |
| Login.NoMatchIsNotFailure | src/appService.js:474-503 | No row gives `{success:false}` without a message; a database error gives 'Login failed'; success iff at least one row |
| InitScript.StatementsWellFormed | src/appService.js:119 | Every statement that `Statements` yields is non-empty, trimmed and free of `;` |
| InitScript.StatementsComplete | src/appService.js:119 | Every piece between separators that is not blank once trimmed is among the statements |
| InitScript.FilterKeeps | src/appService.js:119 | The blank-piece filter keeps exactly the non-empty pieces |
| InitScript.FilterAppend | src/appService.js:119 | The filter distributes over concatenation, so the statements keep the script's order |
| InitScript.StatementsOfPieces | src/appService.js:119 | Any pieces joined by `;` are read back as those pieces trimmed, in order, without the blank ones |
| InitScript.StatementsOfTerminated | src/appService.js:119 | A script that ends every statement with `;` followed by whitespace (such as a line break), trailing `;` included, is read back as exactly its statements, in order |
| InitScript.StatementsOfJoin | src/appService.js:119 | Well-formed statements joined by `;` are read back as exactly those statements |
| InitScript.EmptyScript | src/appService.js:119 | An empty script has no statements |
| InitScript.ToleratedIff | src/appService.js:128 | A failure is tolerated iff the statement starts with `drop` in any letter case and the error number is 942 |
| InitScript.ExecuteStatements | src/appService.js:122-135 | The statement loop stops exactly at the first fatal failure, having executed the statements up to and including it |
| InitScript.InitiateDemotable | src/appService.js:113-155 | The result and the executed, commit and rollback actions are those of `RunSucceeds` and `RunLog` |
| InitScript.NoFatalIff | src/appService.js:122-135 | No fatal failure iff every failing statement is a tolerated `DROP` |
| InitScript.FirstFatalIsFirst | src/appService.js:122-135 | The failure that stops the run is fatal, and every earlier one is not |
| InitScript.SuccessfulRun | src/appService.js:122-139 | A successful run executed every statement in order and then committed, and every failure it met was tolerated |
| InitScript.FatalStops | src/appService.js:130-150 | A fatal failure at statement k executes statements 0..k only, rolls back and reports false |
| Client.SanitizeTrimSpec | src/public/scripts.js:81-83 | The result has no leading or trailing whitespace, and sanitising is idempotent |
| Client.CollectConditions | src/public/scripts.js:230-274 | The row loop and its two flags yield `Decide(rows)`: no complete row alerts first, then a `NONE` connector on a later complete row, and otherwise the collected conditions are sent |
| Client.AnyCompleteIff | src/public/scripts.js:244-248 | `hasValidCondition` holds iff some row has a non-empty trimmed field, operator and value |
| Client.AnyLacksConnectorIff | src/public/scripts.js:256-260 | `hasValidLogicalOperator` fails iff some complete row after the first has connector `NONE` |
| Client.CollectedOrigin | src/public/scripts.js:238-264 | Condition k of the list comes from a kept row at DOM index j >= k |
| Client.KeptIsCollected | src/public/scripts.js:238-264 | Every kept row contributes its condition |
| Client.SentConditions | src/public/scripts.js:256-274 | A sent list is non-empty, and every condition after the first carries a connector other than `NONE` |
| Client.ConnectorRules | src/public/scripts.js:256-263 | A complete row at index 0 is sent first and without a connector; a complete later row with `NONE` stops the request |
| Client.IncompleteRowIgnored | src/public/scripts.js:244-246 | A row with an empty trimmed field, operator or value, appended after the other rows, changes neither the conditions nor the no-valid-condition decision |
| Client.FirstSentMayCarryConnector | src/public/scripts.js:256-258 | An empty row 0 followed by a complete row sends that row's condition with its connector |
| Client.ClassifyInsertError | src/public/scripts.js:120-140 | The if/else chain gives the message of the priority table `InsertErrorRules` for the error text (`""` when absent) |
| Client.RulesUnfold | src/public/scripts.js:124-140 | The table is ORA-02291 first (customer, then supplier, else reference), then ORA-00001 (order number or `PK_ORDERS`, else uniqueness), then ORA-01400, else the default |
| Client.DefaultMessageIff | src/public/scripts.js:120-140 | The default message is shown iff the text names none of the three codes, and always when the error is absent |
| Client.ForeignKeyFirst | src/public/scripts.js:124-131 | ORA-02291 always yields a reference message. `CUSTOMERID` wins over `SUPPLIERID` |
| Client.UniqueKeySecond | src/public/scripts.js:132-137 | Without ORA-02291, ORA-00001 gives the duplicate-order message iff the upper-cased text names `ORDERNUMBER` or `PK_ORDERS`, else the uniqueness message |
| Text.TrimSpec | src/public/scripts.js:81-83 | `trim` keeps a contiguous slice that neither starts nor ends with whitespace, and cuts off only whitespace |
| Text.TrimIdempotent | src/public/scripts.js:81-83 | Trimming twice is trimming once |
| Text.TrimKeeps | src/appService.js:282 | Every character either survives trimming or is whitespace |
| Text.Split | src/appService.js:282 | `split` gives at least one piece, none containing the separator |
| Text.JoinSplit | src/appService.js:386 | Joining the pieces of a split with the separator gives the string back |
| Text.TrimPadded | src/appService.js:119 | Leading whitespace makes no difference to `trim`, and whitespace alone trims to nothing |
| Text.SplitJoin | src/appService.js:119 | Splitting separator-free pieces joined by the separator gives the pieces back |
| Text.ContainsChar | src/appService.js:244 | `includes` of a one-character string holds iff the character occurs |
| Text.DecimalRoundTrip | src/appService.js:252 | The placeholder number is rendered as decimal digits that read back as the number |

## Left out

- Connection pool, driver and environment set-up (`withOracleDB`, `initializeConnectionPool`, `closePoolAndExit`). Statement execution is a parameter or the returned statement.
  - In `Login`, `DbError` stands both for a failed `execute` and for a failed connection. Both end in 'Login failed'.
- `withTimeout` and `commitWithTimeout` are timing races and are not modelled. The commit outcome is a parameter of `InitScript.InitiateDemotable`.
  - A failing rollback is only logged, so it is not modelled.
  - A failure to get a connection for `initiateDemotable` also yields false without a rollback. It is not a separate case here.
- `new Date(value)` string parsing is a parameter `parse` of the builder. Only the `+7` hour shift and the time-value clipping are modelled.
- OrderFilter.SelectionOrders: requires a non-empty list. The route at src/appController.js:162 guarantees this. On an empty list the source would execute a statement ending in a dangling `AND`.
- OrderFilter.PlaceholderCount: the one-colon-per-parameter layout is proved only when no connector after the first contains a colon. The source copies the connector into the SQL unchecked, so a connector such as `OR totalCost = :1 OR` adds a placeholder with no parameter of its own (`OrderFilter.ColonInConnectorBreaksCount`), and a connector such as `OR 1=1 OR` injects arbitrary SQL. A later condition whose connector is absent or empty yields two adjacent comparisons (`... :1 totalCost > :2`), which the model builds as the source does.
- Text.ToUpper: models ASCII letters only. The special Unicode case mappings of `toUpperCase` (such as `ß` to `SS`) are not modelled.
- Dafny characters are Unicode scalar values, whereas JavaScript strings are UTF-16. Lone surrogates and surrogate-pair lengths are not modelled.
- JSON request values are modelled as strings (conditions, login fields) or as absent. A number or array where a string is expected, which would throw elsewhere in the source, is not modelled.
  - Database row values in `Login` are of an arbitrary type.
- InitScript.InitiateDemotable: the database's answer to a statement is modelled as a function of the statement and its position. Effects of earlier statements on later answers are folded into that function.
  - `console` logging is not modelled.
- Login.ValidateLogin: the route's own input check (src/appController.js:22) is not a precondition, because the service checks the role itself and that path is a property here.
- The HTTP routes and status codes (src/appController.js) are not modelled. Also left out: `isNumeric` and `isValidDate`, which rest on floating-point and `Date` parsing.
- The fixed-statement executors are not modelled: `insertOrder`, `updateCustomer`, `deleteShipment`, `joinQuery`, the aggregates, `fetchModelsFromDb` and the demo-table helpers.
- All DOM and `fetch` code of the browser script is not modelled. The form's rows are an input sequence, and the insert error is an optional string.
