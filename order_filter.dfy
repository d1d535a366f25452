/**
 * The dynamic filter behind `POST /selection-orders`: a list of conditions
 * from the client becomes `SELECT * FROM "Order" WHERE 1=1 AND` followed by one
 * ` field op :k` clause per condition, with the condition values bound as
 * positional parameters. Field names and operators are checked by exact
 * membership in fixed lists; the values never enter the SQL text.
 */
module OrderFilter {
  import opened Results
  import opened Text
  import opened Dates

  /** A filter condition as posted; `logicalOperator` is absent when the client omits it. */
  datatype Condition = Condition(field: string, comparisonOperator: string, value: string, logicalOperator: Option<string>)

  /** A bound value: the client's string (possibly wrapped in wildcards) or a `Date`. */
  datatype Param = StringParam(s: string) | DateParam(d: Instant)

  /** The statement that would be executed: SQL text and its positional parameters `:1`, `:2`, ... */
  datatype Query = Query(sql: string, params: seq<Param>)

  datatype FilterError =
    | InvalidField(field: string)
    | InvalidOperator(op: string)
      /** `value.includes` on a `Date`: a `LIKE` on `orderDate` throws a TypeError. */
    | IncludesOnDate

  const BaseQuery := "SELECT * FROM \"Order\" WHERE 1=1 AND"
  const AllowedFields: seq<string> := ["orderNumber", "orderDate", "totalCost", "customerID", "supplierID"]
  const AllowedOperators: seq<string> := ["=", ">", "<", ">=", "<=", "LIKE"]
  /** The hours added to every `orderDate` value before binding. */
  const DateShiftHours := 7

  /** The error's `message`, which the route sends back as the response body. */
  function Message(e: FilterError): string {
    match e
    case InvalidField(f) => "Invalid field: " + f
    case InvalidOperator(op) => "Invalid operator: " + op
    case IncludesOnDate => "value.includes is not a function"
  }

  /** JavaScript truthiness of the optional connector: present and not the empty string. */
  predicate Truthy(o: Option<string>) {
    o.Some? && o.value != ""
  }

  /** What goes before the clause of the condition at index `i`. */
  function Connector(c: Condition, i: nat): string {
    if i > 0 && Truthy(c.logicalOperator) then " " + c.logicalOperator.value + " " else ""
  }

  /** The comparison of the condition at index `i`: ` field op :k` with placeholder number `k = i + 1`. */
  function Comparison(c: Condition, i: nat): string {
    " " + c.field + " " + c.comparisonOperator + " :" + Decimal(i + 1)
  }

  /** The text appended for the condition at index `i`. */
  function Clause(c: Condition, i: nat): string {
    Connector(c, i) + Comparison(c, i)
  }

  /** The checks the source makes on one condition, in its order: field, operator, then `LIKE` on a `Date`. */
  function Check(c: Condition): Option<FilterError> {
    if c.field !in AllowedFields then Some(InvalidField(c.field))
    else if c.comparisonOperator !in AllowedOperators then Some(InvalidOperator(c.comparisonOperator))
    else if c.field == "orderDate" && c.comparisonOperator == "LIKE" then Some(IncludesOnDate)
    else None
  }

  /**
   * The value bound for a condition: a date shifted forward by `setUTCHours`,
   * or the string, wrapped in `%` for a `LIKE` without one. `parse` stands for
   * `new Date(value)`.
   */
  function BoundValue(c: Condition, parse: string -> Instant): Param {
    if c.field == "orderDate" then DateParam(AddUtcHours(parse(c.value), DateShiftHours))
    else if c.comparisonOperator == "LIKE" && !Contains(c.value, "%") then StringParam("%" + c.value + "%")
    else StringParam(c.value)
  }

  /** The error of the first condition that fails its checks, if any. */
  function FirstError(conds: seq<Condition>): Option<FilterError>
    decreases |conds|
  {
    if conds == [] then None
    else
      var n := |conds| - 1;
      if FirstError(conds[..n]).Some? then FirstError(conds[..n]) else Check(conds[n])
  }

  /** The SQL text for a list of conditions that pass their checks. */
  function Sql(conds: seq<Condition>): string
    decreases |conds|
  {
    if conds == [] then BaseQuery
    else
      var n := |conds| - 1;
      Sql(conds[..n]) + Clause(conds[n], n)
  }

  /** The bound values for a list of conditions that pass their checks. */
  function Params(conds: seq<Condition>, parse: string -> Instant): seq<Param>
    decreases |conds|
  {
    if conds == [] then []
    else
      var n := |conds| - 1;
      Params(conds[..n], parse) + [BoundValue(conds[n], parse)]
  }

  /** The statement built from `conds`, or the error of the first condition that fails. */
  function Build(conds: seq<Condition>, parse: string -> Instant): Result<Query, FilterError> {
    match FirstError(conds)
    case Some(e) => Failure(e)
    case None => Success(Query(Sql(conds), Params(conds, parse)))
  }

  /**
   * `selectionOrders` up to the call to `execute`: the loop of the source,
   * which throws on the first bad condition and otherwise appends a clause and a
   * parameter per condition. A non-empty list is guaranteed by the route.
   */
  method SelectionOrders(conditions: seq<Condition>, parse: string -> Instant) returns (r: Result<Query, FilterError>)
    requires |conditions| > 0
    ensures r == Build(conditions, parse)
  {
    var query := BaseQuery;
    var params: seq<Param> := [];
    var paramIndex := 1;
    for i := 0 to |conditions|
      invariant paramIndex == i + 1
      invariant FirstError(conditions[..i]) == None
      invariant query == Sql(conditions[..i])
      invariant params == Params(conditions[..i], parse)
    {
      var condition := conditions[i];
      var clause := "";
      PrefixStep(conditions, parse, i);
      if condition.field !in AllowedFields {
        FailureExtends(conditions, i + 1);
        return Failure(InvalidField(condition.field));
      }
      if condition.comparisonOperator !in AllowedOperators {
        FailureExtends(conditions, i + 1);
        return Failure(InvalidOperator(condition.comparisonOperator));
      }
      var value := StringParam(condition.value);
      if condition.field == "orderDate" {
        value := DateParam(AddUtcHours(parse(condition.value), DateShiftHours));
      }
      if condition.comparisonOperator == "LIKE" {
        if value.DateParam? {
          FailureExtends(conditions, i + 1);
          return Failure(IncludesOnDate);
        }
        if !Contains(value.s, "%") {
          value := StringParam("%" + value.s + "%");
        }
      }
      if i > 0 && Truthy(condition.logicalOperator) {
        assert clause + Connector(condition, i) == Connector(condition, i);
        clause := clause + (" " + condition.logicalOperator.value + " ");
      }
      assert clause == Connector(condition, i);
      clause := clause + (" " + condition.field + " " + condition.comparisonOperator + " :" + Decimal(paramIndex));
      assert clause == Clause(condition, i);
      query := query + clause;
      params := params + [value];
      paramIndex := paramIndex + 1;
    }
    assert conditions[..|conditions|] == conditions;
    r := Success(Query(query, params));
  }

  /** How the definitions grow by one condition. */
  lemma PrefixStep(conds: seq<Condition>, parse: string -> Instant, i: nat)
    requires i < |conds| && FirstError(conds[..i]) == None
    ensures FirstError(conds[..i + 1]) == Check(conds[i])
    ensures Sql(conds[..i + 1]) == Sql(conds[..i]) + Clause(conds[i], i)
    ensures Params(conds[..i + 1], parse) == Params(conds[..i], parse) + [BoundValue(conds[i], parse)]
  {
    assert conds[..i + 1][..i] == conds[..i];
  }

  /** Once a prefix fails, the whole list fails with the same error. */
  lemma {:induction false} FailureExtends(conds: seq<Condition>, k: nat)
    requires k <= |conds| && FirstError(conds[..k]).Some?
    ensures FirstError(conds) == FirstError(conds[..k])
    decreases |conds| - k
  {
    if k < |conds| {
      assert conds[..k + 1][..k] == conds[..k];
      FailureExtends(conds, k + 1);
    } else {
      assert conds[..k] == conds;
    }
  }

  /**
   * What one condition binds: a field or operator outside its list is reported
   * (the field first); a `LIKE` on the date field fails; a date is bound
   * shifted by exactly seven hours; a `LIKE` value is wrapped in `%` unless it
   * already holds one; every other value is bound as given.
   */
  lemma BindSpec(c: Condition, parse: string -> Instant)
    ensures c.field !in AllowedFields ==> Check(c) == Some(InvalidField(c.field))
    ensures c.field in AllowedFields && c.comparisonOperator !in AllowedOperators ==>
              Check(c) == Some(InvalidOperator(c.comparisonOperator))
    ensures Check(c).Some? <==>
              c.field !in AllowedFields || c.comparisonOperator !in AllowedOperators ||
              (c.field == "orderDate" && c.comparisonOperator == "LIKE")
    ensures c.field == "orderDate" ==>
              BoundValue(c, parse) == DateParam(match parse(c.value)
                                                case InvalidDate => InvalidDate
                                                case Time(t) => TimeClip(t + 7 * MsPerHour))
    ensures c.field != "orderDate" && c.comparisonOperator == "LIKE" ==>
              BoundValue(c, parse) == StringParam(if '%' in c.value then c.value else "%" + c.value + "%")
    ensures c.field != "orderDate" && c.comparisonOperator != "LIKE" ==>
              BoundValue(c, parse) == StringParam(c.value)
  {
    ContainsChar(c.value, '%');
    AddUtcHoursShifts(parse(c.value), DateShiftHours);
  }

  /** The list builds exactly when every condition passes its checks. */
  lemma {:induction false} BuildSucceedsIff(conds: seq<Condition>, parse: string -> Instant)
    ensures Build(conds, parse).Success? <==> forall k :: 0 <= k < |conds| ==> Check(conds[k]) == None
    decreases |conds|
  {
    if conds != [] {
      var n := |conds| - 1;
      var pre := conds[..n];
      BuildSucceedsIff(pre, parse);
      if FirstError(conds) == None {
        forall k | 0 <= k < |conds| ensures Check(conds[k]) == None {
          if k < n { assert pre[k] == conds[k]; }
        }
      } else if FirstError(pre) != None {
        var k :| 0 <= k < n && Check(pre[k]) != None;
        assert pre[k] == conds[k];
      }
    }
  }

  /**
   * The error reported is that of the first condition that fails; the result
   * then carries no statement, so no partial clause or parameter escapes.
   */
  lemma {:induction false} FirstErrorReported(conds: seq<Condition>, parse: string -> Instant, i: nat)
    requires i < |conds|
    requires forall k :: 0 <= k < i ==> Check(conds[k]) == None
    requires Check(conds[i]).Some?
    ensures Build(conds, parse) == Failure(Check(conds[i]).value)
  {
    var pre := conds[..i];
    BuildSucceedsIff(pre, parse);
    assert conds[..i + 1][..i] == pre;
    FailureExtends(conds, i + 1);
  }

  /**
   * A field outside the five order columns, or an operator outside the six
   * comparison operators (exact, case-sensitive match), makes the whole build
   * fail: no statement is produced and nothing is executed.
   */
  lemma WhitelistEnforced(conds: seq<Condition>, parse: string -> Instant, i: nat)
    requires i < |conds|
    requires conds[i].field !in AllowedFields || conds[i].comparisonOperator !in AllowedOperators
    ensures Build(conds, parse).Failure?
  {
    BuildSucceedsIff(conds, parse);
  }

  /** One parameter per condition, in order: parameter `k` is the bound value of condition `k`. */
  lemma {:induction false} ParamsAligned(conds: seq<Condition>, parse: string -> Instant)
    ensures |Params(conds, parse)| == |conds|
    ensures forall k :: 0 <= k < |conds| ==> Params(conds, parse)[k] == BoundValue(conds[k], parse)
    decreases |conds|
  {
    if conds != [] {
      var n := |conds| - 1;
      var pre := conds[..n];
      ParamsAligned(pre, parse);
      forall k | 0 <= k < n ensures Params(conds, parse)[k] == BoundValue(conds[k], parse) {
        assert pre[k] == conds[k];
      }
    }
  }

  /**
   * The text for condition `k` directly extends the text for the conditions
   * before it: the connector (non-empty only when `k > 0` and the connector is
   * truthy), then ` field op :k+1`.
   */
  lemma SqlLayout(conds: seq<Condition>, k: nat)
    requires k < |conds|
    ensures Sql(conds[..k + 1]) == Sql(conds[..k]) + Connector(conds[k], k) + Comparison(conds[k], k)
  {
    SqlStep(conds, k);
    AppendAssoc(Sql(conds[..k]), Connector(conds[k], k), Comparison(conds[k], k));
  }

  lemma SqlStep(conds: seq<Condition>, k: nat)
    requires k < |conds|
    ensures Sql(conds[..k + 1]) == Sql(conds[..k]) + Clause(conds[k], k)
  {
    assert conds[..k + 1][..k] == conds[..k];
  }

  /** The text built for the first `k` conditions is a prefix of the whole SQL. */
  lemma {:induction false} SqlPrefix(conds: seq<Condition>, k: nat)
    requires k <= |conds|
    ensures StartsWith(Sql(conds), Sql(conds[..k]))
    decreases |conds| - k
  {
    if k == |conds| {
      assert conds[..k] == conds;
    } else {
      var n := |conds| - 1;
      assert conds[..n][..k] == conds[..k];
      SqlPrefix(conds[..n], k);
    }
  }

  /** The first condition's connector is never used. */
  lemma {:induction false} FirstConnectorIgnored(conds: seq<Condition>, lo: Option<string>)
    requires |conds| > 0
    ensures Sql(conds) == Sql([conds[0].(logicalOperator := lo)] + conds[1..])
    decreases |conds|
  {
    var other := [conds[0].(logicalOperator := lo)] + conds[1..];
    if |conds| > 1 {
      var n := |conds| - 1;
      FirstConnectorIgnored(conds[..n], lo);
      assert other[..n] == [conds[..n][0].(logicalOperator := lo)] + conds[..n][1..];
    }
  }

  /**
   * The SQL text depends only on the fields, operators and connectors: two lists
   * that differ only in their values pass or fail alike and build the same SQL,
   * so the values reach the database only as bound parameters.
   */
  lemma {:induction false} ValuesStayOutOfSql(a: seq<Condition>, b: seq<Condition>)
    requires |a| == |b|
    requires forall k :: 0 <= k < |a| ==> a[k].(value := b[k].value) == b[k]
    ensures FirstError(a) == FirstError(b)
    ensures Sql(a) == Sql(b)
    decreases |a|
  {
    if a != [] {
      var n := |a| - 1;
      assert a[n].(value := b[n].value) == b[n];
      ValuesStayOutOfSql(a[..n], b[..n]);
    }
  }

  /** No whitelisted field or operator contains a colon. */
  lemma WhitelistsHaveNoColon(c: Condition)
    requires Check(c) == None
    ensures ':' !in c.field && ':' !in c.comparisonOperator
  {
  }

  /** Text with one `c` between two stretches free of it holds exactly one `c`. */
  lemma CountOne(left: string, right: string, c: char)
    requires c !in left && c !in right
    ensures Count(left + [c] + right, c) == 1
  {
    CountAbsent(left, c);
    CountAbsent(right, c);
    CountConcat(left, [c], c);
    CountConcat(left + [c], right, c);
  }

  /** The fixed head of the statement holds no placeholder. */
  lemma BaseQueryHasNoColon()
    ensures Count(BaseQuery, ':') == 0
  {
    CountAbsent(BaseQuery, ':');
  }

  /** The comparison of a condition that passes its checks holds exactly one colon, that of its placeholder. */
  lemma ComparisonHasOneColon(c: Condition, i: nat)
    requires Check(c) == None
    ensures Count(Comparison(c, i), ':') == 1
  {
    WhitelistsHaveNoColon(c);
    var head := " " + c.field + " " + c.comparisonOperator + " ";
    assert ':' !in head;
    DecimalDigits(i + 1);
    assert ':' !in Decimal(i + 1);
    assert Comparison(c, i) == head + [':'] + Decimal(i + 1);
    CountOne(head, Decimal(i + 1), ':');
  }

  /** A clause of a condition that passes its checks holds one colon more than its connector. */
  lemma ClauseColons(c: Condition, i: nat)
    requires Check(c) == None
    ensures Count(Clause(c, i), ':') == 1 + Count(Connector(c, i), ':')
  {
    ComparisonHasOneColon(c, i);
    CountConcat(Connector(c, i), Comparison(c, i), ':');
  }

  /** A clause of a condition that passes its checks holds exactly one colon, that of its placeholder, unless its connector brings more. */
  lemma ClauseHasOneColon(c: Condition, i: nat)
    requires Check(c) == None
    requires i > 0 && c.logicalOperator.Some? ==> ':' !in c.logicalOperator.value
    ensures Count(Clause(c, i), ':') == 1
  {
    ClauseColons(c, i);
    assert ':' !in Connector(c, i);
    CountAbsent(Connector(c, i), ':');
  }

  /**
   * When every condition passes its checks and no connector that reaches the SQL
   * (that of every condition but the first) contains a colon, the SQL holds exactly
   * one `:` per bound parameter.
   */
  lemma {:induction false} PlaceholderCount(conds: seq<Condition>, parse: string -> Instant)
    requires forall k :: 0 <= k < |conds| ==> Check(conds[k]) == None
    requires forall k :: 0 < k < |conds| && conds[k].logicalOperator.Some? ==> ':' !in conds[k].logicalOperator.value
    ensures Count(Sql(conds), ':') == |Params(conds, parse)|
    decreases |conds|
  {
    if conds == [] {
      BaseQueryHasNoColon();
    } else {
      var n := |conds| - 1;
      var pre := conds[..n];
      forall k | 0 <= k < n
        ensures Check(pre[k]) == None
        ensures k > 0 && pre[k].logicalOperator.Some? ==> ':' !in pre[k].logicalOperator.value
      {
        assert pre[k] == conds[k];
      }
      PlaceholderCount(pre, parse);
      ClauseHasOneColon(conds[n], n);
      CountConcat(Sql(pre), Clause(conds[n], n), ':');
    }
  }
  /** The connector `OR totalCost = :1 OR` holds one colon; it passes no check on its way into the SQL. */
  lemma PlaceholderConnector(c: Condition)
    requires c.logicalOperator == Some("OR totalCost = :1 OR")
    ensures Count(Connector(c, 1), ':') == 1
  {
    var left, right := " OR totalCost = ", "1 OR ";
    assert Connector(c, 1) == left + [':'] + right;
    CountOne(left, right, ':');
  }

  /** The statement built from two conditions that pass their checks. */
  lemma TwoConditionBuild(c0: Condition, c1: Condition, parse: string -> Instant)
    requires Check(c0) == None && Check(c1) == None
    ensures Build([c0, c1], parse) ==
      Success(Query(BaseQuery + Clause(c0, 0) + Clause(c1, 1), [BoundValue(c0, parse), BoundValue(c1, parse)]))
  {
    var conds := [c0, c1];
    assert conds[..0] == [] && conds[..2] == conds;
    PrefixStep(conds, parse, 0);
    PrefixStep(conds, parse, 1);
    assert FirstError(conds) == None;
    assert Sql(conds) == BaseQuery + Clause(c0, 0) + Clause(c1, 1);
    assert Params(conds, parse) == [BoundValue(c0, parse), BoundValue(c1, parse)];
  }

  /** Two conditions that pass their checks give one colon per parameter plus those of the second connector. */
  lemma TwoConditionColons(c0: Condition, c1: Condition, parse: string -> Instant)
    requires Check(c0) == None && Check(c1) == None
    ensures Build([c0, c1], parse).Success?
    ensures Count(Build([c0, c1], parse).value.sql, ':') == 2 + Count(Connector(c1, 1), ':')
    ensures |Build([c0, c1], parse).value.params| == 2
  {
    TwoConditionBuild(c0, c1, parse);
    ClauseHasOneColon(c0, 0);
    ClauseColons(c1, 1);
    BaseQueryHasNoColon();
    CountConcat(BaseQuery, Clause(c0, 0), ':');
    CountConcat(BaseQuery + Clause(c0, 0), Clause(c1, 1), ':');
  }

  /**
   * The connector is copied into the SQL unchecked, so a connector holding a
   * placeholder breaks the one-colon-per-parameter layout: these two conditions
   * pass every check, yet the statement holds three colons for two parameters.
   */
  lemma ColonInConnectorBreaksCount(parse: string -> Instant)
    ensures var conds := [Condition("totalCost", ">", "1", None), Condition("totalCost", ">", "2", Some("OR totalCost = :1 OR"))];
      && Build(conds, parse).Success?
      && Count(Build(conds, parse).value.sql, ':') == 3
      && |Build(conds, parse).value.params| == 2
  {
    var c0 := Condition("totalCost", ">", "1", None);
    var c1 := Condition("totalCost", ">", "2", Some("OR totalCost = :1 OR"));
    assert AllowedFields[2] == "totalCost" && AllowedOperators[1] == ">";
    PlaceholderConnector(c1);
    TwoConditionColons(c0, c1, parse);
  }

  /** Different errors give different messages, so the response names the rejected field or operator. */
  lemma MessageIdentifiesError(a: FilterError, b: FilterError)
    ensures Message(a) == Message(b) <==> a == b
  {
    if a.InvalidField? && b.InvalidField? {
      assert a.field == Message(a)[15..] && b.field == Message(b)[15..];
    } else if a.InvalidOperator? && b.InvalidOperator? {
      assert a.op == Message(a)[18..] && b.op == Message(b)[18..];
    } else if a != b {
      assert Message(a)[8] != Message(b)[8] || Message(a)[0] != Message(b)[0];
    }
  }
}
