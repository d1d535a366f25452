/**
 * The browser side of the order filter and of order insertion: which filter
 * rows become conditions and whether the request goes out at all, and how an
 * Oracle error text from a failed insert becomes a message for the user.
 */
module Client {
  import opened Results
  import opened Text
  import opened OrderFilter

  /** `sanitizeTrim(input)`: the input with surrounding whitespace removed. */
  function SanitizeTrim(input: string): string {
    Trim(input)
  }

  /**
   * Sanitised input neither starts nor ends with whitespace, and sanitising it
   * again changes nothing.
   */
  lemma SanitizeTrimSpec(input: string)
    ensures var r := SanitizeTrim(input); r == [] || (!IsSpace(r[0]) && !IsSpace(r[|r| - 1]))
    ensures SanitizeTrim(SanitizeTrim(input)) == SanitizeTrim(input)
  {
    TrimSpec(input);
    TrimIdempotent(input);
  }

  /** The raw values of one `.filter-row`: connector, field, operator and value inputs. */
  datatype FilterRow = FilterRow(logicalOperator: string, field: string, comparisonOperator: string, value: string)

  /** The sanitised value of a row (its input is trimmed twice). */
  function RowValue(row: FilterRow): string {
    SanitizeTrim(Trim(row.value))
  }

  /** A row whose field, operator and value are all non-empty once trimmed. */
  predicate Complete(row: FilterRow) {
    SanitizeTrim(row.field) != [] && SanitizeTrim(row.comparisonOperator) != [] && RowValue(row) != []
  }

  /** A complete row after the first whose connector is `NONE`. */
  predicate LacksConnector(row: FilterRow, rowIndex: nat) {
    rowIndex > 0 && Complete(row) && SanitizeTrim(row.logicalOperator) == "NONE"
  }

  /** A row that becomes a condition. */
  predicate Kept(row: FilterRow, rowIndex: nat) {
    Complete(row) && !LacksConnector(row, rowIndex)
  }

  /** The condition made from the row at DOM index `rowIndex`. */
  function RowCondition(row: FilterRow, rowIndex: nat): Condition {
    Condition(SanitizeTrim(row.field), SanitizeTrim(row.comparisonOperator), RowValue(row),
              if rowIndex > 0 then Some(SanitizeTrim(row.logicalOperator)) else None)
  }

  /** The conditions collected from `rows`, in row order. */
  function Collected(rows: seq<FilterRow>): seq<Condition>
    decreases |rows|
  {
    if rows == [] then []
    else
      var n := |rows| - 1;
      Collected(rows[..n]) + if Kept(rows[n], n) then [RowCondition(rows[n], n)] else []
  }

  /** What the form does: send the conditions, or raise one of two alerts. */
  datatype Submission =
    | Send(conditions: seq<Condition>)
      /** 'Please set up at least one valid condition.' */
    | NoValidCondition
      /** 'Please fill in the logical operator(s)' */
    | MissingConnector

  /** The decision: no complete row is reported first, then a `NONE` connector. */
  function Decide(rows: seq<FilterRow>): Submission {
    if forall i :: 0 <= i < |rows| ==> !Complete(rows[i]) then NoValidCondition
    else if exists i :: 0 <= i < |rows| && LacksConnector(rows[i], i) then MissingConnector
    else Send(Collected(rows))
  }

  /** One more row adds its condition exactly when it is kept. */
  lemma CollectedStep(rows: seq<FilterRow>, i: nat)
    requires i < |rows|
    ensures Collected(rows[..i + 1]) == Collected(rows[..i]) + if Kept(rows[i], i) then [RowCondition(rows[i], i)] else []
  {
    assert rows[..i + 1][..i] == rows[..i];
  }

  /** Some row before index `n` is complete (`hasValidCondition`). */
  predicate AnyComplete(rows: seq<FilterRow>, n: nat)
    requires n <= |rows|
  {
    n > 0 && (AnyComplete(rows, n - 1) || Complete(rows[n - 1]))
  }

  /** Some row before index `n` has the connector `NONE` (`!hasValidLogicalOperator`). */
  predicate AnyLacksConnector(rows: seq<FilterRow>, n: nat)
    requires n <= |rows|
  {
    n > 0 && (AnyLacksConnector(rows, n - 1) || LacksConnector(rows[n - 1], n - 1))
  }

  lemma {:induction false} AnyCompleteIff(rows: seq<FilterRow>, n: nat)
    requires n <= |rows|
    ensures AnyComplete(rows, n) <==> exists i :: 0 <= i < n && Complete(rows[i])
  {
    if n > 0 {
      AnyCompleteIff(rows, n - 1);
    }
  }

  lemma {:induction false} AnyLacksConnectorIff(rows: seq<FilterRow>, n: nat)
    requires n <= |rows|
    ensures AnyLacksConnector(rows, n) <==> exists i :: 0 <= i < n && LacksConnector(rows[i], i)
  {
    if n > 0 {
      AnyLacksConnectorIff(rows, n - 1);
    }
  }

  /** The condition-collecting part of the client's `selectionOrders`. */
  method CollectConditions(rows: seq<FilterRow>) returns (s: Submission)
    ensures s == Decide(rows)
  {
    var conditions: seq<Condition> := [];
    var hasValidCondition := false;
    var hasValidLogicalOperator := true;
    for rowIndex := 0 to |rows|
      invariant conditions == Collected(rows[..rowIndex])
      invariant hasValidCondition == AnyComplete(rows, rowIndex)
      invariant hasValidLogicalOperator == !AnyLacksConnector(rows, rowIndex)
    {
      var row := rows[rowIndex];
      CollectedStep(rows, rowIndex);
      var logicalOperator := SanitizeTrim(row.logicalOperator);
      var field := SanitizeTrim(row.field);
      var comparisonOperator := SanitizeTrim(row.comparisonOperator);
      var value := SanitizeTrim(Trim(row.value));
      if field == [] || comparisonOperator == [] || value == [] {
        assert !Complete(row) && !Kept(row, rowIndex) && !LacksConnector(row, rowIndex);
        continue;
      }
      assert Complete(row);
      hasValidCondition := true;
      var condition := Condition(field, comparisonOperator, value, None);
      if rowIndex > 0 && logicalOperator != "NONE" {
        condition := condition.(logicalOperator := Some(logicalOperator));
      } else if rowIndex > 0 {
        assert LacksConnector(row, rowIndex) && !Kept(row, rowIndex);
        hasValidLogicalOperator := false;
        continue;
      }
      assert Kept(row, rowIndex) && !LacksConnector(row, rowIndex);
      assert condition == RowCondition(row, rowIndex);
      conditions := conditions + [condition];
    }
    assert rows[..|rows|] == rows;
    AnyCompleteIff(rows, |rows|);
    AnyLacksConnectorIff(rows, |rows|);
    if !hasValidCondition {
      return NoValidCondition;
    }
    if !hasValidLogicalOperator {
      return MissingConnector;
    }
    return Send(conditions);
  }

  /**
   * Condition `k` of the collected list comes from a kept row at DOM index
   * `j >= k`, and every kept row contributes its condition.
   */
  lemma {:induction false} CollectedOrigin(rows: seq<FilterRow>, k: nat)
    requires k < |Collected(rows)|
    ensures exists j :: k <= j < |rows| && Kept(rows[j], j) && Collected(rows)[k] == RowCondition(rows[j], j)
    decreases |rows|
  {
    var n := |rows| - 1;
    var front := Collected(rows[..n]);
    assert |Collected(rows)| <= |front| + 1;
    if k < |front| {
      CollectedOrigin(rows[..n], k);
      var j :| k <= j < |rows[..n]| && Kept(rows[..n][j], j) && front[k] == RowCondition(rows[..n][j], j);
      assert rows[..n][j] == rows[j];
      assert Collected(rows)[k] == front[k];
    } else {
      CollectedLength(rows[..n]);
      assert Collected(rows)[k] == RowCondition(rows[n], n);
    }
  }

  /** No more conditions than rows. */
  lemma {:induction false} CollectedLength(rows: seq<FilterRow>)
    ensures |Collected(rows)| <= |rows|
    decreases |rows|
  {
    if rows != [] {
      CollectedLength(rows[..|rows| - 1]);
    }
  }

  /** A kept row's condition is among those collected. */
  lemma {:induction false} KeptIsCollected(rows: seq<FilterRow>, j: nat)
    requires j < |rows| && Kept(rows[j], j)
    ensures RowCondition(rows[j], j) in Collected(rows)
    decreases |rows|
  {
    var n := |rows| - 1;
    var tail := if Kept(rows[n], n) then [RowCondition(rows[n], n)] else [];
    assert Collected(rows) == Collected(rows[..n]) + tail;
    if j < n {
      KeptIsCollected(rows[..n], j);
      assert rows[..n][j] == rows[j];
    } else {
      assert tail == [RowCondition(rows[j], j)];
    }
  }

  /**
   * A list that is sent is never empty, so it meets the route's guard, and
   * every condition after the first carries a connector other than `NONE`.
   */
  lemma SentConditions(rows: seq<FilterRow>)
    requires Decide(rows).Send?
    ensures |Decide(rows).conditions| > 0
    ensures forall k :: 0 < k < |Decide(rows).conditions| ==>
              Decide(rows).conditions[k].logicalOperator.Some?
              && Decide(rows).conditions[k].logicalOperator.value != "NONE"
  {
    var conds := Collected(rows);
    var i :| 0 <= i < |rows| && Complete(rows[i]);
    assert !LacksConnector(rows[i], i);
    KeptIsCollected(rows, i);
    forall k | 0 < k < |conds|
      ensures conds[k].logicalOperator.Some? && conds[k].logicalOperator.value != "NONE"
    {
      CollectedOrigin(rows, k);
    }
  }

  /**
   * A complete row at DOM index 0 is sent first and without a connector; a
   * later row whose connector is `NONE` stops the request altogether.
   */
  lemma ConnectorRules(rows: seq<FilterRow>, i: nat)
    requires i < |rows| && Complete(rows[i])
    ensures i == 0 && Decide(rows).Send? ==>
              |Decide(rows).conditions| > 0 && Decide(rows).conditions[0] == RowCondition(rows[0], 0)
              && Decide(rows).conditions[0].logicalOperator.None?
    ensures LacksConnector(rows[i], i) ==> Decide(rows) == MissingConnector
  {
    if i == 0 {
      FirstComesFirst(rows);
    }
  }

  /** A kept row at index 0 is the first condition collected. */
  lemma {:induction false} FirstComesFirst(rows: seq<FilterRow>)
    requires |rows| > 0 && Kept(rows[0], 0)
    ensures |Collected(rows)| > 0 && Collected(rows)[0] == RowCondition(rows[0], 0)
    decreases |rows|
  {
    var n := |rows| - 1;
    var front := rows[..n];
    if n == 0 {
      assert front == [];
    } else {
      assert front[0] == rows[0];
      FirstComesFirst(front);
    }
  }

  /** A row with an empty field, operator or value is skipped and changes nothing. */
  lemma IncompleteRowIgnored(rows: seq<FilterRow>, row: FilterRow)
    requires !Complete(row)
    ensures Collected(rows + [row]) == Collected(rows)
    ensures Decide(rows + [row]).NoValidCondition? <==> Decide(rows).NoValidCondition?
  {
    assert (rows + [row])[..|rows|] == rows;
    var all := rows + [row];
    if forall i :: 0 <= i < |rows| ==> !Complete(rows[i]) {
      assert forall i :: 0 <= i < |all| ==> !Complete(all[i]);
    } else {
      var i :| 0 <= i < |rows| && Complete(rows[i]);
      assert all[i] == rows[i];
    }
  }

  /**
   * The first complete row is allowed to sit at a non-zero DOM index: when the
   * row at index 0 is empty, the first condition sent still carries the
   * connector of its own row.
   */
  lemma FirstSentMayCarryConnector()
    ensures Decide([FilterRow("", "", "", ""), FilterRow("AND", "totalCost", ">", "10")])
         == Send([Condition("totalCost", ">", "10", Some("AND"))])
  {
    var rows := [FilterRow("", "", "", ""), FilterRow("AND", "totalCost", ">", "10")];
    TrimUnchanged("");
    TrimUnchanged("AND");
    TrimUnchanged("totalCost");
    TrimUnchanged(">");
    TrimUnchanged("10");
    assert !Complete(rows[0]);
    assert Complete(rows[1]) && !LacksConnector(rows[1], 1);
    CollectedStep(rows, 0);
    CollectedStep(rows, 1);
    assert rows[..2] == rows;
  }

  const DefaultInsertError := "An error occurred while creating the order. Please check your input and try again."
  const InvalidCustomer := "Invalid Customer ID provided. Please ensure the customer exists."
  const InvalidSupplier := "Invalid Supplier ID provided. Please ensure the supplier exists."
  const InvalidReference := "Invalid reference ID provided. Please check Customer and Supplier IDs."
  const DuplicateOrder := "Order number already exists. Please use a different order number."
  const NotUnique := "This record already exists or violates a uniqueness rule."
  const MissingFields := "Missing required information. Please fill out all mandatory fields (Order Number, Total Cost, Customer ID)."

  /** A message chosen when the upper-cased error text names one of `markers`. */
  datatype Refinement = Refinement(markers: seq<string>, message: string)

  /**
   * An Oracle error code (matched case-sensitively), the refinements tried in
   * order on the upper-cased text, and the message when none applies.
   */
  datatype Rule = Rule(code: string, refinements: seq<Refinement>, otherwise: string)

  /** The classification of insert errors, highest priority first. */
  const InsertErrorRules: seq<Rule> := [
    Rule("ORA-02291", [Refinement(["CUSTOMERID"], InvalidCustomer), Refinement(["SUPPLIERID"], InvalidSupplier)], InvalidReference),
    Rule("ORA-00001", [Refinement(["ORDERNUMBER", "PK_ORDERS"], DuplicateOrder)], NotUnique),
    Rule("ORA-01400", [], MissingFields)
  ]

  predicate MentionsAny(text: string, markers: seq<string>)
    decreases |markers|
  {
    |markers| > 0 && (Contains(text, markers[0]) || MentionsAny(text, markers[1..]))
  }

  function Refine(refinements: seq<Refinement>, upper: string, otherwise: string): string
    decreases |refinements|
  {
    if refinements == [] then otherwise
    else if MentionsAny(upper, refinements[0].markers) then refinements[0].message
    else Refine(refinements[1..], upper, otherwise)
  }

  /** The message of the first rule whose code occurs in `text`, or the default. */
  function ByRules(rules: seq<Rule>, text: string): string
    decreases |rules|
  {
    if rules == [] then DefaultInsertError
    else if Contains(text, rules[0].code) then Refine(rules[0].refinements, ToUpper(text), rules[0].otherwise)
    else ByRules(rules[1..], text)
  }

  /** `responseData.error || ""`: an absent (or empty) error is the empty text. */
  function ErrorText(error: Option<string>): string {
    if error.Some? then error.value else ""
  }

  /** The message `insertOrder` shows for a failed insert. */
  method ClassifyInsertError(error: Option<string>) returns (userFriendlyError: string)
    ensures userFriendlyError == ByRules(InsertErrorRules, ErrorText(error))
  {
    userFriendlyError := DefaultInsertError;
    var errorText := if error.Some? then error.value else "";
    var upper := ToUpper(errorText);
    if Contains(errorText, "ORA-02291") {
      if Contains(upper, "CUSTOMERID") {
        userFriendlyError := InvalidCustomer;
      } else if Contains(upper, "SUPPLIERID") {
        userFriendlyError := InvalidSupplier;
      } else {
        userFriendlyError := InvalidReference;
      }
    } else if Contains(errorText, "ORA-00001") {
      if Contains(upper, "ORDERNUMBER") || Contains(upper, "PK_ORDERS") {
        userFriendlyError := DuplicateOrder;
      } else {
        userFriendlyError := NotUnique;
      }
    } else if Contains(errorText, "ORA-01400") {
      userFriendlyError := MissingFields;
    }
    RulesUnfold(errorText);
  }

  /** The rule table spelled out as a decision chain. */
  lemma RulesUnfold(text: string)
    ensures ByRules(InsertErrorRules, text) ==
      var upper := ToUpper(text);
      if Contains(text, "ORA-02291") then
        (if Contains(upper, "CUSTOMERID") then InvalidCustomer
         else if Contains(upper, "SUPPLIERID") then InvalidSupplier
         else InvalidReference)
      else if Contains(text, "ORA-00001") then
        (if Contains(upper, "ORDERNUMBER") || Contains(upper, "PK_ORDERS") then DuplicateOrder else NotUnique)
      else if Contains(text, "ORA-01400") then MissingFields
      else DefaultInsertError
  {
    var upper := ToUpper(text);
    var rules := InsertErrorRules;
    var rest1 := rules[1..];
    var rest2 := rest1[1..];
    assert rest2 == [Rule("ORA-01400", [], MissingFields)];
    assert rest2[1..] == [];
    assert ByRules(rest2, text) == if Contains(text, "ORA-01400") then MissingFields else DefaultInsertError;
    var unique := rest1[0].refinements;
    assert unique == [Refinement(["ORDERNUMBER", "PK_ORDERS"], DuplicateOrder)];
    assert unique[1..] == [];
    var keys := unique[0].markers;
    assert keys[1..] == ["PK_ORDERS"] && keys[1..][1..] == [];
    assert MentionsAny(upper, keys) == (Contains(upper, "ORDERNUMBER") || Contains(upper, "PK_ORDERS"));
    assert Refine(unique, upper, NotUnique) == if Contains(upper, "ORDERNUMBER") || Contains(upper, "PK_ORDERS") then DuplicateOrder else NotUnique;
    var foreign := rules[0].refinements;
    assert foreign[1..] == [Refinement(["SUPPLIERID"], InvalidSupplier)];
    assert foreign[1..][1..] == [];
    assert ["CUSTOMERID"][1..] == [] && ["SUPPLIERID"][1..] == [];
    assert MentionsAny(upper, foreign[0].markers) == Contains(upper, "CUSTOMERID");
    assert MentionsAny(upper, foreign[1..][0].markers) == Contains(upper, "SUPPLIERID");
    assert Refine(foreign[1..], upper, InvalidReference) ==
      if Contains(upper, "SUPPLIERID") then InvalidSupplier else InvalidReference;
    assert Refine(foreign, upper, InvalidReference) ==
      if Contains(upper, "CUSTOMERID") then InvalidCustomer
      else if Contains(upper, "SUPPLIERID") then InvalidSupplier else InvalidReference;
    assert rest1[0].code == "ORA-00001" && rest1[0].otherwise == NotUnique;
    assert ByRules(rest1, text) ==
      if Contains(text, "ORA-00001") then Refine(unique, upper, NotUnique) else ByRules(rest2, text);
    assert rules[0].code == "ORA-02291" && rules[0].otherwise == InvalidReference;
    assert ByRules(rules, text) ==
      if Contains(text, "ORA-02291") then Refine(foreign, upper, InvalidReference) else ByRules(rest1, text);
  }

  /**
   * A missing error, or one naming none of the three codes, gets the default
   * message, and only those do.
   */
  lemma DefaultMessageIff(error: Option<string>)
    ensures ByRules(InsertErrorRules, ErrorText(error)) == DefaultInsertError <==>
      !Contains(ErrorText(error), "ORA-02291") && !Contains(ErrorText(error), "ORA-00001")
      && !Contains(ErrorText(error), "ORA-01400")
    ensures error.None? ==> ByRules(InsertErrorRules, ErrorText(error)) == DefaultInsertError
  {
    RulesUnfold(ErrorText(error));
    assert |DefaultInsertError| != |InvalidCustomer| && |DefaultInsertError| != |InvalidSupplier|;
    assert |DefaultInsertError| != |InvalidReference| && |DefaultInsertError| != |DuplicateOrder|;
    assert |DefaultInsertError| != |NotUnique| && |DefaultInsertError| != |MissingFields|;
    if error.None? {
      NothingInEmpty("ORA-02291");
      NothingInEmpty("ORA-00001");
      NothingInEmpty("ORA-01400");
    }
  }

  lemma NothingInEmpty(p: string)
    requires p != []
    ensures !Contains("", p)
  {
  }

  /**
   * Priority: a foreign-key violation (ORA-02291) is reported as such whatever
   * else the text names; within it a customer id wins over a supplier id.
   */
  lemma ForeignKeyFirst(text: string)
    requires Contains(text, "ORA-02291")
    ensures ByRules(InsertErrorRules, text) in {InvalidCustomer, InvalidSupplier, InvalidReference}
    ensures Contains(ToUpper(text), "CUSTOMERID") ==> ByRules(InsertErrorRules, text) == InvalidCustomer
    ensures !Contains(ToUpper(text), "CUSTOMERID") && Contains(ToUpper(text), "SUPPLIERID") ==>
              ByRules(InsertErrorRules, text) == InvalidSupplier
  {
    RulesUnfold(text);
  }

  /**
   * A unique-key violation (ORA-00001) without a foreign-key violation is a
   * duplicate order exactly when the text names the order number or its key.
   */
  lemma UniqueKeySecond(text: string)
    requires !Contains(text, "ORA-02291") && Contains(text, "ORA-00001")
    ensures ByRules(InsertErrorRules, text) == DuplicateOrder <==>
              Contains(ToUpper(text), "ORDERNUMBER") || Contains(ToUpper(text), "PK_ORDERS")
    ensures ByRules(InsertErrorRules, text) in {DuplicateOrder, NotUnique}
  {
    RulesUnfold(text);
    assert |DuplicateOrder| != |NotUnique|;
  }
}
