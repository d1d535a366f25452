/**
 * `initiateDemotable`: the initialisation script is cut into statements at
 * `;`, each statement is executed in order, a failing `DROP` of a table that
 * does not exist (ORA-00942) is tolerated, any other failure stops the run and
 * rolls back, and a complete run commits.
 */
module InitScript {
  import opened Results
  import opened Text

  /** `ps.map(s => s.trim())` */
  function TrimAll(ps: seq<string>): (r: seq<string>)
    ensures |r| == |ps|
    ensures forall i :: 0 <= i < |ps| ==> r[i] == Trim(ps[i])
  {
    seq(|ps|, i requires 0 <= i < |ps| => Trim(ps[i]))
  }

  /** `ps.filter(s => s.length > 0)` */
  function NonEmpty(ps: seq<string>): seq<string>
    decreases |ps|
  {
    if ps == [] then []
    else (if ps[0] != [] then [ps[0]] else []) + NonEmpty(ps[1..])
  }

  /** `sqlScript.split(';').map(s => s.trim()).filter(s => s.length > 0)` */
  function Statements(script: string): seq<string> {
    NonEmpty(TrimAll(Split(script, ';')))
  }

  /** The database's answer to one statement; `errorNum` may be undefined. */
  datatype StmtOutcome = Done | Error(errorNum: Option<int>)

  /** The error number of ORA-00942, "table or view does not exist". */
  const TableMissing := 942

  /** The error a statement may raise without stopping the script. */
  predicate Tolerated(statement: string, outcome: StmtOutcome) {
    StartsWith(ToUpper(statement), "DROP") && outcome.Error? && outcome.errorNum == Some(TableMissing)
  }

  /** The answer to statement `i` stops the script. */
  predicate Fatal(respond: (nat, string) -> StmtOutcome, i: nat, statement: string) {
    respond(i, statement).Error? && !Tolerated(statement, respond(i, statement))
  }

  /** The index of the first statement from `i` on whose failure is fatal. */
  function FirstFatal(stmts: seq<string>, respond: (nat, string) -> StmtOutcome, i: nat): Option<nat>
    decreases |stmts| - i
  {
    if i >= |stmts| then None
    else if Fatal(respond, i, stmts[i]) then Some(i)
    else FirstFatal(stmts, respond, i + 1)
  }

  /** What the run does to the connection, in order. */
  datatype Action = Execute(statement: string) | Commit | Rollback

  function Executions(stmts: seq<string>): (r: seq<Action>)
    ensures |r| == |stmts|
    ensures forall i :: 0 <= i < |stmts| ==> r[i] == Execute(stmts[i])
  {
    seq(|stmts|, i requires 0 <= i < |stmts| => Execute(stmts[i]))
  }

  /** The statements a run executes: up to and including the first fatal one. */
  function Executed(stmts: seq<string>, respond: (nat, string) -> StmtOutcome): seq<Action> {
    match FirstFatal(stmts, respond, 0)
    case Some(k) => if k < |stmts| then Executions(stmts[..k + 1]) else []
    case None => Executions(stmts)
  }

  /**
   * The connection actions of a run: `script` is `None` when the file cannot be
   * read, `commitOk` says whether the commit went through.
   */
  function RunLog(script: Option<string>, respond: (nat, string) -> StmtOutcome, commitOk: bool): seq<Action> {
    match script
    case None => [Rollback]
    case Some(text) =>
      var stmts := Statements(text);
      Executed(stmts, respond)
      + if FirstFatal(stmts, respond, 0).Some? then [Rollback]
        else [Commit] + (if commitOk then [] else [Rollback])
  }

  /** The value `initiateDemotable` resolves to. */
  predicate RunSucceeds(script: Option<string>, respond: (nat, string) -> StmtOutcome, commitOk: bool) {
    script.Some? && FirstFatal(Statements(script.value), respond, 0).None? && commitOk
  }

  /** The statement loop of `initiateDemotable`: `fatal` when an error was rethrown. */
  method ExecuteStatements(sqlStatements: seq<string>, respond: (nat, string) -> StmtOutcome)
    returns (fatal: bool, log: seq<Action>)
    ensures fatal == FirstFatal(sqlStatements, respond, 0).Some?
    ensures log == Executed(sqlStatements, respond)
  {
    log := [];
    for i := 0 to |sqlStatements|
      invariant log == Executions(sqlStatements[..i])
      invariant FirstFatal(sqlStatements, respond, 0) == FirstFatal(sqlStatements, respond, i)
    {
      var statement := sqlStatements[i];
      log := log + [Execute(statement)];
      assert sqlStatements[..i + 1] == sqlStatements[..i] + [statement];
      var outcome := respond(i, statement);
      if outcome.Error? {
        if StartsWith(ToUpper(statement), "DROP") && outcome.errorNum == Some(TableMissing) {
          // tolerated: the table to drop does not exist yet
        } else {
          assert FirstFatal(sqlStatements, respond, 0) == Some(i);
          return true, log;
        }
      }
    }
    assert sqlStatements[..|sqlStatements|] == sqlStatements;
    fatal := false;
  }

  /** `initiateDemotable()` on an open connection. */
  method InitiateDemotable(script: Option<string>, respond: (nat, string) -> StmtOutcome, commitOk: bool)
    returns (ok: bool, log: seq<Action>)
    ensures ok == RunSucceeds(script, respond, commitOk)
    ensures log == RunLog(script, respond, commitOk)
  {
    if script.None? {
      // the read failure is caught: rollback, then false
      return false, [Rollback];
    }
    var sqlStatements := Statements(script.value);
    var fatal;
    fatal, log := ExecuteStatements(sqlStatements, respond);
    if fatal {
      return false, log + [Rollback];
    }
    log := log + [Commit];
    if !commitOk {
      return false, log + [Rollback];
    }
    ok := true;
  }

  /** Every statement is trimmed, non-empty and free of `;`. */
  lemma StatementsWellFormed(script: string)
    ensures forall s :: s in Statements(script) ==> s != [] && Trim(s) == s && ';' !in s
  {
    var pieces := Split(script, ';');
    forall i | 0 <= i < |pieces|
      ensures Trim(pieces[i]) == Trim(Trim(pieces[i])) && ';' !in Trim(pieces[i])
    {
      TrimIdempotent(pieces[i]);
      TrimSpec(pieces[i]);
    }
    FilterKeeps(TrimAll(pieces));
  }

  /** `NonEmpty` keeps exactly the non-empty elements of its input. */
  lemma {:induction false} FilterKeeps(ps: seq<string>)
    ensures forall s :: s in NonEmpty(ps) <==> s in ps && s != []
    decreases |ps|
  {
    if ps != [] {
      FilterKeeps(ps[1..]);
      assert ps == [ps[0]] + ps[1..];
    }
  }

  /** Filtering distributes over concatenation, so it keeps the order of what it keeps. */
  lemma {:induction false} FilterAppend(a: seq<string>, b: seq<string>)
    ensures NonEmpty(a + b) == NonEmpty(a) + NonEmpty(b)
    decreases |a|
  {
    if a != [] {
      assert (a + b)[1..] == a[1..] + b;
      FilterAppend(a[1..], b);
    } else {
      assert a + b == b;
    }
  }

  /** Every piece between two `;` that is not blank once trimmed is a statement. */
  lemma StatementsComplete(script: string)
    ensures forall i :: 0 <= i < |Split(script, ';')| && Trim(Split(script, ';')[i]) != [] ==>
      Trim(Split(script, ';')[i]) in Statements(script)
  {
    var pieces := Split(script, ';');
    FilterKeeps(TrimAll(pieces));
    forall i | 0 <= i < |pieces| && Trim(pieces[i]) != []
      ensures Trim(pieces[i]) in Statements(script)
    {
      assert TrimAll(pieces)[i] == Trim(pieces[i]);
    }
  }

  /** Any pieces joined by `;` are read back as those pieces, trimmed, without the blank ones. */
  lemma StatementsOfPieces(ps: seq<string>)
    requires |ps| >= 1
    requires forall i :: 0 <= i < |ps| ==> ';' !in ps[i]
    ensures Statements(Join(ps, ";")) == NonEmpty(TrimAll(ps))
  {
    SplitJoin(ps, ';');
  }

  /** The script with each statement preceded by `pad` and followed by `;`, and `pad` at the end. */
  function Terminated(stmts: seq<string>, pad: string): string {
    Join(seq(|stmts|, i requires 0 <= i < |stmts| => pad + stmts[i]) + [pad], ";")
  }

  /**
   * A script that ends every statement with `;` and puts whitespace (a line
   * break, say) after each `;` is read back as exactly its statements, in
   * order: the whitespace is trimmed and the blank piece after the last `;`
   * is dropped.
   */
  lemma StatementsOfTerminated(stmts: seq<string>, pad: string)
    requires forall i :: 0 <= i < |stmts| ==> stmts[i] != [] && Trim(stmts[i]) == stmts[i] && ';' !in stmts[i]
    requires AllSpace(pad)
    ensures Statements(Terminated(stmts, pad)) == stmts
  {
    var ps := seq(|stmts|, i requires 0 <= i < |stmts| => pad + stmts[i]) + [pad];
    assert ';' !in pad by {
      assert !IsSpace(';');
    }
    forall i | 0 <= i < |ps|
      ensures ';' !in ps[i]
      ensures TrimAll(ps)[i] == (if i < |stmts| then stmts[i] else [])
    {
      TrimPadded(pad, if i < |stmts| then stmts[i] else []);
    }
    StatementsOfPieces(ps);
    assert TrimAll(ps) == stmts + [[]];
    FilterAppend(stmts, [[]]);
    FilterAllNonEmpty(stmts);
    assert NonEmpty([[]]) == [] + NonEmpty([]);
  }

  /** Filtering a sequence with no empty element changes nothing. */
  lemma {:induction false} FilterAllNonEmpty(ps: seq<string>)
    requires forall i :: 0 <= i < |ps| ==> ps[i] != []
    ensures NonEmpty(ps) == ps
    decreases |ps|
  {
    if ps != [] {
      FilterAllNonEmpty(ps[1..]);
      assert [ps[0]] + ps[1..] == ps;
    }
  }

  /**
   * A script written as well-formed statements separated by `;` is read back
   * as exactly those statements, in order.
   */
  lemma StatementsOfJoin(stmts: seq<string>)
    requires forall i :: 0 <= i < |stmts| ==> stmts[i] != [] && Trim(stmts[i]) == stmts[i] && ';' !in stmts[i]
    ensures Statements(Join(stmts, ";")) == stmts
  {
    if stmts == [] {
      EmptyScript();
    } else {
      SplitJoin(stmts, ';');
      TrimAllFixed(stmts);
      FilterAllNonEmpty(stmts);
    }
  }

  /** An empty script has no statements. */
  lemma EmptyScript()
    ensures Statements("") == []
  {
    var trimmed := TrimAll(Split("", ';'));
    assert TrimStart([]) == [];
    assert trimmed == [[]];
    assert NonEmpty(trimmed) == [] + NonEmpty(trimmed[1..]);
  }

  lemma TrimAllFixed(ps: seq<string>)
    requires forall i :: 0 <= i < |ps| ==> Trim(ps[i]) == ps[i]
    ensures TrimAll(ps) == ps
  {
  }

  /**
   * A failure is tolerated exactly when the statement starts with `drop` in any
   * letter case and the error number is 942.
   */
  lemma ToleratedIff(statement: string, outcome: StmtOutcome)
    ensures Tolerated(statement, outcome) <==>
      |statement| >= 4
      && statement[0] in "dD" && statement[1] in "rR" && statement[2] in "oO" && statement[3] in "pP"
      && outcome == Error(Some(942))
  {
    var u := ToUpper(statement);
    if |statement| >= 4 {
      assert u[..4] == [UpperChar(statement[0]), UpperChar(statement[1]), UpperChar(statement[2]), UpperChar(statement[3])];
    }
  }

  /** No fatal answer from `i` on exactly when every failure from `i` on is tolerated. */
  lemma {:induction false} NoFatalIff(stmts: seq<string>, respond: (nat, string) -> StmtOutcome, i: nat)
    ensures FirstFatal(stmts, respond, i).None? <==>
      forall j :: i <= j < |stmts| && respond(j, stmts[j]).Error? ==> Tolerated(stmts[j], respond(j, stmts[j]))
    decreases |stmts| - i
  {
    if i < |stmts| {
      NoFatalIff(stmts, respond, i + 1);
    }
  }

  /** The first fatal answer found is fatal, and every earlier one is not. */
  lemma {:induction false} FirstFatalIsFirst(stmts: seq<string>, respond: (nat, string) -> StmtOutcome, i: nat, k: nat)
    requires FirstFatal(stmts, respond, i) == Some(k)
    ensures i <= k < |stmts| && Fatal(respond, k, stmts[k])
    ensures forall j :: i <= j < k ==> !Fatal(respond, j, stmts[j])
    decreases |stmts| - i
  {
    if i < |stmts| && !Fatal(respond, i, stmts[i]) {
      FirstFatalIsFirst(stmts, respond, i + 1, k);
    }
  }

  /**
   * A run that reports success executed every statement in order, then
   * committed and did not roll back, and every failure it met was a tolerated
   * `DROP`.
   */
  lemma SuccessfulRun(script: Option<string>, respond: (nat, string) -> StmtOutcome, commitOk: bool)
    requires RunSucceeds(script, respond, commitOk)
    ensures RunLog(script, respond, commitOk) == Executions(Statements(script.value)) + [Commit]
    ensures forall j :: 0 <= j < |Statements(script.value)| && respond(j, Statements(script.value)[j]).Error? ==>
              Tolerated(Statements(script.value)[j], respond(j, Statements(script.value)[j]))
  {
    NoFatalIff(Statements(script.value), respond, 0);
  }

  /**
   * A fatal failure of statement `k` ends the run there: statements `0..k` were
   * executed, nothing after them, and the run rolls back and reports failure.
   */
  lemma FatalStops(script: string, respond: (nat, string) -> StmtOutcome, commitOk: bool, k: nat)
    requires FirstFatal(Statements(script), respond, 0) == Some(k)
    ensures k < |Statements(script)| && Fatal(respond, k, Statements(script)[k])
    ensures RunLog(Some(script), respond, commitOk) == Executions(Statements(script)[..k + 1]) + [Rollback]
    ensures !RunSucceeds(Some(script), respond, commitOk)
  {
    FirstFatalIsFirst(Statements(script), respond, 0, k);
  }
}
