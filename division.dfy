/**
 * The division query behind `GET /divModels?models=...`: each comma-separated
 * model name is embedded as a SQL character-string literal, with every `'`
 * doubled as section 5.3 (`<character string literal>`) of ISO/IEC 9075-2
 * requires, in a `SELECT '<m>' AS model FROM dual`; the selects are joined with
 * ` UNION ALL ` and placed inside the `NOT EXISTS (... MINUS ...)` of the
 * carrier query.
 */
module DivisionQuery {
  import opened Results
  import opened Text

  /** `model.replace(/'/g, "''")` */
  function SanitizeModel(m: string): string
    decreases |m|
  {
    if m == [] then []
    else (if m[0] == '\'' then "''" else [m[0]]) + SanitizeModel(m[1..])
  }

  /** `SELECT '<m>' AS model FROM dual` for one sanitised model. */
  function ModelSelect(sanitized: string): string {
    "SELECT '" + sanitized + "' AS model FROM dual"
  }

  /** The model selects, one per comma-separated piece, in input order. */
  function ModelSelects(models: string): (r: seq<string>)
    ensures |r| == |Split(models, ',')|
    ensures forall i :: 0 <= i < |r| ==> r[i] == ModelSelect(SanitizeModel(Split(models, ',')[i]))
  {
    var modelList := Split(models, ',');
    seq(|modelList|, i requires 0 <= i < |modelList| => ModelSelect(SanitizeModel(modelList[i])))
  }

  /** `modelSubquery`: the selects joined by ` UNION ALL `. */
  function ModelSubquery(models: string): string {
    Join(ModelSelects(models), " UNION ALL ")
  }

  /** The carrier query up to the model subquery. */
  const DivisionHead := "SELECT C.userID AS CARRIERID, C.name AS CARRIERNAME\n"
    + "             FROM Carrier C\n"
    + "             WHERE NOT EXISTS (\n"
    + "                 "

  /** The carrier query after the model subquery: the carrier's own models are subtracted. */
  const DivisionTail := "\n"
    + "                 MINUS\n"
    + "                 (SELECT V.model\n"
    + "                 FROM Vehicle V\n"
    + "                 WHERE V.carrierID = C.userID)\n"
    + "                       )"

  /** The statement `divideModelsFromDb` executes. */
  function DivisionSql(models: string): string {
    DivisionHead + ModelSubquery(models) + DivisionTail
  }

  datatype DivisionError =
      /** The `models` query parameter is absent: `split` on `undefined` throws a TypeError. */
      ModelsMissing

  /** `divideModelsFromDb` up to the call to `execute`. */
  function Divide(models: Option<string>): Result<string, DivisionError> {
    match models
    case None => Failure(ModelsMissing)
    case Some(m) => Success(DivisionSql(m))
  }

  /**
   * A missing list fails before any statement is built; otherwise the
   * statement embeds the model subquery whole, right after the head of the
   * carrier query.
   */
  lemma DivideSpec(models: Option<string>)
    ensures Divide(models).Failure? <==> models.None?
    ensures models.Some? ==> StartsWith(Divide(models).value, DivisionHead)
    ensures models.Some? ==> Contains(Divide(models).value, ModelSubquery(models.value))
  {
    if models.Some? {
      var sub := ModelSubquery(models.value);
      var sql := DivisionSql(models.value);
      var h := |DivisionHead|;
      assert sql[..h] == DivisionHead;
      assert sql[h..h + |sub|] == sub;
      ContainsAt(sql, sub, h);
    }
  }

  /**
   * How a SQL reader takes a character-string literal apart, starting just after
   * its opening quote: `''` stands for one quote and a lone `'` closes the
   * literal. The result is the literal's value and the text after it, or `None`
   * when the literal is never closed.
   */
  function ReadLiteral(s: string): Option<(string, string)>
    decreases |s|
  {
    if s == [] then None
    else if s[0] == '\'' then
      if |s| > 1 && s[1] == '\'' then
        match ReadLiteral(s[2..])
        case None => None
        case Some(p) => Some(("'" + p.0, p.1))
      else Some(([], s[1..]))
    else
      match ReadLiteral(s[1..])
      case None => None
      case Some(p) => Some(([s[0]] + p.0, p.1))
  }

  /**
   * A sanitised model, closed by a quote, reads back as exactly the model, and
   * the literal ends exactly there: whatever follows (when it does not itself
   * start with a quote) stays outside the literal.
   */
  lemma {:induction false} LiteralRoundTrip(m: string, rest: string)
    requires rest == [] || rest[0] != '\''
    ensures ReadLiteral(SanitizeModel(m) + "'" + rest) == Some((m, rest))
    decreases |m|
  {
    var s := SanitizeModel(m) + "'" + rest;
    if m == [] {
      assert s == "'" + rest;
      assert s[1..] == rest;
    } else {
      LiteralRoundTrip(m[1..], rest);
      var tail := SanitizeModel(m[1..]) + "'" + rest;
      if m[0] == '\'' {
        assert s == "''" + tail;
        assert s[2..] == tail;
        assert "'" + m[1..] == m;
      } else {
        assert s == [m[0]] + tail;
        assert s[1..] == tail;
        assert [m[0]] + m[1..] == m;
      }
    }
  }

  /** Sanitising doubles every quote and keeps every other character. */
  lemma {:induction false} SanitizeCounts(m: string)
    ensures Count(SanitizeModel(m), '\'') == 2 * Count(m, '\'')
    ensures |SanitizeModel(m)| == |m| + Count(m, '\'')
    decreases |m|
  {
    if m != [] {
      SanitizeCounts(m[1..]);
      var head := if m[0] == '\'' then "''" else [m[0]];
      CountConcat(head, SanitizeModel(m[1..]), '\'');
    }
  }

  /** The literal of one select holds exactly its model. */
  lemma SelectLiteral(m: string)
    ensures StartsWith(ModelSelect(SanitizeModel(m)), "SELECT '")
    ensures ReadLiteral(ModelSelect(SanitizeModel(m))[8..]) == Some((m, " AS model FROM dual"))
  {
    var z := SanitizeModel(m);
    var sel := ModelSelect(z);
    assert sel == "SELECT '" + (z + "'" + " AS model FROM dual");
    assert sel[..8] == "SELECT '";
    assert sel[8..] == z + "'" + " AS model FROM dual";
    LiteralRoundTrip(m, " AS model FROM dual");
  }

  /**
   * Model `i` of the input is the value of the literal in select `i`, and the
   * literal is followed by ` AS model FROM dual`; joining the values back with
   * commas gives the input, so no model is lost, added or reordered.
   */
  lemma ModelSelectsRoundTrip(models: string, i: nat)
    requires i < |ModelSelects(models)|
    ensures |ModelSelects(models)| == |Split(models, ',')|
    ensures StartsWith(ModelSelects(models)[i], "SELECT '")
    ensures ReadLiteral(ModelSelects(models)[i][8..]) == Some((Split(models, ',')[i], " AS model FROM dual"))
    ensures Join(Split(models, ','), ",") == models
  {
    SelectLiteral(Split(models, ',')[i]);
    JoinSplit(models, ',');
  }
}
