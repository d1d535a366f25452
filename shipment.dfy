/**
 * The projection behind `GET /shipments?fields=...`: the comma-separated list
 * is split, each name trimmed and checked against the seven shipment columns,
 * and then the list as received, untrimmed, becomes the SELECT list.
 */
module ShipmentProjection {
  import opened Results
  import opened Text

  const AllowedColumns: seq<string> :=
    ["trackingNumber", "shipmentStatus", "shippingTime", "shipmentDate", "supplierID", "licensePlate", "carrierID"]

  datatype ProjectionError =
    | InvalidField(field: string)
      /** The `fields` query parameter is absent: `split` on `undefined` throws a TypeError. */
    | FieldsMissing

  /** The message of the error the route sends back as the response body. */
  /** What every error message of the operation starts with. */
  const MessagePrefix := "Error selecting from shipment: "

  function Message(e: ProjectionError): string {
    MessagePrefix +
    match e
    case InvalidField(f) => "Invalid field: " + f
    case FieldsMissing => "Cannot read properties of undefined (reading 'split')"
  }

  /** `fields.split(',').map(field => field.trim())` */
  function SanitizedFields(fields: string): (r: seq<string>)
    ensures |r| == |Split(fields, ',')|
    ensures forall i :: 0 <= i < |r| ==> r[i] == Trim(Split(fields, ',')[i])
  {
    var parts := Split(fields, ',');
    seq(|parts|, i requires 0 <= i < |parts| => Trim(parts[i]))
  }

  /** The statement executed for an accepted list: the raw list between `SELECT` and `FROM`. */
  function SelectText(fields: string): string {
    "SELECT " + fields + "\n             FROM SHIPMENT"
  }

  /** The first name that is not a shipment column, if any. */
  function FirstInvalid(names: seq<string>): Option<string>
    decreases |names|
  {
    if names == [] then None
    else if names[0] !in AllowedColumns then Some(names[0])
    else FirstInvalid(names[1..])
  }

  /** The statement `selectFromShipment` executes, or the error it throws. */
  function Projection(fields: Option<string>): Result<string, ProjectionError> {
    match fields
    case None => Failure(FieldsMissing)
    case Some(f) =>
      match FirstInvalid(SanitizedFields(f))
      case Some(name) => Failure(InvalidField(name))
      case None => Success(SelectText(f))
  }

  /** `selectFromShipment` up to the call to `execute`: the validation loop of the source. */
  method SelectFromShipment(fields: Option<string>) returns (r: Result<string, ProjectionError>)
    ensures r == Projection(fields)
  {
    if fields.None? {
      return Failure(FieldsMissing);
    }
    var sanitizedFields := SanitizedFields(fields.value);
    for i := 0 to |sanitizedFields|
      invariant FirstInvalid(sanitizedFields) == FirstInvalid(sanitizedFields[i..])
    {
      assert sanitizedFields[i..][1..] == sanitizedFields[i + 1..];
      if sanitizedFields[i] !in AllowedColumns {
        return Failure(InvalidField(sanitizedFields[i]));
      }
    }
    return Success(SelectText(fields.value));
  }

  /** `FirstInvalid` finds nothing exactly when every name is a column, and otherwise names an offending one. */
  lemma {:induction false} FirstInvalidSpec(names: seq<string>)
    ensures FirstInvalid(names).None? <==> forall i :: 0 <= i < |names| ==> names[i] in AllowedColumns
    ensures FirstInvalid(names).Some? ==> FirstInvalid(names).value in names && FirstInvalid(names).value !in AllowedColumns
    decreases |names|
  {
    if names != [] {
      FirstInvalidSpec(names[1..]);
      assert forall i :: 1 <= i < |names| ==> names[i] == names[1..][i - 1];
    }
  }

  /**
   * The list is accepted exactly when every comma-separated piece, trimmed, is
   * one of the seven columns; the statement then carries the list verbatim.
   */
  lemma ProjectionAccepts(f: string)
    ensures Projection(Some(f)).Success? <==>
              forall i :: 0 <= i < |Split(f, ',')| ==> Trim(Split(f, ',')[i]) in AllowedColumns
    ensures Projection(Some(f)).Success? ==> Projection(Some(f)).value == "SELECT " + f + "\n             FROM SHIPMENT"
  {
    var names := SanitizedFields(f);
    var parts := Split(f, ',');
    FirstInvalidSpec(names);
    if forall i :: 0 <= i < |names| ==> names[i] in AllowedColumns {
      forall i | 0 <= i < |parts| ensures Trim(parts[i]) in AllowedColumns {
        assert names[i] == Trim(parts[i]);
      }
    } else {
      var i :| 0 <= i < |names| && names[i] !in AllowedColumns;
      assert names[i] == Trim(parts[i]);
      assert 0 <= i < |Split(f, ',')| && Trim(Split(f, ',')[i]) !in AllowedColumns;
      assert Projection(Some(f)).Failure?;
    }
  }

  /** The empty list, and any list with an empty piece such as a trailing comma, is rejected. */
  lemma EmptyPieceRejected(f: string, i: nat)
    requires i < |Split(f, ',')| && AllSpace(Split(f, ',')[i])
    ensures Projection(Some(f)).Failure? && Projection(Some(f)).error.InvalidField?
  {
    var p := Split(f, ',')[i];
    TrimStartAllSpace(p);
    assert Trim(p) == [];
    var names := SanitizedFields(f);
    assert names[i] == [];
    assert names[i] !in AllowedColumns;
    FirstInvalidSpec(names);
    assert FirstInvalid(names).Some?;
  }

  lemma {:induction false} TrimStartAllSpace(s: string)
    requires AllSpace(s)
    ensures TrimStart(s) == []
    decreases |s|
  {
    if s != [] {
      TrimStartAllSpace(s[1..]);
    }
  }

  predicate IsLetter(c: char) {
    'A' <= c <= 'Z' || 'a' <= c <= 'z'
  }

  /** Every character of a joined list is the separator or comes from one of the pieces. */
  lemma {:induction false} JoinChars(ps: seq<string>, d: char, c: char)
    requires c in Join(ps, [d])
    ensures c == d || exists i :: 0 <= i < |ps| && c in ps[i]
  {
    if |ps| > 1 {
      var rest := Join(ps[1..], [d]);
      assert Join(ps, [d]) == ps[0] + [d] + rest;
      if c !in ps[0] && c != d {
        assert c in rest;
        JoinChars(ps[1..], d, c);
        var i :| 0 <= i < |ps[1..]| && c in ps[1..][i];
        assert c in ps[i + 1];
      }
    }
  }

  /**
   * An accepted list is made of ASCII letters, commas and whitespace only, so the
   * raw text placed in the SELECT list cannot carry quotes, operators or
   * statement separators.
   */
  lemma AcceptedListIsInert(f: string)
    requires Projection(Some(f)).Success?
    ensures forall k :: 0 <= k < |f| ==> IsLetter(f[k]) || f[k] == ',' || IsSpace(f[k])
  {
    ProjectionAccepts(f);
    var ps := Split(f, ',');
    JoinSplit(f, ',');
    forall k | 0 <= k < |f|
      ensures IsLetter(f[k]) || f[k] == ',' || IsSpace(f[k])
    {
      var c := f[k];
      JoinChars(ps, ',', c);
      if c != ',' {
        var i :| 0 <= i < |ps| && c in ps[i];
        var j :| 0 <= j < |ps[i]| && ps[i][j] == c;
        TrimKeeps(ps[i], j);
        if !IsSpace(c) {
          ColumnsAreLetters(Trim(ps[i]), c);
        }
      }
    }
  }

  lemma ColumnsAreLetters(name: string, c: char)
    requires name in AllowedColumns && c in name
    ensures IsLetter(c)
  {
  }

  /** The operation's prefix, then a first character that tells the two errors apart. */
  lemma MessageHead(e: ProjectionError)
    ensures |MessagePrefix| < |Message(e)|
    ensures Message(e)[..|MessagePrefix|] == MessagePrefix
    ensures Message(e)[|MessagePrefix|] == (if e.InvalidField? then 'I' else 'C')
  {
    var rest := if e.InvalidField? then "Invalid field: " + e.field else "Cannot read properties of undefined (reading 'split')";
    assert Message(e) == MessagePrefix + rest;
    if e.InvalidField? {
      assert rest[0] == 'I';
    } else {
      assert rest == "Cannot read properties of undefined " + "(reading 'split')";
      assert rest[0] == 'C';
    }
  }

  /** Every message carries the operation's prefix, and different errors give different messages. */
  lemma MessageIdentifiesError(a: ProjectionError, b: ProjectionError)
    ensures StartsWith(Message(a), MessagePrefix)
    ensures Message(a) == Message(b) <==> a == b
  {
    MessageHead(a);
    MessageHead(b);
    if a.InvalidField? && b.InvalidField? {
      var k := |MessagePrefix| + 15;
      assert a.field == Message(a)[k..] && b.field == Message(b)[k..];
    }
  }
}
