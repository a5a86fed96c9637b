/** Row identity of `Database._getRowIdentifier` in `pylib/dbx_mysqldb.py`:
    the condition and the values that pick one row of a table, from its
    column descriptions and the row's values. */
module DbxRowIdentity {

  import opened PyBase
  import opened PyText
  import opened PyFormat
  import opened DbxColumns
  import opened DbxStatements

  /** Which columns identify a row: the primary-key columns, or, when there
      are none, every column whose type is not the upper-case "BLOB". */
  datatype KeyRule = PrimaryKey | NotBlob

  predicate Keeps(rule: KeyRule, c: ColumnInfo)
  {
    match rule
    case PrimaryKey => c.isPrimaryKey
    case NotBlob => c.dataType != "BLOB"
  }

  /** The positions of the columns `rule` keeps, in column order. */
  function Positions(cols: seq<ColumnInfo>, rule: KeyRule): (ps: seq<nat>)
    ensures forall j :: 0 <= j < |ps| ==> ps[j] < |cols| && Keeps(rule, cols[ps[j]])
    ensures forall j, k :: 0 <= j < k < |ps| ==> ps[j] < ps[k]
    ensures forall p :: 0 <= p < |cols| && Keeps(rule, cols[p]) ==> p in ps
    decreases |cols|
  {
    if |cols| == 0 then []
    else
      var init := Positions(cols[..|cols| - 1], rule);
      if Keeps(rule, cols[|cols| - 1]) then init + [|cols| - 1] else init
  }

  predicate InColumns(cols: seq<ColumnInfo>, ps: seq<nat>)
  {
    forall j :: 0 <= j < |ps| ==> ps[j] < |cols|
  }

  /** Whether every position, shifted by `offset`, indexes the row. */
  predicate InRow(row: seq<Value>, ps: seq<nat>, offset: nat)
  {
    forall j :: 0 <= j < |ps| ==> offset + ps[j] < |row|
  }

  function NamesAt(cols: seq<ColumnInfo>, ps: seq<nat>): seq<string>
    requires InColumns(cols, ps)
  {
    seq(|ps|, j requires 0 <= j < |ps| => cols[ps[j]].name)
  }

  function ValuesAt(row: seq<Value>, ps: seq<nat>, offset: nat): seq<Value>
    requires InRow(row, ps, offset)
  {
    seq(|ps|, j requires 0 <= j < |ps| => row[offset + ps[j]])
  }

  /** `" and ".join(["%s = ?" % (k,) for k in keyNames])`: a condition with
      `?` markers, not the `%s` placeholders MySQLdb binds. */
  function QmarkCondition(keyNames: seq<string>): string
  {
    Join(seq(|keyNames|, i requires 0 <= i < |keyNames| => keyNames[i] + " = ?"), " and ")
  }

  /** The condition and the key values `_getRowIdentifier` returns. */
  datatype RowIdentifier = RowIdentifier(condition: string, keyValues: seq<Value>)

  /** The identifier over the columns `rule` keeps, reading the row from
      position `offset` on; an IndexError when the row is too short. */
  function IdentifyAt(cols: seq<ColumnInfo>, row: seq<Value>, rule: KeyRule, offset: nat): Result<RowIdentifier>
  {
    var ps := Positions(cols, rule);
    if InRow(row, ps, offset) then Ok(RowIdentifier(QmarkCondition(NamesAt(cols, ps)), ValuesAt(row, ps, offset)))
    else Err(IndexError)
  }

  /** `_getRowIdentifier` as written: the fallback loop starts with the
      index the primary-key loop left behind, `len(cols)`. */
  function RowIdentifierAsWritten(cols: seq<ColumnInfo>, row: seq<Value>): Result<RowIdentifier>
  {
    if |Positions(cols, PrimaryKey)| > 0 then IdentifyAt(cols, row, PrimaryKey, 0)
    else IdentifyAt(cols, row, NotBlob, |cols|)
  }

  /** `_getRowIdentifier` with the index reset before the fallback loop. */
  function RowIdentifierReset(cols: seq<ColumnInfo>, row: seq<Value>): Result<RowIdentifier>
  {
    if |Positions(cols, PrimaryKey)| > 0 then IdentifyAt(cols, row, PrimaryKey, 0)
    else IdentifyAt(cols, row, NotBlob, 0)
  }

  lemma PositionsStep(cols: seq<ColumnInfo>, rule: KeyRule, i: nat)
    requires i < |cols|
    ensures Positions(cols[..i + 1], rule)
         == Positions(cols[..i], rule) + (if Keeps(rule, cols[i]) then [i] else [])
  {
    assert cols[..i + 1][..i] == cols[..i];
  }

  /** The loop state: the names and values gathered so far are those of the
      positions `ps`, all read within the row. */
  predicate Gathered(cols: seq<ColumnInfo>, row: seq<Value>, offset: nat, ps: seq<nat>,
                     keyNames: seq<string>, keyValues: seq<Value>)
  {
    InColumns(cols, ps) && InRow(row, ps, offset) && |keyNames| == |ps| && |keyValues| == |ps| &&
    forall j :: 0 <= j < |ps| ==> keyNames[j] == cols[ps[j]].name && keyValues[j] == row[offset + ps[j]]
  }

  lemma GatheredStep(cols: seq<ColumnInfo>, row: seq<Value>, offset: nat, ps: seq<nat>,
                     keyNames: seq<string>, keyValues: seq<Value>, i: nat)
    requires Gathered(cols, row, offset, ps, keyNames, keyValues)
    requires i < |cols| && offset + i < |row|
    ensures Gathered(cols, row, offset, ps + [i], keyNames + [cols[i].name], keyValues + [row[offset + i]])
  {
    var ps', names', values' := ps + [i], keyNames + [cols[i].name], keyValues + [row[offset + i]];
    forall j | 0 <= j < |ps'|
      ensures ps'[j] < |cols| && offset + ps'[j] < |row|
      ensures names'[j] == cols[ps'[j]].name && values'[j] == row[offset + ps'[j]]
    {
      if j < |ps| {
        assert ps'[j] == ps[j] && names'[j] == keyNames[j] && values'[j] == keyValues[j];
      }
    }
  }

  lemma GatheredAll(cols: seq<ColumnInfo>, row: seq<Value>, offset: nat, ps: seq<nat>,
                    keyNames: seq<string>, keyValues: seq<Value>)
    requires Gathered(cols, row, offset, ps, keyNames, keyValues)
    ensures keyNames == NamesAt(cols, ps) && keyValues == ValuesAt(row, ps, offset)
  {
  }

  /** A kept column whose shifted index is past the end of the row. */
  lemma OverrunsRow(cols: seq<ColumnInfo>, row: seq<Value>, rule: KeyRule, offset: nat, i: nat)
    requires i < |cols| && Keeps(rule, cols[i]) && offset + i >= |row|
    ensures !InRow(row, Positions(cols, rule), offset)
  {
    var ps := Positions(cols, rule);
    assert i in ps;
    var j :| 0 <= j < |ps| && ps[j] == i;
  }

  /** One loop of `_getRowIdentifier`: the names and values of the columns
      `rule` keeps, reading the row at `idx`, which starts at `offset` and
      goes up by one per column. */
  method CollectKeys(cols: seq<ColumnInfo>, row: seq<Value>, rule: KeyRule, offset: nat)
    returns (r: Result<(seq<string>, seq<Value>)>)
    ensures r.Ok? <==> InRow(row, Positions(cols, rule), offset)
    ensures r.Ok? ==>
      r.value.0 == NamesAt(cols, Positions(cols, rule)) && r.value.1 == ValuesAt(row, Positions(cols, rule), offset)
  {
    var keyNames: seq<string> := [];
    var keyValues: seq<Value> := [];
    var idx := offset;
    var i := 0;
    ghost var ps: seq<nat> := [];
    assert cols[..0] == [];
    while i < |cols|
      invariant 0 <= i <= |cols| && idx == offset + i
      invariant ps == Positions(cols[..i], rule)
      invariant Gathered(cols, row, offset, ps, keyNames, keyValues)
    {
      PositionsStep(cols, rule, i);
      if Keeps(rule, cols[i]) {
        if idx >= |row| {
          OverrunsRow(cols, row, rule, offset, i);
          return Err(IndexError);
        }
        GatheredStep(cols, row, offset, ps, keyNames, keyValues, i);
        keyNames := keyNames + [cols[i].name];
        keyValues := keyValues + [row[idx]];
        ps := ps + [i];
      }
      idx := idx + 1;
      i := i + 1;
    }
    GatheredAll(cols, row, offset, ps, keyNames, keyValues);
    assert cols[..|cols|] == cols;
    r := Ok((keyNames, keyValues));
  }

  /** `Database._getRowIdentifier`, over the column descriptions the table
      lookup returns. */
  method GetRowIdentifier(cols: seq<ColumnInfo>, row: seq<Value>) returns (r: Result<RowIdentifier>)
    ensures r == RowIdentifierAsWritten(cols, row)
  {
    var keys := CollectKeys(cols, row, PrimaryKey, 0);
    if keys.Err? {
      return Err(IndexError);
    }
    if |keys.value.0| > 0 {
      return Ok(RowIdentifier(QmarkCondition(keys.value.0), keys.value.1));
    }
    keys := CollectKeys(cols, row, NotBlob, |cols|);
    if keys.Err? {
      return Err(IndexError);
    }
    return Ok(RowIdentifier(QmarkCondition(keys.value.0), keys.value.1));
  }

  /** `Database._getRowIdentifier` with `idx` set back to 0 before the
      fallback loop. */
  method GetRowIdentifierReset(cols: seq<ColumnInfo>, row: seq<Value>) returns (r: Result<RowIdentifier>)
    ensures r == RowIdentifierReset(cols, row)
  {
    var keys := CollectKeys(cols, row, PrimaryKey, 0);
    if keys.Err? {
      return Err(IndexError);
    }
    if |keys.value.0| > 0 {
      return Ok(RowIdentifier(QmarkCondition(keys.value.0), keys.value.1));
    }
    keys := CollectKeys(cols, row, NotBlob, 0);
    if keys.Err? {
      return Err(IndexError);
    }
    return Ok(RowIdentifier(QmarkCondition(keys.value.0), keys.value.1));
  }

  /** With a primary key, the identifier names exactly the primary-key
      columns, in column order, each with the row's value at its position. */
  lemma PrimaryKeyIdentifies(cols: seq<ColumnInfo>, row: seq<Value>)
    requires |row| == |cols|
    requires exists p :: 0 <= p < |cols| && cols[p].isPrimaryKey
    ensures var ps := Positions(cols, PrimaryKey);
      RowIdentifierAsWritten(cols, row) == Ok(RowIdentifier(QmarkCondition(NamesAt(cols, ps)), ValuesAt(row, ps, 0))) &&
      (forall j :: 0 <= j < |ps| ==> cols[ps[j]].isPrimaryKey && ValuesAt(row, ps, 0)[j] == row[ps[j]]) &&
      (forall p :: 0 <= p < |cols| && cols[p].isPrimaryKey ==> p in ps)
  {
    var p :| 0 <= p < |cols| && cols[p].isPrimaryKey;
    assert Keeps(PrimaryKey, cols[p]);
    assert p in Positions(cols, PrimaryKey);
  }

  /** As written, a table without a primary key and with a column not typed
      "BLOB" cannot identify a row that has one value per column: the
      fallback reads past its end. */
  lemma FallbackReadsPastRow(cols: seq<ColumnInfo>, row: seq<Value>)
    requires |row| == |cols|
    requires forall p :: 0 <= p < |cols| ==> !cols[p].isPrimaryKey
    requires exists p :: 0 <= p < |cols| && cols[p].dataType != "BLOB"
    ensures RowIdentifierAsWritten(cols, row) == Err(IndexError)
  {
    var p :| 0 <= p < |cols| && cols[p].dataType != "BLOB";
    assert Keeps(NotBlob, cols[p]);
    assert forall q :: 0 <= q < |cols| ==> !Keeps(PrimaryKey, cols[q]);
    var ps := Positions(cols, NotBlob);
    var j :| 0 <= j < |ps| && ps[j] == p;
    assert |cols| + ps[j] >= |row|;
  }

  /** A two-column table without a primary key, and one of its rows. */
  const SampleColumns: seq<ColumnInfo> := [
    ColumnInfo("id", "int", Str("NO"), false, Null, Null, false),
    ColumnInfo("label", "varchar", Str("YES"), false, Null, Int(40), false)]

  lemma SamplePositions()
    ensures Positions(SampleColumns, PrimaryKey) == []
    ensures Positions(SampleColumns, NotBlob) == [0, 1]
  {
    var cols := SampleColumns;
    assert cols[..2] == cols;
    assert cols[..0] == [];
    PositionsStep(cols, PrimaryKey, 0);
    PositionsStep(cols, PrimaryKey, 1);
    PositionsStep(cols, NotBlob, 0);
    PositionsStep(cols, NotBlob, 1);
  }

  /** The concrete input: the as-written identifier fails, the reset one
      identifies the row by both columns. */
  lemma SampleRowIdentifier()
    ensures RowIdentifierAsWritten(SampleColumns, [Int(7), Str("x")]) == Err(IndexError)
    ensures RowIdentifierReset(SampleColumns, [Int(7), Str("x")]).Ok?
    ensures RowIdentifierReset(SampleColumns, [Int(7), Str("x")]).value.keyValues == [Int(7), Str("x")]
  {
    var cols, row := SampleColumns, [Int(7), Str("x")];
    SamplePositions();
    assert Keeps(NotBlob, cols[0]);
    FallbackReadsPastRow(cols, row);
    ResetIdentifies(cols, row);
    assert ValuesAt(row, [0, 1], 0) == row;
  }

  /** With the index reset, a row with one value per column is always
      identified: by its primary-key columns, or else by every column not
      typed "BLOB", each with its own value. */
  lemma ResetIdentifies(cols: seq<ColumnInfo>, row: seq<Value>)
    requires |row| == |cols|
    ensures RowIdentifierReset(cols, row).Ok?
    ensures var rule := if |Positions(cols, PrimaryKey)| > 0 then PrimaryKey else NotBlob;
      var ps := Positions(cols, rule);
      RowIdentifierReset(cols, row).value.keyValues == ValuesAt(row, ps, 0) &&
      (forall j :: 0 <= j < |ps| ==> Keeps(rule, cols[ps[j]]) && RowIdentifierReset(cols, row).value.keyValues[j] == row[ps[j]]) &&
      (forall p :: 0 <= p < |cols| && Keeps(rule, cols[p]) ==> p in ps)
  {
  }

  /** The `?` markers are not placeholders: binding key values into the
      condition the way MySQLdb binds arguments fails. */
  lemma QmarkConditionBindsNoValue(keyNames: seq<string>, lits: seq<string>)
    requires AllNoPercent(keyNames)
    ensures Holes(QmarkCondition(keyNames)) == Some(0)
    ensures Interpolate(QmarkCondition(keyNames), lits).Ok? <==> |lits| == 0
  {
    var parts := seq(|keyNames|, i requires 0 <= i < |keyNames| => keyNames[i] + " = ?");
    forall i | 0 <= i < |parts| ensures NoPercent(parts[i]) {
      assert NoPercent(keyNames[i]);
    }
    JoinNoPercent(parts, " and ");
    var c := QmarkCondition(keyNames);
    PlainText(c, "", lits);
    assert c + "" == c;
    BindsIffArity(c, lits);
  }
}
