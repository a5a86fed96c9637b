/** The per-table column cache of `Database` in `pylib/dbx_mysqldb.py`
    (`_save_table_info`) and the raw row fetch that uses it (`getRawRow`).
    The driver is the `Backend` of `DbxStatements`; the rows the two
    information-schema queries and the select return are inputs. */
module DbxDatabase {

  import opened PyBase
  import opened PyText
  import opened DbxConnection
  import opened DbxColumns
  import opened DbxConvert
  import opened DbxStatements

  /** The query for the names of the primary-key columns of a table. */
  function IndexQuery(dbname: Option<string>, tableName: string): string
  {
    "select column_name from information_schema.columns where table_name='" + tableName
    + "' and table_schema = '" + DbNameText(dbname) + "'  and column_key='PRI'"
  }

  /** The query for the column descriptions of a table, in ordinal order. */
  function MainQuery(dbname: Option<string>, tableName: string): string
  {
    "select column_name, data_type, is_nullable,  column_default, character_maximum_length "
    + "from information_schema.columns where table_name='" + tableName
    + "' and table_schema = '" + DbNameText(dbname) + "' ORDER BY ordinal_position"
  }

  /** `ColumnInfo(*lrow)` for one main-query row extended with its
      `indexed_columns.get(name, False)` flag. */
  function MergeRow(indexed: set<string>, m: ColumnRow): ColumnInfo
  {
    NewColumnInfo(m.name, m.dataType, m.nullable, m.default, m.maxLength, Bool(m.name in indexed))
  }

  /** The column list `_save_table_info` builds from the two query results. */
  function MergeColumns(indexRows: seq<string>, mainRows: seq<ColumnRow>): seq<ColumnInfo>
  {
    seq(|mainRows|, i requires 0 <= i < |mainRows| => MergeRow((set n | n in indexRows), mainRows[i]))
  }

  /** The `indexed_columns` table `_save_table_info` fills from the index
      query's rows. */
  method IndexedNames(indexRows: seq<string>) returns (indexed: set<string>)
    ensures forall n :: n in indexed <==> n in indexRows
  {
    indexed := {};
    var i := 0;
    while i < |indexRows|
      invariant 0 <= i <= |indexRows|
      invariant forall n :: n in indexed <==> n in indexRows[..i]
    {
      assert indexRows[..i + 1] == indexRows[..i] + [indexRows[i]];
      indexed := indexed + {indexRows[i]};
      i := i + 1;
    }
    assert indexRows[..|indexRows|] == indexRows;
  }

  /** The loop of `_save_table_info` over the main query's rows: one column
      description per row, in order. */
  method MergeRows(indexed: set<string>, mainRows: seq<ColumnRow>) returns (cols: seq<ColumnInfo>)
    ensures |cols| == |mainRows| && forall k :: 0 <= k < |mainRows| ==> cols[k] == MergeRow(indexed, mainRows[k])
  {
    cols := [];
    var j := 0;
    while j < |mainRows|
      invariant 0 <= j <= |mainRows|
      invariant |cols| == j && forall k :: 0 <= k < j ==> cols[k] == MergeRow(indexed, mainRows[k])
    {
      var m := mainRows[j];
      cols := cols + [NewColumnInfo(m.name, m.dataType, m.nullable, m.default, m.maxLength, Bool(m.name in indexed))];
      j := j + 1;
    }
  }

  /** The queries `_save_table_info` sent, what it returned or raised, and
      the cache afterwards. */
  datatype TableInfoStep = TableInfoStep(issued: seq<string>, result: Result<seq<ColumnInfo>>,
                                         cache: map<string, seq<ColumnInfo>>)

  /** `Database._save_table_info` as a function of the cache before the call. */
  function TableInfo(cache: map<string, seq<ColumnInfo>>, dbname: Option<string>, b: Backend,
                     tableName: string, indexRows: seq<string>, mainRows: seq<ColumnRow>): TableInfoStep
  {
    if ';' in tableName then TableInfoStep([], Err(Exception("Unsafe table_name: " + tableName)), cache)
    else if tableName in cache then TableInfoStep([], Ok(cache[tableName]), cache)
    else if !b.connects then TableInfoStep([], Err(CannotConnect), cache)
    else
      var iq, mq := IndexQuery(dbname, tableName), MainQuery(dbname, tableName);
      if !b.accepts(iq) then TableInfoStep([iq], Err(Rejected), cache)
      else if !b.accepts(mq) then TableInfoStep([iq, mq], Err(Rejected), cache)
      else
        var cols := MergeColumns(indexRows, mainRows);
        TableInfoStep([iq, mq], Ok(cols), cache[tableName := cols])
  }

  /** A table name with `;` is refused before the cache or the server is
      consulted. */
  lemma UnsafeTableName(cache: map<string, seq<ColumnInfo>>, dbname: Option<string>, b: Backend,
                        tableName: string, indexRows: seq<string>, mainRows: seq<ColumnRow>)
    requires ';' in tableName
    ensures var s := TableInfo(cache, dbname, b, tableName, indexRows, mainRows);
      s.issued == [] && s.cache == cache && s.result.Err? && s.result.error.Exception? &&
      StartsWith(s.result.error.message, "Unsafe table_name: ")
  {
    var m := "Unsafe table_name: " + tableName;
    assert m[..|"Unsafe table_name: "|] == "Unsafe table_name: ";
  }

  /** A cached table is answered from the cache, with no query. */
  lemma CacheHit(cache: map<string, seq<ColumnInfo>>, dbname: Option<string>, b: Backend,
                 tableName: string, indexRows: seq<string>, mainRows: seq<ColumnRow>)
    requires ';' !in tableName && tableName in cache
    ensures TableInfo(cache, dbname, b, tableName, indexRows, mainRows) == TableInfoStep([], Ok(cache[tableName]), cache)
  {
  }

  /** On a miss both queries are sent, one column description is built per
      main-query row, in that order, primary exactly when its name came back
      from the index query; only the table's own cache entry changes. */
  lemma CacheMiss(cache: map<string, seq<ColumnInfo>>, dbname: Option<string>, b: Backend,
                  tableName: string, indexRows: seq<string>, mainRows: seq<ColumnRow>)
    requires ';' !in tableName && tableName !in cache && b.connects
    requires b.accepts(IndexQuery(dbname, tableName)) && b.accepts(MainQuery(dbname, tableName))
    ensures var s := TableInfo(cache, dbname, b, tableName, indexRows, mainRows);
      s.issued == [IndexQuery(dbname, tableName), MainQuery(dbname, tableName)] &&
      s.result.Ok? && s.cache == cache[tableName := s.result.value] &&
      (forall t :: t in cache ==> t in s.cache && s.cache[t] == cache[t]) &&
      |s.result.value| == |mainRows| &&
      forall i :: 0 <= i < |mainRows| ==>
        var c, m := s.result.value[i], mainRows[i];
        c.name == m.name && c.dataType == m.dataType && c.nullable == m.nullable &&
        c.default == m.default && c.maxLength == m.maxLength &&
        (c.hasDefaultValue <==> m.default != Null) && (c.isPrimaryKey <==> m.name in indexRows)
  {
  }

  /** Asking again after an answer returns the same columns, sends nothing
      and leaves the cache as it was, whatever the server would now say. */
  lemma TableInfoIdempotent(cache: map<string, seq<ColumnInfo>>, dbname: Option<string>, b: Backend,
                            tableName: string, indexRows: seq<string>, mainRows: seq<ColumnRow>,
                            b2: Backend, indexRows2: seq<string>, mainRows2: seq<ColumnRow>)
    requires TableInfo(cache, dbname, b, tableName, indexRows, mainRows).result.Ok?
    ensures var s := TableInfo(cache, dbname, b, tableName, indexRows, mainRows);
      TableInfo(s.cache, dbname, b2, tableName, indexRows2, mainRows2) == TableInfoStep([], s.result, s.cache)
  {
    var s := TableInfo(cache, dbname, b, tableName, indexRows, mainRows);
    TableInfoCaches(cache, dbname, b, tableName, indexRows, mainRows);
    CacheHit(s.cache, dbname, b2, tableName, indexRows2, mainRows2);
  }

  /** An answer is always left in the cache under the table's name. */
  lemma TableInfoCaches(cache: map<string, seq<ColumnInfo>>, dbname: Option<string>, b: Backend,
                        tableName: string, indexRows: seq<string>, mainRows: seq<ColumnRow>)
    requires TableInfo(cache, dbname, b, tableName, indexRows, mainRows).result.Ok?
    ensures var s := TableInfo(cache, dbname, b, tableName, indexRows, mainRows);
      ';' !in tableName && tableName in s.cache && s.cache[tableName] == s.result.value
  {
    var s := TableInfo(cache, dbname, b, tableName, indexRows, mainRows);
    if tableName !in cache {
      var iq, mq := IndexQuery(dbname, tableName), MainQuery(dbname, tableName);
      assert b.connects && b.accepts(iq) && b.accepts(mq);
      assert s.cache == cache[tableName := MergeColumns(indexRows, mainRows)];
    }
  }

  /** What `getRawRow` makes of one fetched item at position `idx`. */
  function RawItem(cols: seq<ColumnInfo>, convertBlobs: bool, idx: nat, item: Value, fmt: Formatter): Result<string>
  {
    if item == Null then Ok("")
    else if convertBlobs && idx >= |cols| then Err(IndexError)
    else if convertBlobs && ColumnTypeIsBlob(cols[idx].dataType) then
      (match item
       case Str(s) => Ok(BlobMarker(|s|))
       case _ => Err(TypeError("object has no len()")))
    else Ok(fmt.StrOf(item))
  }

  /** The items of `row` from position `i` on. */
  function RawItemsFrom(cols: seq<ColumnInfo>, row: seq<Value>, i: nat, convertBlobs: bool, fmt: Formatter)
    : (r: Result<seq<string>>)
    requires i <= |row|
    ensures r.Ok? <==> forall k :: i <= k < |row| ==> RawItem(cols, convertBlobs, k, row[k], fmt).Ok?
    ensures r.Ok? ==> |r.value| == |row| - i
    ensures r.Ok? ==> forall k :: i <= k < |row| ==> Ok(r.value[k - i]) == RawItem(cols, convertBlobs, k, row[k], fmt)
    decreases |row| - i
  {
    if i == |row| then Ok([])
    else
      match RawItem(cols, convertBlobs, i, row[i], fmt)
      case Err(e) => Err(e)
      case Ok(x) => PrefixWith([x], RawItemsFrom(cols, row, i + 1, convertBlobs, fmt))
  }

  /** One step of `RawItemsFrom`. */
  lemma RawItemsStep(cols: seq<ColumnInfo>, row: seq<Value>, i: nat, convertBlobs: bool, fmt: Formatter)
    requires i < |row|
    ensures RawItemsFrom(cols, row, i, convertBlobs, fmt) ==
      (match RawItem(cols, convertBlobs, i, row[i], fmt)
       case Err(e) => Err(e)
       case Ok(x) => PrefixWith([x], RawItemsFrom(cols, row, i + 1, convertBlobs, fmt)))
  {
  }

  /** The loop of `getRawRow` over the fetched row: NULL becomes "", a BLOB
      column's string its length marker, anything else its `str`. */
  method RenderRawItems(cols: seq<ColumnInfo>, row: seq<Value>, convertBlobs: bool, fmt: Formatter)
    returns (r: Result<seq<string>>)
    ensures r == RawItemsFrom(cols, row, 0, convertBlobs, fmt)
  {
    var items: seq<string> := [];
    var idx := 0;
    PrefixWithEmpty(RawItemsFrom(cols, row, 0, convertBlobs, fmt));
    while idx < |row|
      invariant 0 <= idx <= |row|
      invariant RawItemsFrom(cols, row, 0, convertBlobs, fmt) == PrefixWith(items, RawItemsFrom(cols, row, idx, convertBlobs, fmt))
    {
      RawItemsStep(cols, row, idx, convertBlobs, fmt);
      var item := row[idx];
      var text: string;
      if item == Null {
        text := "";
      } else if convertBlobs && idx >= |cols| {
        return Err(IndexError);
      } else if convertBlobs && ColumnTypeIsBlob(cols[idx].dataType) {
        if !item.Str? {
          return Err(TypeError("object has no len()"));
        }
        text := BlobMarker(|item.s|);
      } else {
        text := fmt.StrOf(item);
      }
      assert RawItem(cols, convertBlobs, idx, item, fmt) == Ok(text);
      PrefixWithTwice(items, [text], RawItemsFrom(cols, row, idx + 1, convertBlobs, fmt));
      items := items + [text];
      idx := idx + 1;
    }
    assert items + [] == items;
    r := Ok(items);
  }

  const NotIterable := TypeError("'NoneType' object is not iterable")

  /** The count and the items of a fetched row (`None` when no row matched). */
  function RawItems(fetched: Option<seq<Value>>, cols: seq<ColumnInfo>, convertBlobs: bool, fmt: Formatter)
    : Result<(nat, seq<string>)>
  {
    match fetched
    case None => Err(NotIterable)
    case Some(row) =>
      match RawItemsFrom(cols, row, 0, convertBlobs, fmt)
      case Err(e) => Err(e)
      case Ok(items) => Ok((|items|, items))
  }

  /** The statements `getRawRow` sent, its result, and the cache afterwards. */
  datatype RawRowStep = RawRowStep(issued: seq<string>, result: Result<(nat, seq<string>)>,
                                   cache: map<string, seq<ColumnInfo>>)

  /** `Database.getRawRow` as a function of the cache before the call: the
      select is executed first; with blob conversion the column
      descriptions are then looked up; then the fetched row is rendered. */
  function RawRow(cache: map<string, seq<ColumnInfo>>, dbname: Option<string>, b: Backend,
                  tableName: string, keyNames: seq<string>, keyValues: seq<Value>, convertBlobs: bool,
                  fetched: Option<seq<Value>>, indexRows: seq<string>, mainRows: seq<ColumnRow>, fmt: Formatter)
    : RawRowStep
  {
    if !b.connects then RawRowStep([], Err(CannotConnect), cache)
    else
      var st := SelectRowStatement(dbname, tableName, keyNames, keyValues);
      match Execute(b, st)
      case Err(e) => RawRowStep(Sent(b, st), Err(e), cache)
      case Ok(_) =>
        if !convertBlobs then RawRowStep(Sent(b, st), RawItems(fetched, [], false, fmt), cache)
        else
          var info := TableInfo(cache, dbname, b, tableName, indexRows, mainRows);
          match info.result
          case Err(e) => RawRowStep(Sent(b, st) + info.issued, Err(e), info.cache)
          case Ok(cols) => RawRowStep(Sent(b, st) + info.issued, RawItems(fetched, cols, true, fmt), info.cache)
  }

  /** A successful fetch returns one item per fetched column with that
      count beside it; a NULL is "" and, without blob conversion, every
      other value is its `str`. */
  lemma RawRowShape(cache: map<string, seq<ColumnInfo>>, dbname: Option<string>, b: Backend,
                    tableName: string, keyNames: seq<string>, keyValues: seq<Value>, convertBlobs: bool,
                    fetched: Option<seq<Value>>, indexRows: seq<string>, mainRows: seq<ColumnRow>, fmt: Formatter)
    requires RawRow(cache, dbname, b, tableName, keyNames, keyValues, convertBlobs, fetched, indexRows, mainRows, fmt).result.Ok?
    ensures var r := RawRow(cache, dbname, b, tableName, keyNames, keyValues, convertBlobs, fetched, indexRows, mainRows, fmt);
      var (n, items) := r.result.value;
      fetched.Some? && n == |items| == |fetched.value| &&
      (forall k :: 0 <= k < n && fetched.value[k] == Null ==> items[k] == "") &&
      (!convertBlobs ==> forall k :: 0 <= k < n && fetched.value[k] != Null ==> items[k] == fmt.StrOf(fetched.value[k]))
  {
    var r := RawRow(cache, dbname, b, tableName, keyNames, keyValues, convertBlobs, fetched, indexRows, mainRows, fmt);
    var (n, items) := r.result.value;
    forall k | 0 <= k < n
      ensures fetched.value[k] == Null ==> items[k] == ""
      ensures !convertBlobs && fetched.value[k] != Null ==> items[k] == fmt.StrOf(fetched.value[k])
    {
      var cols := if convertBlobs then TableInfo(cache, dbname, b, tableName, indexRows, mainRows).result.value else [];
      assert Ok(items[k]) == RawItem(cols, convertBlobs, k, fetched.value[k], fmt);
    }
  }

  /** Without blob conversion only the select is sent, and it pairs key
      name i with the literal of key value i. */
  lemma RawRowSelect(cache: map<string, seq<ColumnInfo>>, dbname: Option<string>, b: Backend,
                     tableName: string, keyNames: seq<string>, keyValues: seq<Value>,
                     fetched: Option<seq<Value>>, indexRows: seq<string>, mainRows: seq<ColumnRow>, fmt: Formatter)
    requires b.connects && PlainNames(dbname, tableName, keyNames) && |keyValues| == |keyNames|
    ensures var r := RawRow(cache, dbname, b, tableName, keyNames, keyValues, false, fetched, indexRows, mainRows, fmt);
      r.issued == ["select * from " + QualifyTableName(dbname, tableName) + " where "
                   + BoundAssignments(keyNames, Literals(b, keyValues), " AND ")] &&
      r.cache == cache
  {
    SelectRowBinds(dbname, tableName, keyNames, keyValues, Literals(b, keyValues));
  }

  /** The `dbname` argument of `Database.__init__` as the value it stores:
      `None` when absent. */
  function DbNameValue(dbname: Option<string>): Value
  {
    if dbname.Some? then Str(dbname.value) else Null
  }

  /** `Database`: the optional database name, its `Connection` and the
      column cache `col_info_from_table_name`. */
  class Database {
    const dbname: Option<string>
    const connection: Connection
    var cache: map<string, seq<ColumnInfo>>

    constructor (dbname: Option<string>, connection: Connection)
      ensures this.dbname == dbname && this.connection == connection && cache == map[]
    {
      this.dbname := dbname;
      this.connection := connection;
      cache := map[];
    }

    /** `Database(args, dbname)`: building the `Connection` raises the
        KeyError of a missing `host` or `username` before any database
        exists; otherwise the database starts with an empty cache. */
    static method Open(dbname: Option<string>, args: map<string, Value>) returns (r: Result<Database>)
      ensures NewConnection(DbNameValue(dbname), args).Err? ==>
                r == Err(NewConnection(DbNameValue(dbname), args).error)
      ensures NewConnection(DbNameValue(dbname), args).Ok? ==>
                r.Ok? && fresh(r.value) && r.value.dbname == dbname && r.value.cache == map[] &&
                r.value.connection == NewConnection(DbNameValue(dbname), args).value
    {
      var c := NewConnection(DbNameValue(dbname), args);
      if c.Err? {
        return Err(c.error);
      }
      var db := new Database(dbname, c.value);
      r := Ok(db);
    }

    /** `Database._save_table_info`. */
    method SaveTableInfo(b: Backend, tableName: string, indexRows: seq<string>, mainRows: seq<ColumnRow>)
      returns (issued: seq<string>, r: Result<seq<ColumnInfo>>)
      modifies this
      ensures TableInfoStep(issued, r, cache) == TableInfo(old(cache), dbname, b, tableName, indexRows, mainRows)
    {
      issued := [];
      if ';' in tableName {
        return issued, Err(Exception("Unsafe table_name: " + tableName));
      }
      if tableName in cache {
        return issued, Ok(cache[tableName]);
      }
      if !b.connects {
        return issued, Err(CannotConnect);
      }
      var indexQuery := IndexQuery(dbname, tableName);
      var mainQuery := MainQuery(dbname, tableName);
      issued := [indexQuery];
      if !b.accepts(indexQuery) {
        return issued, Err(Rejected);
      }
      var indexed := IndexedNames(indexRows);
      assert indexed == (set n | n in indexRows);
      issued := issued + [mainQuery];
      if !b.accepts(mainQuery) {
        return issued, Err(Rejected);
      }
      var cols := MergeRows(indexed, mainRows);
      assert cols == MergeColumns(indexRows, mainRows);
      cache := cache[tableName := cols];
      r := Ok(cols);
    }

    /** `Database.getRawRow`. */
    method GetRawRow(b: Backend, tableName: string, keyNames: seq<string>, keyValues: seq<Value>,
                     convertBlobs: bool, fetched: Option<seq<Value>>,
                     indexRows: seq<string>, mainRows: seq<ColumnRow>, fmt: Formatter)
      returns (issued: seq<string>, r: Result<(nat, seq<string>)>)
      modifies this
      ensures RawRowStep(issued, r, cache)
           == RawRow(old(cache), dbname, b, tableName, keyNames, keyValues, convertBlobs, fetched, indexRows, mainRows, fmt)
    {
      if !b.connects {
        return [], Err(CannotConnect);
      }
      var st := SelectRowStatement(dbname, tableName, keyNames, keyValues);
      issued := Sent(b, st);
      var selected := Execute(b, st);
      if selected.Err? {
        return issued, Err(selected.error);
      }
      var cols: seq<ColumnInfo> := [];
      if convertBlobs {
        var more, info := SaveTableInfo(b, tableName, indexRows, mainRows);
        issued := issued + more;
        if info.Err? {
          return issued, Err(info.error);
        }
        cols := info.value;
      }
      if fetched.None? {
        return issued, Err(NotIterable);
      }
      var items := RenderRawItems(cols, fetched.value, convertBlobs, fmt);
      if items.Err? {
        return issued, Err(items.error);
      }
      r := Ok((|items.value|, items.value));
    }
  }
}
