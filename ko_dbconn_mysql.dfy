/** The explorer-tree side of `components/koDBConnMySQL.py`: the bulk
    delete policy of a table connector, the ordering of tree children, and
    the URIs and title of the tree nodes.  The tree views and the database
    calls behind them are given as functions. */
module KoDbConnMySql {

  import opened PyBase
  import opened PyText

  // ---- deleteRows

  const NoKeysMessage := "No attributes are keys, can't delete"

  /** The positions below `n` whose primary-key cell reads "1", in order. */
  function KeyPositions(keyCell: nat -> string, n: nat): (ps: seq<nat>)
    ensures forall j :: 0 <= j < |ps| ==> ps[j] < n && keyCell(ps[j]) == "1"
    ensures forall j, k :: 0 <= j < k < |ps| ==> ps[j] < ps[k]
    ensures forall p :: 0 <= p < n && keyCell(p) == "1" ==> p in ps
  {
    if n == 0 then []
    else
      var init := KeyPositions(keyCell, n - 1);
      if keyCell(n - 1) == "1" then init + [n - 1] else init
  }

  /** The entries of `xs` at the positions `ps`, in that order. */
  function Pick(xs: seq<string>, ps: seq<nat>): seq<string>
    requires forall j :: 0 <= j < |ps| ==> ps[j] < |xs|
  {
    seq(|ps|, j requires 0 <= j < |ps| => xs[ps[j]])
  }

  lemma PickSnoc(xs: seq<string>, ps: seq<nat>, i: nat)
    requires forall j :: 0 <= j < |ps| ==> ps[j] < |xs|
    requires i < |xs|
    ensures Pick(xs, ps + [i]) == Pick(xs, ps) + [xs[i]]
  {
  }

  /** `query_names`: the names of the columns flagged as primary keys. */
  function QueryNames(columnNames: seq<string>, keyCell: nat -> string): seq<string>
  {
    Pick(columnNames, KeyPositions(keyCell, |columnNames|))
  }

  /** `query_values` for one row: its cells under the key columns. */
  function RowValues(queryNames: seq<string>, dataCell: (nat, string) -> string, rowNum: nat): seq<string>
  {
    seq(|queryNames|, j requires 0 <= j < |queryNames| => dataCell(rowNum, queryNames[j]))
  }

  /** The message for a row that could not be deleted. */
  function FailureMessage(queryNames: seq<string>, values: seq<string>): (m: string)
    ensures m != ""
  {
    "Failed to delete keys:" + Join(queryNames, ", ") + ", values:" + Join(values, ", ")
  }

  /** The key values passed to `deleteRowByKey`, one list per call, and
      what `deleteRows` returned or raised. */
  datatype DeleteRun = DeleteRun(calls: seq<seq<string>>, result: Result<string>)

  /** The delete loop over `rowNums`, with `finalRes` the message so far. */
  function DeleteFrom(queryNames: seq<string>, dataCell: (nat, string) -> string, rowNums: seq<nat>,
                      deleteByKey: seq<string> -> Result<bool>, finalRes: string): DeleteRun
    decreases |rowNums|
  {
    if |rowNums| == 0 then DeleteRun([], Ok(finalRes))
    else
      var values := RowValues(queryNames, dataCell, rowNums[0]);
      match deleteByKey(values)
      case Err(e) => DeleteRun([values], Err(e))
      case Ok(deleted) =>
        var next := if !deleted && finalRes == "" then FailureMessage(queryNames, values) else finalRes;
        var rest := DeleteFrom(queryNames, dataCell, rowNums[1..], deleteByKey, next);
        DeleteRun([values] + rest.calls, rest.result)
  }

  /** When no call raises, every row is tried in order; the result is the
      message already held, else "" when every row went, else the message
      for the first row that did not go, whatever happened after it. */
  lemma {:induction false} DeleteFromReports(queryNames: seq<string>, dataCell: (nat, string) -> string,
                                             rowNums: seq<nat>, deleteByKey: seq<string> -> Result<bool>,
                                             finalRes: string)
    requires forall k :: 0 <= k < |rowNums| ==> deleteByKey(RowValues(queryNames, dataCell, rowNums[k])).Ok?
    ensures var run := DeleteFrom(queryNames, dataCell, rowNums, deleteByKey, finalRes);
      |run.calls| == |rowNums| &&
      (forall k :: 0 <= k < |rowNums| ==> run.calls[k] == RowValues(queryNames, dataCell, rowNums[k])) &&
      run.result.Ok? &&
      (finalRes != "" ==> run.result.value == finalRes) &&
      (finalRes == "" && (forall k :: 0 <= k < |rowNums| ==> deleteByKey(run.calls[k]) == Ok(true)) ==>
         run.result.value == "") &&
      (forall k ::
         (finalRes == "" && 0 <= k < |rowNums| && deleteByKey(run.calls[k]) == Ok(false) &&
          forall j :: 0 <= j < k ==> deleteByKey(run.calls[j]) == Ok(true))
         ==> run.result.value == FailureMessage(queryNames, run.calls[k]))
    decreases |rowNums|
  {
    if |rowNums| > 0 {
      var values := RowValues(queryNames, dataCell, rowNums[0]);
      var deleted := deleteByKey(values).value;
      var next := if !deleted && finalRes == "" then FailureMessage(queryNames, values) else finalRes;
      var tail := rowNums[1..];
      forall k | 0 <= k < |tail|
        ensures deleteByKey(RowValues(queryNames, dataCell, tail[k])).Ok?
      {
        assert tail[k] == rowNums[k + 1];
      }
      DeleteFromReports(queryNames, dataCell, tail, deleteByKey, next);
      var run := DeleteFrom(queryNames, dataCell, rowNums, deleteByKey, finalRes);
      var rest := DeleteFrom(queryNames, dataCell, tail, deleteByKey, next);
      assert run.calls == [values] + rest.calls;
      forall k | 0 <= k < |rowNums|
        ensures run.calls[k] == RowValues(queryNames, dataCell, rowNums[k])
      {
        if k > 0 {
          assert run.calls[k] == rest.calls[k - 1] && tail[k - 1] == rowNums[k];
        }
      }
      forall k | finalRes == "" && 0 <= k < |rowNums| && deleteByKey(run.calls[k]) == Ok(false) &&
          (forall j :: 0 <= j < k ==> deleteByKey(run.calls[j]) == Ok(true))
        ensures run.result.value == FailureMessage(queryNames, run.calls[k])
      {
        if k > 0 {
          assert deleteByKey(run.calls[0]) == Ok(true);
          assert next == "";
          assert run.calls[k] == rest.calls[k - 1];
          assert forall j :: 0 <= j < k - 1 ==> rest.calls[j] == run.calls[j + 1];
        }
      }
      if finalRes == "" && (forall k :: 0 <= k < |rowNums| ==> deleteByKey(run.calls[k]) == Ok(true)) {
        assert deleteByKey(run.calls[0]) == Ok(true);
        assert forall k :: 0 <= k < |tail| ==> rest.calls[k] == run.calls[k + 1];
      }
    }
  }

  /** A call that raises ends the loop: the rows before it were tried, in
      order, and the exception passes through. */
  lemma {:induction false} DeleteFromStops(queryNames: seq<string>, dataCell: (nat, string) -> string,
                                           rowNums: seq<nat>, deleteByKey: seq<string> -> Result<bool>,
                                           finalRes: string, k: nat)
    requires k < |rowNums| && deleteByKey(RowValues(queryNames, dataCell, rowNums[k])).Err?
    requires forall j :: 0 <= j < k ==> deleteByKey(RowValues(queryNames, dataCell, rowNums[j])).Ok?
    ensures var run := DeleteFrom(queryNames, dataCell, rowNums, deleteByKey, finalRes);
      |run.calls| == k + 1 &&
      (forall j :: 0 <= j <= k ==> run.calls[j] == RowValues(queryNames, dataCell, rowNums[j])) &&
      run.result == Err(deleteByKey(RowValues(queryNames, dataCell, rowNums[k])).error)
    decreases k
  {
    if k > 0 {
      var values := RowValues(queryNames, dataCell, rowNums[0]);
      assert deleteByKey(values).Ok?;
      var deleted := deleteByKey(values).value;
      var next := if !deleted && finalRes == "" then FailureMessage(queryNames, values) else finalRes;
      var tail := rowNums[1..];
      forall j | 0 <= j < k - 1
        ensures deleteByKey(RowValues(queryNames, dataCell, tail[j])).Ok?
      {
        assert tail[j] == rowNums[j + 1];
      }
      assert tail[k - 1] == rowNums[k];
      DeleteFromStops(queryNames, dataCell, tail, deleteByKey, next, k - 1);
      var run := DeleteFrom(queryNames, dataCell, rowNums, deleteByKey, finalRes);
      var rest := DeleteFrom(queryNames, dataCell, tail, deleteByKey, next);
      assert run.calls == [values] + rest.calls;
      forall j | 0 <= j <= k
        ensures run.calls[j] == RowValues(queryNames, dataCell, rowNums[j])
      {
        if j > 0 {
          assert run.calls[j] == rest.calls[j - 1] && tail[j - 1] == rowNums[j];
        }
      }
    }
  }

  lemma DeleteFromStep(queryNames: seq<string>, dataCell: (nat, string) -> string, rowNums: seq<nat>,
                       deleteByKey: seq<string> -> Result<bool>, finalRes: string, i: nat)
    requires i < |rowNums|
    ensures var values := RowValues(queryNames, dataCell, rowNums[i]);
      DeleteFrom(queryNames, dataCell, rowNums[i..], deleteByKey, finalRes) ==
        match deleteByKey(values)
        case Err(e) => DeleteRun([values], Err(e))
        case Ok(deleted) =>
          var next := if !deleted && finalRes == "" then FailureMessage(queryNames, values) else finalRes;
          var rest := DeleteFrom(queryNames, dataCell, rowNums[i + 1..], deleteByKey, next);
          DeleteRun([values] + rest.calls, rest.result)
  {
    assert rowNums[i..][0] == rowNums[i] && rowNums[i..][1..] == rowNums[i + 1..];
  }

  /** `calls` in front of the calls of `run`. */
  function After(calls: seq<seq<string>>, run: DeleteRun): DeleteRun
  {
    DeleteRun(calls + run.calls, run.result)
  }

  /** The first loop of `deleteRows`: the names of the flagged columns. */
  method SelectQueryNames(columnNames: seq<string>, keyCell: nat -> string) returns (queryNames: seq<string>)
    ensures queryNames == QueryNames(columnNames, keyCell)
  {
    queryNames := [];
    ghost var ps: seq<nat> := [];
    var i := 0;
    while i < |columnNames|
      invariant 0 <= i <= |columnNames| && ps == KeyPositions(keyCell, i)
      invariant forall j :: 0 <= j < |ps| ==> ps[j] < i
      invariant queryNames == Pick(columnNames, ps)
    {
      if keyCell(i) == "1" {
        PickSnoc(columnNames, ps, i);
        queryNames := queryNames + [columnNames[i]];
        ps := ps + [i];
      }
      i := i + 1;
    }
  }

  /** The inner loop of `deleteRows`: one row's cells under the key columns. */
  method CollectRowValues(queryNames: seq<string>, dataCell: (nat, string) -> string, rowNum: nat)
    returns (queryValues: seq<string>)
    ensures queryValues == RowValues(queryNames, dataCell, rowNum)
  {
    queryValues := [];
    var j := 0;
    while j < |queryNames|
      invariant 0 <= j <= |queryNames| && |queryValues| == j
      invariant forall m :: 0 <= m < j ==> queryValues[m] == dataCell(rowNum, queryNames[m])
    {
      queryValues := queryValues + [dataCell(rowNum, queryNames[j])];
      j := j + 1;
    }
  }

  lemma AfterStep(calls: seq<seq<string>>, values: seq<string>, rest: DeleteRun)
    ensures After(calls, DeleteRun([values] + rest.calls, rest.result)) == After(calls + [values], rest)
  {
    assert calls + ([values] + rest.calls) == (calls + [values]) + rest.calls;
  }

  /** The delete loop of `deleteRows` over the selected rows, once key
      columns were found. */
  method DeleteEach(queryNames: seq<string>, dataCell: (nat, string) -> string,
                    rowNums: seq<nat>, deleteByKey: seq<string> -> Result<bool>)
    returns (calls: seq<seq<string>>, r: Result<string>)
    ensures DeleteRun(calls, r) == DeleteFrom(queryNames, dataCell, rowNums, deleteByKey, "")
  {
    ghost var want := DeleteFrom(queryNames, dataCell, rowNums, deleteByKey, "");
    var finalRes := "";
    calls := [];
    var n := 0;
    assert rowNums[0..] == rowNums;
    while n < |rowNums|
      invariant 0 <= n <= |rowNums|
      invariant want == After(calls, DeleteFrom(queryNames, dataCell, rowNums[n..], deleteByKey, finalRes))
    {
      ghost var prev := finalRes;
      var queryValues := CollectRowValues(queryNames, dataCell, rowNums[n]);
      DeleteFromStep(queryNames, dataCell, rowNums, deleteByKey, finalRes, n);
      var res := deleteByKey(queryValues);
      if res.Err? {
        calls := calls + [queryValues];
        return calls, Err(res.error);
      }
      if !(res.value || finalRes != "") {
        finalRes := FailureMessage(queryNames, queryValues);
      }
      ghost var rest := DeleteFrom(queryNames, dataCell, rowNums[n + 1..], deleteByKey, finalRes);
      assert DeleteFrom(queryNames, dataCell, rowNums[n..], deleteByKey, prev) == DeleteRun([queryValues] + rest.calls, rest.result);
      AfterStep(calls, queryValues, rest);
      calls := calls + [queryValues];
      n := n + 1;
      assert want == After(calls, DeleteFrom(queryNames, dataCell, rowNums[n..], deleteByKey, finalRes));
    }
    assert calls + [] == calls;
    r := Ok(finalRes);
  }

  /** `KoMySQLDBXTableConnection.deleteRows`.  `keyCell(i)` is the schema
      view's `is_primary_key` cell of column i, `dataCell(r, name)` the data
      view's cell of row r under that column, and `deleteByKey(values)` the
      outcome of `Database.deleteRowByKey` on the table with the key names. */
  method DeleteRows(columnNames: seq<string>, keyCell: nat -> string, dataCell: (nat, string) -> string,
                    rowNums: seq<nat>, deleteByKey: seq<string> -> Result<bool>)
    returns (calls: seq<seq<string>>, r: Result<string>)
    ensures var queryNames := QueryNames(columnNames, keyCell);
      (queryNames == [] ==> calls == [] && r == Err(DbxError(NoKeysMessage))) &&
      (queryNames != [] ==> DeleteRun(calls, r) == DeleteFrom(queryNames, dataCell, rowNums, deleteByKey, ""))
  {
    var queryNames := SelectQueryNames(columnNames, keyCell);
    if queryNames == [] {
      return [], Err(DbxError(NoKeysMessage));
    }
    calls, r := DeleteEach(queryNames, dataCell, rowNums, deleteByKey);
  }

  // ---- getChildren

  /** A tree child: a name, a kind and the node made for it (identified by
      its name); the error entry of a table's children is a pair. */
  datatype Child = Child(name: string, kind: string, node: Option<string>) | Pair(name: string, kind: string)

  /** The three levels whose children are listed. */
  datatype Level = ConnectionLevel | DatabaseLevel | TableLevel

  function ChildKind(level: Level): string
  {
    match level
    case ConnectionLevel => "database"
    case DatabaseLevel => "table"
    case TableLevel => "column"
  }

  /** The names the database listing returned, or the `str` of what it raised. */
  datatype Listing = Listed(names: seq<string>) | Raised(text: string)

  function SortKey(c: Child): string
  {
    Lower(c.name)
  }

  predicate SortedByKey(xs: seq<Child>)
  {
    forall i, j :: 0 <= i < j < |xs| ==> LexLe(SortKey(xs[i]), SortKey(xs[j]))
  }

  /** `x` placed before the first child whose key is not below its own. */
  function InsertChild(x: Child, xs: seq<Child>): (r: seq<Child>)
    requires SortedByKey(xs)
    ensures SortedByKey(r) && multiset(r) == multiset(xs) + multiset{x}
  {
    if |xs| == 0 then [x]
    else if LexLe(SortKey(x), SortKey(xs[0])) then
      assert forall j :: 0 < j < |xs| ==> LexLe(SortKey(xs[0]), SortKey(xs[j]));
      InsertAtFront(x, xs);
      [x] + xs
    else
      var rest := InsertChild(x, xs[1..]);
      InsertBehind(x, xs, rest);
      [xs[0]] + rest
  }

  lemma InsertBehind(x: Child, xs: seq<Child>, rest: seq<Child>)
    requires SortedByKey(xs) && |xs| > 0 && !LexLe(SortKey(x), SortKey(xs[0]))
    requires SortedByKey(rest) && multiset(rest) == multiset(xs[1..]) + multiset{x}
    ensures SortedByKey([xs[0]] + rest) && multiset([xs[0]] + rest) == multiset(xs) + multiset{x}
  {
    LexLeTotal(SortKey(x), SortKey(xs[0]));
    assert xs == [xs[0]] + xs[1..];
    forall y | y in rest ensures LexLe(SortKey(xs[0]), SortKey(y)) {
      assert y in multiset(rest);
      if y != x {
        assert y in multiset(xs[1..]);
        var j :| 0 <= j < |xs[1..]| && xs[1..][j] == y;
        assert xs[j + 1] == y;
      }
    }
    var r := [xs[0]] + rest;
    forall i, j | 0 <= i < j < |r| ensures LexLe(SortKey(r[i]), SortKey(r[j])) {
      assert r[j] == rest[j - 1];
      if i > 0 {
        assert r[i] == rest[i - 1];
      } else {
        assert rest[j - 1] in rest;
      }
    }
  }

  lemma InsertAtFront(x: Child, xs: seq<Child>)
    requires SortedByKey(xs) && |xs| > 0 && LexLe(SortKey(x), SortKey(xs[0]))
    ensures SortedByKey([x] + xs)
  {
    forall j | 0 < j < |xs| ensures LexLe(SortKey(x), SortKey(xs[j])) {
      LexLeTransitive(SortKey(x), SortKey(xs[0]), SortKey(xs[j]));
    }
    forall i, j | 0 <= i < j < |xs| + 1 ensures LexLe(SortKey(([x] + xs)[i]), SortKey(([x] + xs)[j])) {
      if i > 0 {
        assert ([x] + xs)[i] == xs[i - 1] && ([x] + xs)[j] == xs[j - 1];
      }
    }
  }

  /** `sorted(children, key=lambda item: item[0].lower())`. */
  function SortChildren(xs: seq<Child>): (r: seq<Child>)
    ensures SortedByKey(r) && multiset(r) == multiset(xs)
  {
    if |xs| == 0 then []
    else
      assert xs == [xs[0]] + xs[1..];
      InsertChild(xs[0], SortChildren(xs[1..]))
  }

  /** `getChildren` of the connection, database and table nodes. */
  function GetChildren(level: Level, listing: Listing): seq<Child>
  {
    match listing
    case Raised(text) =>
      if level == TableLevel then [Pair("Error: " + text, "error")]
      else [Child("Error: " + text, "error", None)]
    case Listed(names) =>
      SortChildren(seq(|names|, i requires 0 <= i < |names| => Child(names[i], ChildKind(level), Some(names[i]))))
  }

  /** Listed names come back ordered by their lower-cased text, each name
      once per listing, with the level's kind and a node of its own. */
  lemma ListedChildren(level: Level, names: seq<string>)
    ensures var r := GetChildren(level, Listed(names));
      SortedByKey(r) && |r| == |names| &&
      (forall c :: c in r ==> c.Child? && c.kind == ChildKind(level) && c.node == Some(c.name)) &&
      multiset(Names(r)) == multiset(names)
  {
    var xs := seq(|names|, i requires 0 <= i < |names| => Child(names[i], ChildKind(level), Some(names[i])));
    var r := SortChildren(xs);
    assert |r| == |multiset(r)| == |multiset(xs)| == |xs|;
    forall c | c in r ensures c.Child? && c.kind == ChildKind(level) && c.node == Some(c.name) {
      assert c in multiset(xs);
    }
    NamesOfPermutation(r, xs);
    assert Names(xs) == names;
  }

  /** The names of a list of children, in order. */
  function Names(ys: seq<Child>): (ns: seq<string>)
    ensures |ns| == |ys| && forall i :: 0 <= i < |ys| ==> ns[i] == ys[i].name
  {
    seq(|ys|, i requires 0 <= i < |ys| => ys[i].name)
  }

  lemma NamesConcat(a: seq<Child>, b: seq<Child>)
    ensures Names(a + b) == Names(a) + Names(b)
  {
  }

  lemma MultisetMiddle<T>(a: seq<T>, y: T, b: seq<T>, c: seq<T>)
    requires multiset(c) == multiset(a + b)
    ensures multiset([y] + c) == multiset(a + [y] + b)
  {
  }

  /** Taking the same element out of two permutations of each other leaves
      permutations of each other. */
  lemma RemoveMatching<T>(r: seq<T>, xs: seq<T>) returns (k: int)
    requires multiset(r) == multiset(xs) && |r| > 0
    ensures 0 <= k < |xs| && xs[k] == r[0]
    ensures multiset(r[1..]) == multiset(xs[..k] + xs[k + 1..])
  {
    assert r[0] in multiset(xs);
    k :| 0 <= k < |xs| && xs[k] == r[0];
    assert xs == xs[..k] + [r[0]] + xs[k + 1..];
    assert r == [r[0]] + r[1..];
    assert multiset(r[1..]) == multiset(r) - multiset{r[0]};
    assert multiset(xs[..k] + xs[k + 1..]) == multiset(xs) - multiset{r[0]};
  }

  /** Taking the names of a list splits along the element at k. */
  lemma NamesAround(xs: seq<Child>, k: int)
    requires 0 <= k < |xs|
    ensures Names(xs) == Names(xs[..k]) + [xs[k].name] + Names(xs[k + 1..])
    ensures Names(xs[..k] + xs[k + 1..]) == Names(xs[..k]) + Names(xs[k + 1..])
  {
    assert xs == xs[..k] + [xs[k]] + xs[k + 1..];
    NamesConcat(xs[..k] + [xs[k]], xs[k + 1..]);
    NamesConcat(xs[..k], [xs[k]]);
    NamesConcat(xs[..k], xs[k + 1..]);
  }

  /** Putting the matched element back on both sides keeps the names
      permutations of each other. */
  lemma NamesPutBack(r: seq<Child>, xs: seq<Child>, k: int)
    requires |r| > 0 && 0 <= k < |xs| && xs[k] == r[0]
    requires multiset(Names(r[1..])) == multiset(Names(xs[..k] + xs[k + 1..]))
    ensures multiset(Names(r)) == multiset(Names(xs))
  {
    var a, b, c := Names(xs[..k]), Names(xs[k + 1..]), Names(r[1..]);
    NamesAround(xs, k);
    NamesHead(r);
    MultisetMiddle(a, r[0].name, b, c);
  }

  lemma NamesHead(r: seq<Child>)
    requires |r| > 0
    ensures Names(r) == [r[0].name] + Names(r[1..])
  {
    assert r == [r[0]] + r[1..];
    NamesConcat([r[0]], r[1..]);
  }

  lemma {:induction false} NamesOfPermutation(r: seq<Child>, xs: seq<Child>)
    requires multiset(r) == multiset(xs)
    ensures multiset(Names(r)) == multiset(Names(xs))
    decreases |r|
  {
    if |r| > 0 {
      var k := RemoveMatching(r, xs);
      NamesOfPermutation(r[1..], xs[..k] + xs[k + 1..]);
      NamesPutBack(r, xs, k);
    }
  }

  /** A failed listing gives one error entry carrying the exception's text;
      at the table level it is a name and kind pair without a node. */
  lemma RaisedChildren(level: Level, text: string)
    ensures var r := GetChildren(level, Raised(text));
      |r| == 1 && r[0].name == "Error: " + text && r[0].kind == "error" &&
      (level == TableLevel <==> r[0].Pair?) && (r[0].Child? ==> r[0].node == None)
  {
  }

  // ---- URIs and the title

  /** The URI of a connection from its host, port text and user name. */
  function ConnectionURI(host: string, port: string, username: string): string
  {
    "dbexplorer://" + host + (if port != "" then ":" + port else "") + "/" + username
  }

  /** `KoMySQL_DBXDatabase.getURI`. */
  function DatabaseURI(connectionURI: string, dbname: string): string
  {
    connectionURI + "/" + dbname
  }

  /** `KoMySQL_DBXTable.getURI`. */
  function TableURI(databaseURI: string, tableName: string): string
  {
    databaseURI + "/" + tableName
  }

  /** A table's URI spells out the whole path from its connection. */
  lemma TableURIPath(host: string, port: string, username: string, dbname: string, tableName: string)
    ensures var u := TableURI(DatabaseURI(ConnectionURI(host, port, username), dbname), tableName);
      StartsWith(u, "dbexplorer://" + host) &&
      u == "dbexplorer://" + host + (if port != "" then ":" + port else "") + "/" + username + "/" + dbname + "/" + tableName
  {
    var u := TableURI(DatabaseURI(ConnectionURI(host, port, username), dbname), tableName);
    var p := "dbexplorer://" + host;
    assert u == p + ((if port != "" then ":" + port else "") + "/" + username + "/" + dbname + "/" + tableName);
    assert u[..|p|] == p;
  }

  /** `KoMySQL_DBXTable.get_tableViewTitle`. */
  function TableViewTitle(dbname: string, tableName: string): (t: string)
    ensures StartsWith(t, "MySQL://")
  {
    var t := "MySQL" + "://" + dbname + "/" + tableName + " - Database Explorer";
    assert t == "MySQL://" + (dbname + "/" + tableName + " - Database Explorer");
    t
  }

  /** `KoMySQLDBXConnection`, with the `_URI` it computes on first use. */
  class ConnectionNode {
    var uri: Option<string>

    constructor ()
      ensures uri == None
    {
      uri := None;
    }

    /** `KoMySQLDBXConnection.getURI`, given the connection's parameters. */
    method GetURI(host: string, port: string, username: string) returns (u: string)
      modifies this
      ensures old(uri).Some? ==> u == old(uri).value && uri == old(uri)
      ensures old(uri).None? ==> u == ConnectionURI(host, port, username) && uri == Some(u)
    {
      if uri.None? {
        uri := Some(ConnectionURI(host, port, username));
      }
      u := uri.value;
    }
  }
}
