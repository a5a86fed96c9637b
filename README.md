# MySQL Database Explorer backend, modelled in Dafny

Komodo's Database Explorer talks to MySQL through two Python files:

- `pylib/dbx_mysqldb.py`: the connection parameters, the per-table column cache, value
  stringification and the text of the `select`/`delete`/`insert`/`update` statements
  together with their arguments.
- `components/koDBConnMySQL.py`: the tree nodes (connection, database, table). They handle
  bulk deletion of selected rows, the sorted child listings and the URIs and titles.

This project models that bookkeeping and proves what it promises. Among the proved
properties:

- which keys reach the driver;
- how many `%s` placeholders a statement has, and which values bind to them in what order;
- that the column cache is idempotent;
- that the bulk-delete loop reports only the first failure;
- that child listings are sorted, case-insensitively, permutations of what the server listed.

The MySQLdb driver is not modelled. A `Backend` value stands in for it. It says whether a
connection can be made, how the driver quotes a value (`literal`), and which SQL texts the
server accepts. Fetched rows and the index-query result are plain inputs.

Python's `%` formatting is modelled in `PyFormat`. `Interpolate` replaces `%s` and `%%` and
fails with `TypeError("not enough arguments for format string")` or `TypeError("not all
arguments converted during string formatting")`. `Holes` counts the `%s` conversions. The
`str`, `repr` and `%g` renderings of a value are opaque functions inside a `Formatter`.

Modules:

| file | module | models |
|---|---|---|
| `py_base.dfy` | `PyBase` | Python values, truthiness, exceptions, `Result`/`Option` |
| `py_text.dfy` | `PyText` | `str.lower`, `join`, `startswith`, `in`, `int()`/`"%d"`, `replace("%", "%%")`, string order |
| `py_format.dfy` | `PyFormat` | the `%` operator as MySQLdb applies it to a statement and its arguments |
| `dbx_connection.dfy` | `DbxConnection` | `Connection` |
| `dbx_columns.dfy` | `DbxColumns` | `ColumnInfo`, `columnTypeIs*`, `_typeForMySQL` |
| `dbx_convert.dfy` | `DbxConvert` | `_convert` and the process-wide `_unrec_types` registry |
| `dbx_statements.dfy` | `DbxStatements` | `_qualifyTableName`, `_convertAndJoin`, `deleteRowByKey`, `insertRowByNamesAndValues`, `updateRow`, `executeCustomAction`, `runCustomQuery` |
| `dbx_row_identity.dfy` | `DbxRowIdentity` | `_getRowIdentifier` |
| `dbx_database.dfy` | `DbxDatabase` | `Database`: its column cache, `_save_table_info`, `getRawRow` |
| `ko_dbconn_mysql.dfy` | `KoDbConnMySql` | `deleteRows`, the three `getChildren`, the URIs and the table view title |

Behaviour that the model keeps exactly as the code has it:

- `columnTypeIsBlob` compares with upper-case `"BLOB"`. `_convert` lower-cases the type and
  tests `"blob"`. So `getRawRow` only marks columns typed exactly `BLOB`.
- `_convert`'s numeric buckets are the literal names `int` and `float`.
  `_int_type_names` and `_float_type_names` are not consulted.
- `_qualifyTableName` always takes its first branch, because `_dbname` is always set.
  Without a database name the qualified name is `None.<table>`.
- `_getRowIdentifier` writes `name = ?` conditions. Every other builder writes `name = %s`.
- `_getRowIdentifier` does not reset its index before the fallback loop (see Findings).
- `deleteRows` keeps calling `deleteRowByKey` after a failure. Only the first failure's
  message is returned.
- A table's error child is a 2-tuple. The connection and database error children are
  3-tuples whose node is `None`.

## Model

| member | source | states |
|---|---|---|
| DbxConnection.NewConnection | pylib/dbx_mysqldb.py:61-76 | a missing `host` raises KeyError('host'), then a missing `username` raises KeyError('username'); otherwise host/user come from the arguments, db is the database name, socket defaults to "" and port/password to None |
| DbxConnection.PyInt | pylib/dbx_mysqldb.py:89-90 | `int()` of an integer is that integer; `int(None)` and other objects raise |
| DbxConnection.PortTextRoundTrip | pylib/dbx_mysqldb.py:89-90 | a port given as decimal text is coerced back to the same integer |
| DbxConnection.GetConnectionParameters | pylib/dbx_mysqldb.py:78-94 | keys are only host/user/db/port/passwd/unix_socket; host, user, db and port are present exactly when truthy, with their own values; port is coerced to int, and a failed coercion is the call's error; passwd is present exactly when the password is not None; unix_socket exactly when the socket is non-empty |
| DbxConnection.DisplayValues | pylib/dbx_mysqldb.py:96-97 | when the user's text has no `@`, splitting the display text at its first `@` gives back the user's and the host's text |
| DbxColumns.NewColumnInfo | pylib/dbx_mysqldb.py:100-115 | the primary-key flag is set iff the given flag is truthy (which covers "True"); has_default_value iff the default is not None; the other fields are kept |
| DbxColumns.BlobTestMissesLowerCase | pylib/dbx_mysqldb.py:52-53 | no lower-case type name passes the BLOB test |
| DbxConvert.ClassifyExact | pylib/dbx_mysqldb.py:313-346 | a lower-cased type falls in the int bucket iff it is "int", float iff "float", text iff string/text/enum or containing "varchar" or starting with "char", date iff date/datetime/point, blob iff "blob", otherwise unrecognised |
| DbxConvert.ConvertValueByClass | pylib/dbx_mysqldb.py:315-346 | int: None gives "", an integer gives decimal text that reads back as itself, a value `%d` refuses gives its repr; float: fails iff the value is not a number; text passes through; date-like gives its str; blob gives the length marker, None counting as 0 characters; unrecognised gives its repr; only float and blob can raise, and only TypeError |
| DbxConvert.ConvertFrom | pylib/dbx_mysqldb.py:306-348 | succeeds iff there is a column for every value (else IndexError) and every value converts; then one item per value, item k being value k converted under column k's lower-cased type |
| DbxConvert.UnrecognisedFrom | pylib/dbx_mysqldb.py:341-345 | only type names in the unrecognised bucket are recorded |
| DbxConvert.UnrecognisedOfConvertedRow | pylib/dbx_mysqldb.py:341-345 | after a successful conversion the types recorded are exactly the unrecognised lower-cased types of the row's columns |
| DbxConvert.ConvertCell | pylib/dbx_mysqldb.py:312-346 | one iteration: the cell is the value converted under the column's type, and the registry gains exactly that type when it is unrecognised |
| DbxConvert.Convert | pylib/dbx_mysqldb.py:306-348 | the result is the row's conversion; the registry gains exactly the unrecognised types met, and a type already seen leaves it unchanged |
| DbxDatabase.IndexedNames | pylib/dbx_mysqldb.py:285-287 | a name is marked indexed iff the index query returned it |
| DbxDatabase.MergeRows | pylib/dbx_mysqldb.py:290-297 | one column description per main-query row, in that order, each merged with its indexed flag |
| DbxDatabase.UnsafeTableName | pylib/dbx_mysqldb.py:265-266 | a table name containing `;` raises "Unsafe table_name: …" before any query is sent or the cache is read or changed |
| DbxDatabase.CacheHit | pylib/dbx_mysqldb.py:268-270 | a cached table returns the stored list, sends nothing and leaves the cache as it was |
| DbxDatabase.CacheMiss | pylib/dbx_mysqldb.py:271-301 | on a miss the index query then the main query are sent; the result has one column per main-query row in order, primary iff its name came back from the index query, with default flag and fields from the row; the cache gains exactly that table's entry and no other entry changes |
| DbxDatabase.TableInfoCaches | pylib/dbx_mysqldb.py:298-301 | every answer is left in the cache under the table's name |
| DbxDatabase.TableInfoIdempotent | pylib/dbx_mysqldb.py:264-301 | asking again after an answer returns the same list, sends nothing and leaves the cache unchanged, whatever the server would now return |
| DbxDatabase.RawItemsFrom | pylib/dbx_mysqldb.py:365-374 | succeeds iff every item renders; then one string per fetched item, item k rendered under column k |
| DbxDatabase.RenderRawItems | pylib/dbx_mysqldb.py:365-374 | the loop produces exactly the rendering of the fetched row |
| DbxDatabase.RawRowShape | pylib/dbx_mysqldb.py:355-375 | a successful call returns (n, items) with n == len(items) == number of fetched values; None becomes ""; without blob conversion every other item is its str |
| DbxDatabase.RawRowSelect | pylib/dbx_mysqldb.py:356-360 | without blob conversion only the select is sent, `select * from <qualified> where` then key i = literal of value i, joined by " AND ", and the cache is untouched |
| DbxDatabase.Database.constructor | pylib/dbx_mysqldb.py:152-158 | a new database keeps its name and its connection and starts with an empty column cache |
| DbxDatabase.Database.Open | pylib/dbx_mysqldb.py:152-155 | creating a database raises the KeyError of `Connection(dbname, args)` when `host` or `username` is missing, and no database exists; otherwise a fresh database holds that connection, its name and an empty cache |
| DbxDatabase.Database.SaveTableInfo | pylib/dbx_mysqldb.py:264-301 | the queries sent, the result and the new cache are those of the table-info specification on the old cache |
| DbxDatabase.Database.GetRawRow | pylib/dbx_mysqldb.py:355-375 | the queries sent, the result and the new cache are those of the raw-row specification on the old cache |
| DbxStatements.QualifyTableName | pylib/dbx_mysqldb.py:160-165 | the name is the database name's text ("None" when absent), a `.`, then the table name |
| DbxStatements.ConvertAndJoinAlone | pylib/dbx_mysqldb.py:350-352 | for names without `%`, the joined text has exactly len(names) placeholders, and binding it with one literal per name gives each name = its literal, joined by the separator |
| DbxStatements.ClauseBinds | pylib/dbx_mysqldb.py:350-352 | after a plain prefix the clause still has len(names) placeholders and binds iff exactly that many literals are given |
| DbxStatements.PlaceholdersClosed | pylib/dbx_mysqldb.py:414-416 | `", ".join(['%s'] * n) + ")"` has n placeholders and binds n literals as their `, `-joined text |
| DbxStatements.SelectRowBinds | pylib/dbx_mysqldb.py:356-360 | the select has len(key_names) placeholders and binds iff that many values are given; key i is paired with value i |
| DbxStatements.DeleteBinds | pylib/dbx_mysqldb.py:400-403 | the delete has len(key_names) placeholders joined by " and ", and binds key i to value i |
| DbxStatements.InsertBinds | pylib/dbx_mysqldb.py:413-417 | the insert lists the target names in order and has exactly len(target_names) placeholders; binding succeeds iff as many values are given, value i landing in place i |
| DbxStatements.UpdateBinds | pylib/dbx_mysqldb.py:430-438 | the update has len(target_names) + len(key_names) placeholders; `target_values + key_values` bind targets in the SET clause and keys in the WHERE clause, in order |
| DbxStatements.DeleteRowByKeyOutcome | pylib/dbx_mysqldb.py:399-410 | deleteRowByKey never raises once connected; it is True iff as many values as keys are given and the server accepts the bound delete |
| DbxStatements.InsertRowOutcome | pylib/dbx_mysqldb.py:412-419 | the insert returns True iff there are as many values as targets and the server accepts the bound insert |
| DbxStatements.InsertRowTooFewValues | pylib/dbx_mysqldb.py:412-419 | too few values raise the "not enough arguments" TypeError out of the insert |
| DbxStatements.UpdateRowOutcome | pylib/dbx_mysqldb.py:430-445 | with matching target counts updateRow never raises; it is True iff the key counts match and the server accepts the bound update |
| DbxStatements.UpdateRowMiscount | pylib/dbx_mysqldb.py:437-444 | when values and names differ in total count, formatting fails inside the `try` and updateRow returns False |
| DbxStatements.CustomActionVerbatim | pylib/dbx_mysqldb.py:453-461 | a custom action is sent without arguments and is True iff the server accepts its text as typed; with arguments-style formatting a `%s` in it would fail |
| DbxStatements.RunCustomQuery | pylib/dbx_mysqldb.py:421-428 | the query is tried once; a retry happens iff it fails with a TypeError mentioning "not enough arguments for format string", and then the retried text is the query with every `%` doubled and its outcome is the call's; another TypeError is swallowed; any other outcome passes through |
| DbxStatements.RetryTextFormatsToQuery | pylib/dbx_mysqldb.py:426-428 | the retried text, formatted with no arguments, is exactly the query as typed |
| DbxRowIdentity.Positions | pylib/dbx_mysqldb.py:382-395 | the kept positions are exactly the columns the rule keeps, strictly ascending |
| DbxRowIdentity.CollectKeys | pylib/dbx_mysqldb.py:382-395 | one key-gathering loop: it succeeds iff every read index is inside the row, and then gives the kept names in column order with the row values at their indexes |
| DbxRowIdentity.GetRowIdentifier | pylib/dbx_mysqldb.py:377-397 | as written: primary-key columns read from index 0, the non-BLOB fallback from index len(cols) on |
| DbxRowIdentity.PrimaryKeyIdentifies | pylib/dbx_mysqldb.py:383-389 | with a primary key, key_names are exactly the primary-key column names in column order and key_values[j] is the row value at that column's position |
| DbxRowIdentity.FallbackReadsPastRow | pylib/dbx_mysqldb.py:390-395 | as written, a table without a primary key but with a non-BLOB column raises IndexError on any row of one value per column |
| DbxRowIdentity.SampleRowIdentifier | pylib/dbx_mysqldb.py:390-395 | the two-column table without a key fails as written and is identified by both values once the index is reset |
| DbxRowIdentity.GetRowIdentifierReset | pylib/dbx_mysqldb.py:377-397 | corrected: the fallback reads from index 0 |
| DbxRowIdentity.ResetIdentifies | pylib/dbx_mysqldb.py:381-397 | corrected: every row of one value per column is identified, by its primary-key columns or else its non-BLOB columns, each name paired with its own value |
| DbxRowIdentity.QmarkConditionBindsNoValue | pylib/dbx_mysqldb.py:388-395 | the `?` condition has no `%s` placeholder, so binding key values into it with `%` fails |
| KoDbConnMySql.KeyPositions | components/koDBConnMySQL.py:53-57 | the key positions are exactly the columns whose is_primary_key cell is '1', ascending |
| KoDbConnMySql.SelectQueryNames | components/koDBConnMySQL.py:49-57 | the loop collects exactly the names of the columns flagged '1', in column order |
| KoDbConnMySql.CollectRowValues | components/koDBConnMySQL.py:64-67 | the row's values are its cell texts for the query names, in that order |
| KoDbConnMySql.FailureMessage | components/koDBConnMySQL.py:71-74 | the failure message is never empty, so the first one sticks |
| KoDbConnMySql.DeleteFromReports | components/koDBConnMySQL.py:62-75 | deleteRowByKey is called once per row number, in order, with that row's key values, even after a failure; the result is "" when every delete succeeds, otherwise the message of the first failing row |
| KoDbConnMySql.DeleteFromStops | components/koDBConnMySQL.py:63-70 | an exception from deleteRowByKey ends the loop at that row with that exception |
| KoDbConnMySql.DeleteEach | components/koDBConnMySQL.py:62-75 | the delete loop makes the calls and returns the result of the delete-run specification |
| KoDbConnMySql.DeleteRows | components/koDBConnMySQL.py:45-75 | with no key column it raises "No attributes are keys, can't delete" before any delete; otherwise its calls and result are the delete-run specification's |
| KoDbConnMySql.InsertChild | components/koDBConnMySQL.py:99 | inserting into a sorted list keeps it sorted by lower-cased name and adds exactly that child |
| KoDbConnMySql.SortChildren | components/koDBConnMySQL.py:99 | the result is sorted by lower-cased name and is a permutation of its input (the same `sorted` call is at lines 134 and 173) |
| KoDbConnMySql.ListedChildren | components/koDBConnMySQL.py:92-100 | for the connection, database and table listings alike (lines 127-135, 166-174), listed names come back sorted case-insensitively, as many as listed, the same multiset of names, each with the level's kind and its own node |
| KoDbConnMySql.RaisedChildren | components/koDBConnMySQL.py:166-177 | a failed listing gives one "Error: " + text entry of kind error; a pair at table level, a 3-tuple with no node at the connection and database levels (lines 101-103, 136-138) |
| KoDbConnMySql.TableURIPath | components/koDBConnMySQL.py:179-180 | built on the connection URI (lines 111-117) and the database URI (lines 140-141), a table URI is `dbexplorer://host[:port]/user/dbname/table`, the port part only when the port is non-empty |
| KoDbConnMySql.TableViewTitle | components/koDBConnMySQL.py:154-161 | the title starts with "MySQL://" |
| KoDbConnMySql.ConnectionNode.GetURI | components/koDBConnMySQL.py:111-117 | the first call computes and stores the connection URI; later calls return the stored one unchanged |
| PyText.Lower | pylib/dbx_mysqldb.py:313 | the lower-cased type has the same length and no upper-case letter; every character that is not an upper-case letter stays in place, and each upper-case letter becomes its lower-case partner |
| PyText.LowerIdempotent | pylib/dbx_mysqldb.py:313 | lower-casing a lower-cased type changes nothing |
| PyText.DecimalRoundTrip | pylib/dbx_mysqldb.py:320 | `"%d" % i` reads back as i |
| PyText.DoublePercent | pylib/dbx_mysqldb.py:428 | the retried text is longer than the query by exactly its number of `%` characters |
| PyFormat.DoublePercentRoundTrip | pylib/dbx_mysqldb.py:426-428 | a text with every `%` doubled has no placeholder and formats back to the original |
| PyFormat.BindsIffArity | pylib/dbx_mysqldb.py:426 | formatting succeeds iff the argument count equals the placeholder count; too few raises "not enough arguments for format string" |

## Left out

- The MySQLdb driver: connecting, cursors, `execute`, `fetchone`/`fetchall` and `commit`. Also the `connect` context manager (`pylib/dbx_mysqldb.py:171-192`). A `Backend` value and the fetched rows stand in for them.
- `listDatabases`, `listAllTablePartsByType`, `listAllTableNames`, `listAllColumnNames`, `listAllIndexNames` and `listAllTriggerNames`. Each is one query and a fetch. The child listings take their result, or the text of the exception they raised, as input.
- `getIndexInfo` and `getTriggerInfo`: their bodies are unimplemented placeholders.
- `getConnectionDisplayInfo`, `ColumnInfo.__repr__`, `id_from_name` and `getSchemaColumnNames`: display helpers outside the explorer's data paths.
- `columnTypeIsInteger`/`columnTypeIsReal`: modelled as membership in their tuples, but no modelled operation uses them, so nothing is proved about them.
- `"%g"`, `"%r"` and `str()` of a value: floating point and Python repr are opaque functions of a `Formatter`. Decimal and other driver objects are `Other` values.
- DbxConvert.ConvertValue: gives `"%d"` of an `Other` value its repr and makes `"%g"` of one a TypeError. Python formats a Decimal under both. MySQLdb returns Python integers and floats for `int` and `float` columns, so a Decimal does not reach those buckets.
- Logging throughout; the `log.info` for a newly seen unrecognised type is the registry change only.
- PyText.Lower: ASCII letters only. Python's `str.lower` also folds non-ASCII letters.
- PyText.ParseInt: reads an optional `+` or `-` and decimal digits. Python 2's `int()` also skips surrounding whitespace, which a port string could contain.
- KoDbConnMySql.SortChildren: proved sorted and a permutation. It is not proved stable, as Python's `sorted` is, so the order of names equal up to case may differ.
- KoDbConnMySql.ConnectionNode.GetURI: takes host, port text and user name as parameters, since `params_from_connection` is in dbxlib and not part of this model.
- KoDbConnMySql.TableViewTitle: states only that the title starts with `MySQL://`; the rest of the title is the concatenation itself, with the display type name fixed to "MySQL".
- The database and table nodes are not objects: their URIs and titles are functions of the parent URI and the names.
- `_getRowIdentifier` and `deleteRows` read the column list and the cell texts through `get_table_info`, `getColumnNames` and the tree views, which are in dbxlib and the UI and are not part of this model. They take the column descriptions and cell-lookup functions as inputs.
- KoDbConnMySql.DeleteRows: the outcome of each `deleteRowByKey` call is a function of the key values alone. Two rows with equal keys therefore get the same outcome, and an outcome cannot depend on an earlier delete in the same run (for example, a second delete of an already removed row).
- `runCustomQuery` calls dbxlib's `CommonDatabase.runCustomQuery`, which is not part of this model. It is an input function from query text to outcome.
- DbxStatements.SelectRowBinds: requires names without `%`; a `%` in a database, table or column name would change the placeholder count.
- DbxStatements.DeleteBinds: requires names without `%`, for the same reason.
- DbxStatements.InsertBinds: requires names without `%`, for the same reason.
- DbxStatements.UpdateBinds: requires names without `%`, for the same reason.
- DbxStatements.DeleteRowByKeyOutcome: requires names without `%` and a server that can be connected to; a failed connection is the `CannotConnect` error of the model.
- DbxStatements.InsertRowOutcome: requires names without `%` and a reachable server.
- DbxDatabase.RawRowSelect: requires names without `%` and as many key values as key names.
- DbxStatements.UpdateRowOutcome: requires as many target values as target names. UpdateRowMiscount covers miscounted totals. Equal totals split differently are not covered: they bind values to the wrong columns.
- XPCOM registration, the preferences class, `get_loaded`, and the tree-view unwrapping.
- `__getattr__`'s lazy `_db` binding and the parent-chain attribute lookup (`components/koDBConnMySQL.py:182-188`): dynamic dispatch into dbxlib.
- Concurrency: `_unrec_types` is process-wide. The model passes one registry object explicitly and does not model threads sharing it.

## Findings

| source | as written | input that shows it | evidently intended | confidence | as-written member | corrected member |
|---|---|---|---|---|---|---|
| pylib/dbx_mysqldb.py:390-395 | the fallback loop for tables without a primary key keeps the index where the first loop left it (len(cols)), so it reads `row_to_delete[len(cols) + i]` | columns `id` (int) and `label` (varchar), neither primary; row `[7, "x"]`: the fallback reads index 2 and raises IndexError | reset the index to 0 so every non-BLOB column is paired with its own value | not executed | DbxRowIdentity.FallbackReadsPastRow | DbxRowIdentity.ResetIdentifies |
