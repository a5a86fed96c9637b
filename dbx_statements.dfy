/** The DML text and bound arguments built by `Database` in
    `pylib/dbx_mysqldb.py`, and what executing them through MySQLdb means:
    the driver formats the text with `%`, putting one SQL literal in place of
    each `%s`, and sends the result to the server. */
module DbxStatements {

  import opened PyBase
  import opened PyText
  import opened PyFormat

  /** A statement text with the arguments it is executed with. */
  datatype Statement = Statement(text: string, args: seq<Value>)

  /** `"%s" % dbname` for the optional database name. */
  function DbNameText(dbname: Option<string>): string
  {
    match dbname
    case Some(d) => d
    case None => "None"
  }

  /** `Database._qualifyTableName`. Its `hasattr(self, '_dbname')` test always
      holds, since the constructor always sets `_dbname`, so every table name
      is prefixed, with "None" when no database was named. */
  function QualifyTableName(dbname: Option<string>, tableName: string): (r: string)
    ensures var d := DbNameText(dbname);
      |r| == |d| + 1 + |tableName| && r[..|d|] == d && r[|d|] == '.' && r[|d| + 1..] == tableName
  {
    DbNameText(dbname) + "." + tableName
  }

  lemma QualifiedNameNoPercent(dbname: Option<string>, tableName: string)
    requires NoPercent(DbNameText(dbname)) && NoPercent(tableName)
    ensures NoPercent(QualifyTableName(dbname, tableName))
  {
    SqlWordsNoPercent();
    NoPercentConcat(DbNameText(dbname), ".");
    NoPercentConcat(DbNameText(dbname) + ".", tableName);
  }

  /** The fixed words of the statements carry no `%`. */
  lemma SqlWordsNoPercent()
    ensures NoPercent("select * from ") && NoPercent("delete from ") && NoPercent("insert into ")
    ensures NoPercent("update ") && NoPercent(" set ") && NoPercent(" where ")
    ensures NoPercent(" (") && NoPercent(") values (") && NoPercent(".")
    ensures NoPercent(" AND ") && NoPercent(" and ") && NoPercent(",") && NoPercent(", ")
  {
  }

  /** A `%`-free text spliced between two `%`-free texts. */
  lemma NoPercentText3(a: string, b: string, c: string)
    requires NoPercent(a) && NoPercent(b) && NoPercent(c)
    ensures NoPercent(a + b + c)
  {
    NoPercentConcat(a, b);
    NoPercentConcat(a + b, c);
  }

  predicate AllNoPercent(names: seq<string>)
  {
    forall i :: 0 <= i < |names| ==> NoPercent(names[i])
  }

  /** `"%s = %%s" % name`. */
  function Assignment(name: string): string
  {
    name + " = %s"
  }

  /** `Database._convertAndJoin(names, sep)`. */
  function ConvertAndJoin(names: seq<string>, sep: string): string
  {
    Join(seq(|names|, i requires 0 <= i < |names| => Assignment(names[i])), sep)
  }

  /** The text `ConvertAndJoin(names, sep)` becomes once each placeholder
      holds its literal: name i is paired with literal i. */
  function BoundAssignments(names: seq<string>, lits: seq<string>, sep: string): string
    requires |lits| == |names|
  {
    Join(seq(|names|, i requires 0 <= i < |names| => names[i] + " = " + lits[i]), sep)
  }

  /** `n` more placeholders in front of a format with `h`. */
  function AddHoles(n: nat, h: Option<nat>): Option<nat>
  {
    match h
    case Some(m) => Some(n + m)
    case None => None
  }

  lemma ConvertAndJoinCons(names: seq<string>, sep: string)
    requires |names| >= 2
    ensures ConvertAndJoin(names, sep) == Assignment(names[0]) + sep + ConvertAndJoin(names[1..], sep)
  {
    var ns := names[1..];
    var xs := seq(|names|, i requires 0 <= i < |names| => Assignment(names[i]));
    assert xs[1..] == seq(|ns|, i requires 0 <= i < |ns| => Assignment(ns[i]));
  }

  lemma BoundAssignmentsCons(names: seq<string>, lits: seq<string>, sep: string)
    requires |names| >= 2 && |lits| == |names|
    ensures BoundAssignments(names, lits, sep)
         == (names[0] + " = " + lits[0]) + sep + BoundAssignments(names[1..], lits[1..], sep)
  {
    var ns, ls := names[1..], lits[1..];
    var ys := seq(|names|, i requires 0 <= i < |names| => names[i] + " = " + lits[i]);
    assert ys[1..] == seq(|ns|, i requires 0 <= i < |ns| => ns[i] + " = " + ls[i]);
  }

  /** One assignment in front of the text `after`: the name and ` = ` carry
      no `%`, and its placeholder takes the first literal. */
  lemma AssignmentBinds(n: string, l: string, after: string, rest: seq<string>)
    requires NoPercent(n)
    ensures Interpolate(Assignment(n) + after, [l] + rest) == Prepend(n + " = " + l, Interpolate(after, rest))
    ensures Holes(Assignment(n) + after) == AddHoles(1, Holes(after))
  {
    assert NoPercent(" = ");
    NoPercentConcat(n, " = ");
    assert Assignment(n) + after == (n + " = ") + ("%s" + after);
    PlainText(n + " = ", "%s" + after, [l] + rest);
    Hole(l, after, rest);
    PrependTwice(n + " = ", l, Interpolate(after, rest));
  }

  lemma {:induction false} ConvertAndJoinBinds(names: seq<string>, sep: string, lits: seq<string>,
                                               tail: string, rest: seq<string>)
    requires |lits| == |names| && AllNoPercent(names) && NoPercent(sep)
    ensures Interpolate(ConvertAndJoin(names, sep) + tail, lits + rest)
         == Prepend(BoundAssignments(names, lits, sep), Interpolate(tail, rest))
    ensures Holes(ConvertAndJoin(names, sep) + tail) == AddHoles(|names|, Holes(tail))
    decreases |names|
  {
    var text := ConvertAndJoin(names, sep);
    var bound := BoundAssignments(names, lits, sep);
    if |names| == 0 {
      assert text + tail == tail && lits + rest == rest;
      var r := Interpolate(tail, rest);
      if r.Ok? { assert bound + r.value == r.value; }
      if Holes(tail).Some? { assert 0 + Holes(tail).value == Holes(tail).value; }
    } else if |names| == 1 {
      assert text == Assignment(names[0]);
      assert bound == names[0] + " = " + lits[0];
      assert lits + rest == [lits[0]] + rest;
      AssignmentBinds(names[0], lits[0], tail, rest);
    } else {
      var ns, ls := names[1..], lits[1..];
      var after := sep + (ConvertAndJoin(ns, sep) + tail);
      ConvertAndJoinCons(names, sep);
      BoundAssignmentsCons(names, lits, sep);
      assert text + tail == Assignment(names[0]) + after;
      assert lits + rest == [lits[0]] + (ls + rest);
      ConvertAndJoinBinds(ns, sep, ls, tail, rest);
      PlainText(sep, ConvertAndJoin(ns, sep) + tail, ls + rest);
      AssignmentBinds(names[0], lits[0], after, ls + rest);
      var inner := Interpolate(tail, rest);
      PrependTwice(sep, BoundAssignments(ns, ls, sep), inner);
      PrependTwice(names[0] + " = " + lits[0], sep + BoundAssignments(ns, ls, sep), inner);
      assert bound == (names[0] + " = " + lits[0]) + (sep + BoundAssignments(ns, ls, sep));
    }
  }

  /** `ConvertAndJoin(names, sep)` on its own: one placeholder per name,
      bound in order. */
  lemma ConvertAndJoinAlone(names: seq<string>, sep: string, lits: seq<string>)
    requires |lits| == |names| && AllNoPercent(names) && NoPercent(sep)
    ensures Holes(ConvertAndJoin(names, sep)) == Some(|names|)
    ensures Interpolate(ConvertAndJoin(names, sep), lits) == Ok(BoundAssignments(names, lits, sep))
  {
    var text := ConvertAndJoin(names, sep);
    var bound := BoundAssignments(names, lits, sep);
    ConvertAndJoinBinds(names, sep, lits, "", []);
    assert text + "" == text && lits + [] == lits && bound + "" == bound;
    assert Interpolate("", []) == Ok("") && Holes("") == Some(0);
  }

  /** A text made of `prefix` and `ConvertAndJoin(names, sep)` has one
      placeholder per name, binds exactly as many literals, and pairs name i
      with literal i. */
  lemma ClauseBinds(prefix: string, names: seq<string>, sep: string, lits: seq<string>)
    requires NoPercent(prefix) && AllNoPercent(names) && NoPercent(sep)
    ensures Holes(prefix + ConvertAndJoin(names, sep)) == Some(|names|)
    ensures Interpolate(prefix + ConvertAndJoin(names, sep), lits).Ok? <==> |lits| == |names|
    ensures |lits| == |names| ==>
      Interpolate(prefix + ConvertAndJoin(names, sep), lits) == Ok(prefix + BoundAssignments(names, lits, sep))
  {
    var text := ConvertAndJoin(names, sep);
    PlainText(prefix, text, lits);
    ConvertAndJoinAlone(names, sep, seq(|names|, _ => ""));
    BindsIffArity(prefix + text, lits);
    if |lits| == |names| {
      ConvertAndJoinAlone(names, sep, lits);
    }
  }

  /** `", ".join(['%s'] * n)`. */
  function Placeholders(n: nat): string
  {
    Join(seq(n, _ => "%s"), ", ")
  }

  lemma {:induction false} PlaceholdersBind(lits: seq<string>, tail: string, rest: seq<string>)
    ensures Interpolate(Placeholders(|lits|) + tail, lits + rest) == Prepend(Join(lits, ", "), Interpolate(tail, rest))
    ensures Holes(Placeholders(|lits|) + tail) == AddHoles(|lits|, Holes(tail))
    decreases |lits|
  {
    var n := |lits|;
    if n == 0 {
      assert Placeholders(0) + tail == tail && lits + rest == rest;
      var r := Interpolate(tail, rest);
      if r.Ok? { assert Join(lits, ", ") + r.value == r.value; }
      if Holes(tail).Some? { assert 0 + Holes(tail).value == Holes(tail).value; }
    } else {
      var l, ls := lits[0], lits[1..];
      assert lits + rest == [l] + (ls + rest);
      if n == 1 {
        assert Placeholders(1) == "%s";
        Hole(l, tail, rest);
      } else {
        PlaceholdersCons(n);
        assert Placeholders(n) + tail == "%s" + (", " + (Placeholders(n - 1) + tail));
        PlaceholdersBind(ls, tail, rest);
        HoleThenComma(l, Placeholders(n - 1) + tail, ls + rest);
        PrependTwice(l + ", ", Join(ls, ", "), Interpolate(tail, rest));
        assert Join(lits, ", ") == (l + ", ") + Join(ls, ", ");
      }
    }
  }

  lemma PlaceholdersCons(n: nat)
    requires n >= 2
    ensures Placeholders(n) == "%s" + ", " + Placeholders(n - 1)
  {
    assert seq(n, _ => "%s")[1..] == seq(n - 1, _ => "%s");
  }

  /** A placeholder followed by ", ": the first literal and the comma go in
      front of what the rest of the text binds. */
  lemma HoleThenComma(l: string, after: string, args: seq<string>)
    ensures Interpolate("%s" + (", " + after), [l] + args) == Prepend(l + ", ", Interpolate(after, args))
    ensures Holes("%s" + (", " + after)) == AddHoles(1, Holes(after))
  {
    Hole(l, ", " + after, args);
    PlainText(", ", after, args);
    PrependTwice(l, ", ", Interpolate(after, args));
  }

  // ---- the statements

  /** The query of `getRawRow`. */
  function SelectRowStatement(dbname: Option<string>, tableName: string,
                              keyNames: seq<string>, keyValues: seq<Value>): Statement
  {
    Statement("select * from " + QualifyTableName(dbname, tableName) + " where "
              + ConvertAndJoin(keyNames, " AND "), keyValues)
  }

  /** The statement of `deleteRowByKey`; it joins its conditions inline with
      a lower-case " and ", in the same shape `_convertAndJoin` builds. */
  function DeleteStatement(dbname: Option<string>, tableName: string,
                           keyNames: seq<string>, keyValues: seq<Value>): Statement
  {
    Statement("delete from " + QualifyTableName(dbname, tableName) + " where "
              + ConvertAndJoin(keyNames, " and "), keyValues)
  }

  /** The statement of `insertRowByNamesAndValues`. */
  function InsertStatement(dbname: Option<string>, tableName: string,
                           targetNames: seq<string>, targetValues: seq<Value>): Statement
  {
    Statement("insert into " + QualifyTableName(dbname, tableName) + " (" + Join(targetNames, ", ")
              + ") values (" + Placeholders(|targetNames|) + ")", targetValues)
  }

  /** The statement of `updateRow`: the target values are bound first, then
      the key values. */
  function UpdateStatement(dbname: Option<string>, tableName: string,
                           targetNames: seq<string>, targetValues: seq<Value>,
                           keyNames: seq<string>, keyValues: seq<Value>): Statement
  {
    Statement("update " + QualifyTableName(dbname, tableName) + " set " + ConvertAndJoin(targetNames, ",")
              + " where " + ConvertAndJoin(keyNames, " AND "), targetValues + keyValues)
  }

  /** Names that can be put into statement text without disturbing `%`. */
  predicate PlainNames(dbname: Option<string>, tableName: string, names: seq<string>)
  {
    NoPercent(DbNameText(dbname)) && NoPercent(tableName) && AllNoPercent(names)
  }

  lemma SelectRowBinds(dbname: Option<string>, tableName: string, keyNames: seq<string>,
                       keyValues: seq<Value>, lits: seq<string>)
    requires PlainNames(dbname, tableName, keyNames)
    ensures var st := SelectRowStatement(dbname, tableName, keyNames, keyValues);
      Holes(st.text) == Some(|keyNames|) &&
      (Interpolate(st.text, lits).Ok? <==> |lits| == |keyNames|) &&
      (|lits| == |keyNames| ==>
         Interpolate(st.text, lits) == Ok("select * from " + QualifyTableName(dbname, tableName) + " where "
            + BoundAssignments(keyNames, lits, " AND ")))
  {
    QualifiedNameNoPercent(dbname, tableName);
    SqlWordsNoPercent();
    var prefix := "select * from " + QualifyTableName(dbname, tableName) + " where ";
    NoPercentText3("select * from ", QualifyTableName(dbname, tableName), " where ");
    ClauseBinds(prefix, keyNames, " AND ", lits);
  }

  lemma DeleteBinds(dbname: Option<string>, tableName: string, keyNames: seq<string>,
                    keyValues: seq<Value>, lits: seq<string>)
    requires PlainNames(dbname, tableName, keyNames)
    ensures var st := DeleteStatement(dbname, tableName, keyNames, keyValues);
      Holes(st.text) == Some(|keyNames|) &&
      (Interpolate(st.text, lits).Ok? <==> |lits| == |keyNames|) &&
      (|lits| == |keyNames| ==>
         Interpolate(st.text, lits) == Ok("delete from " + QualifyTableName(dbname, tableName) + " where "
            + BoundAssignments(keyNames, lits, " and ")))
  {
    QualifiedNameNoPercent(dbname, tableName);
    SqlWordsNoPercent();
    var prefix := "delete from " + QualifyTableName(dbname, tableName) + " where ";
    NoPercentText3("delete from ", QualifyTableName(dbname, tableName), " where ");
    ClauseBinds(prefix, keyNames, " and ", lits);
  }

  /** The placeholder list closed by ")" binds one literal per placeholder. */
  lemma PlaceholdersClosed(lits: seq<string>)
    ensures Holes(Placeholders(|lits|) + ")") == Some(|lits|)
    ensures Interpolate(Placeholders(|lits|) + ")", lits) == Ok(Join(lits, ", ") + ")")
  {
    PlaceholdersBind(lits, ")", []);
    assert lits + [] == lits;
    assert ")"[1..] == "" && [")"[0]] == ")" && ")"[0] != '%';
    assert Interpolate("", []) == Ok("");
    assert Interpolate(")", []) == Prepend(")", Interpolate("", []));
    assert ")" + "" == ")";
    assert Interpolate(")", []) == Ok(")");
    assert Holes(")") == Some(0);
  }

  /** A `%`-free prefix in front of a well-formed body. */
  lemma PrefixBinds(prefix: string, body: string, lits: seq<string>)
    requires NoPercent(prefix) && Holes(body).Some?
    ensures Holes(prefix + body) == Holes(body)
    ensures Interpolate(prefix + body, lits).Ok? <==> |lits| == Holes(body).value
    ensures Interpolate(prefix + body, lits) == Prepend(prefix, Interpolate(body, lits))
  {
    PlainText(prefix, body, lits);
    BindsIffArity(body, lits);
  }

  /** The column list follows `targetNames` and the value list binds the
      literals in the same order, one placeholder per name. */
  lemma InsertBinds(dbname: Option<string>, tableName: string, targetNames: seq<string>,
                    targetValues: seq<Value>, lits: seq<string>)
    requires PlainNames(dbname, tableName, targetNames)
    ensures var st := InsertStatement(dbname, tableName, targetNames, targetValues);
      Holes(st.text) == Some(|targetNames|) &&
      (Interpolate(st.text, lits).Ok? <==> |lits| == |targetNames|) &&
      (|lits| == |targetNames| ==>
         Interpolate(st.text, lits) == Ok("insert into " + QualifyTableName(dbname, tableName) + " (" + Join(targetNames, ", ")
            + ") values (" + Join(lits, ", ") + ")"))
  {
    QualifiedNameNoPercent(dbname, tableName);
    JoinNoPercent(targetNames, ", ");
    var prefix := "insert into " + QualifyTableName(dbname, tableName) + " (" + Join(targetNames, ", ") + ") values (";
    NoPercentText3("insert into ", QualifyTableName(dbname, tableName), " (");
    NoPercentText3("insert into " + QualifyTableName(dbname, tableName) + " (", Join(targetNames, ", "), ") values (");
    var st := InsertStatement(dbname, tableName, targetNames, targetValues);
    var n := |targetNames|;
    var body := Placeholders(n) + ")";
    assert st.text == prefix + body;
    PlaceholdersClosed(seq(n, _ => ""));
    PrefixBinds(prefix, body, lits);
    if |lits| == n {
      PlaceholdersClosed(lits);
      assert prefix + (Join(lits, ", ") + ")") == "insert into " + QualifyTableName(dbname, tableName) + " ("
        + Join(targetNames, ", ") + ") values (" + Join(lits, ", ") + ")";
    }
  }

  lemma {:induction false} JoinNoPercent(xs: seq<string>, sep: string)
    requires AllNoPercent(xs) && NoPercent(sep)
    ensures NoPercent(Join(xs, sep))
    decreases |xs|
  {
    if |xs| > 1 {
      JoinNoPercent(xs[1..], sep);
      assert NoPercent(xs[0]);
    } else if |xs| == 1 {
      assert NoPercent(xs[0]);
    }
  }

  lemma ConvertAndJoinHoles(names: seq<string>, sep: string, tail: string)
    requires AllNoPercent(names) && NoPercent(sep) && Holes(tail).Some?
    ensures Holes(ConvertAndJoin(names, sep) + tail) == Some(|names| + Holes(tail).value)
  {
    ConvertAndJoinBinds(names, sep, seq(|names|, _ => ""), tail, []);
  }

  lemma AllNoPercentSplit(xs: seq<string>, ys: seq<string>)
    requires AllNoPercent(xs + ys)
    ensures AllNoPercent(xs) && AllNoPercent(ys)
  {
    forall i | 0 <= i < |xs| ensures NoPercent(xs[i]) {
      assert xs[i] == (xs + ys)[i];
    }
    forall i | 0 <= i < |ys| ensures NoPercent(ys[i]) {
      assert ys[i] == (xs + ys)[|xs| + i];
    }
  }

  lemma Assoc4(a: string, b: string, c: string, d: string)
    ensures a + b + c + d == a + (b + (c + d))
  {
  }

  /** A `%`-free prefix in front of a three-part format. */
  lemma PrefixOfThree(prefix: string, c1: string, mid: string, c2: string, lits: seq<string>)
    requires NoPercent(prefix)
    ensures Holes(prefix + c1 + mid + c2) == Holes(c1 + (mid + c2))
    ensures Interpolate(prefix + c1 + mid + c2, lits) == Prepend(prefix, Interpolate(c1 + (mid + c2), lits))
  {
    PlainText(prefix, c1 + (mid + c2), lits);
    Assoc4(prefix, c1, mid, c2);
  }

  lemma ClausesAroundMiddleHoles(names1: seq<string>, sep1: string, mid: string, names2: seq<string>, sep2: string)
    requires NoPercent(mid) && NoPercent(sep1) && NoPercent(sep2)
    requires AllNoPercent(names1) && AllNoPercent(names2)
    ensures Holes(ConvertAndJoin(names1, sep1) + (mid + ConvertAndJoin(names2, sep2))) == Some(|names1| + |names2|)
  {
    ClauseBinds(mid, names2, sep2, []);
    ConvertAndJoinHoles(names1, sep1, mid + ConvertAndJoin(names2, sep2));
  }

  /** Two assignment lists around a `%`-free middle, without the prefix. */
  lemma ClausesAroundMiddle(names1: seq<string>, sep1: string, mid: string, names2: seq<string>, sep2: string,
                            lits1: seq<string>, lits2: seq<string>)
    requires NoPercent(mid) && NoPercent(sep1) && NoPercent(sep2)
    requires AllNoPercent(names1) && AllNoPercent(names2)
    ensures Holes(ConvertAndJoin(names1, sep1) + (mid + ConvertAndJoin(names2, sep2))) == Some(|names1| + |names2|)
    ensures |lits1| == |names1| && |lits2| == |names2| ==>
      Interpolate(ConvertAndJoin(names1, sep1) + (mid + ConvertAndJoin(names2, sep2)), lits1 + lits2)
        == Ok(BoundAssignments(names1, lits1, sep1) + (mid + BoundAssignments(names2, lits2, sep2)))
  {
    var second := mid + ConvertAndJoin(names2, sep2);
    ClausesAroundMiddleHoles(names1, sep1, mid, names2, sep2);
    if |lits1| == |names1| && |lits2| == |names2| {
      ClauseBinds(mid, names2, sep2, lits2);
      ConvertAndJoinBinds(names1, sep1, lits1, second, lits2);
    }
  }

  /** A `%`-free prefix, an assignment list, a `%`-free middle and a second
      assignment list make a format with one placeholder per name; the
      placeholders of the first list take the first literals, those of the
      second list the rest. */
  lemma TwoClausesBind(prefix: string, names1: seq<string>, sep1: string, mid: string,
                       names2: seq<string>, sep2: string, lits1: seq<string>, lits2: seq<string>)
    requires NoPercent(prefix) && NoPercent(mid) && NoPercent(sep1) && NoPercent(sep2)
    requires AllNoPercent(names1) && AllNoPercent(names2)
    ensures Holes(prefix + ConvertAndJoin(names1, sep1) + mid + ConvertAndJoin(names2, sep2))
         == Some(|names1| + |names2|)
    ensures |lits1| == |names1| && |lits2| == |names2| ==>
      Interpolate(prefix + ConvertAndJoin(names1, sep1) + mid + ConvertAndJoin(names2, sep2), lits1 + lits2)
        == Ok(prefix + BoundAssignments(names1, lits1, sep1) + mid + BoundAssignments(names2, lits2, sep2))
  {
    ClausesAroundMiddle(names1, sep1, mid, names2, sep2, lits1, lits2);
    PrefixOfThree(prefix, ConvertAndJoin(names1, sep1), mid, ConvertAndJoin(names2, sep2), lits1 + lits2);
    if |lits1| == |names1| && |lits2| == |names2| {
      Assoc4(prefix, BoundAssignments(names1, lits1, sep1), mid, BoundAssignments(names2, lits2, sep2));
    }
  }

  /** Target literal i lands in the SET assignment of target name i, key
      literal j in the WHERE condition on key name j; the statement binds
      exactly `len(target_names) + len(key_names)` arguments. */
  lemma UpdateBinds(dbname: Option<string>, tableName: string,
                    targetNames: seq<string>, targetValues: seq<Value>,
                    keyNames: seq<string>, keyValues: seq<Value>,
                    targetLits: seq<string>, keyLits: seq<string>)
    requires PlainNames(dbname, tableName, targetNames + keyNames)
    ensures var st := UpdateStatement(dbname, tableName, targetNames, targetValues, keyNames, keyValues);
      Holes(st.text) == Some(|targetNames| + |keyNames|) &&
      (Interpolate(st.text, targetLits + keyLits).Ok? <==> |targetLits| + |keyLits| == |targetNames| + |keyNames|) &&
      (|targetLits| == |targetNames| && |keyLits| == |keyNames| ==>
         Interpolate(st.text, targetLits + keyLits) ==
           Ok("update " + QualifyTableName(dbname, tableName) + " set "
              + BoundAssignments(targetNames, targetLits, ",")
              + " where " + BoundAssignments(keyNames, keyLits, " AND ")))
  {
    AllNoPercentSplit(targetNames, keyNames);
    QualifiedNameNoPercent(dbname, tableName);
    SqlWordsNoPercent();
    NoPercentText3("update ", QualifyTableName(dbname, tableName), " set ");
    var prefix := "update " + QualifyTableName(dbname, tableName) + " set ";
    TwoClausesBind(prefix, targetNames, ",", " where ", keyNames, " AND ", targetLits, keyLits);
    var st := UpdateStatement(dbname, tableName, targetNames, targetValues, keyNames, keyValues);
    BindsIffArity(st.text, targetLits + keyLits);
  }

  // ---- executing a statement through the driver

  /** What the model needs of the driver and the server: whether a
      connection can be made, how MySQLdb renders a value as an SQL literal,
      and which SQL texts the server executes without raising. */
  datatype Backend = Backend(connects: bool, literal: Value -> string, accepts: string -> bool)

  function Literals(b: Backend, values: seq<Value>): (r: seq<string>)
    ensures |r| == |values| && forall i :: 0 <= i < |values| ==> r[i] == b.literal(values[i])
  {
    seq(|values|, i requires 0 <= i < |values| => b.literal(values[i]))
  }

  const Rejected := DriverError("statement rejected by the server")

  /** `cursor.execute(sql)` without arguments: MySQLdb sends the text as it
      is, without `%` formatting. */
  function ExecuteText(b: Backend, sql: string): Result<string>
  {
    if b.accepts(sql) then Ok(sql) else Err(Rejected)
  }

  /** The text `cursor.execute(text, args)` sends, if formatting succeeds. */
  function Sent(b: Backend, st: Statement): seq<string>
  {
    match Interpolate(st.text, Literals(b, st.args))
    case Ok(sql) => [sql]
    case Err(_) => []
  }

  /** `cursor.execute(text, args)`: format, then send; the SQL text sent
      when the server accepts it. */
  function Execute(b: Backend, st: Statement): Result<string>
  {
    match Interpolate(st.text, Literals(b, st.args))
    case Err(e) => Err(e)
    case Ok(sql) => ExecuteText(b, sql)
  }

  const CannotConnect := DriverError("cannot connect to the MySQL server")

  /** `Database.deleteRowByKey`: a failed connection raises, a failing
      execution is caught and reported as false. */
  function DeleteRowByKey(b: Backend, dbname: Option<string>, tableName: string,
                          keyNames: seq<string>, keyValues: seq<Value>): Result<bool>
  {
    if !b.connects then Err(CannotConnect)
    else Ok(Execute(b, DeleteStatement(dbname, tableName, keyNames, keyValues)).Ok?)
  }

  /** `Database.insertRowByNamesAndValues`: true, or whatever the driver raised. */
  function InsertRow(b: Backend, dbname: Option<string>, tableName: string,
                     targetNames: seq<string>, targetValues: seq<Value>): Result<bool>
  {
    if !b.connects then Err(CannotConnect)
    else match Execute(b, InsertStatement(dbname, tableName, targetNames, targetValues))
      case Err(e) => Err(e)
      case Ok(_) => Ok(true)
  }

  /** `Database.updateRow`: like deletion, a failing execution is reported as false. */
  function UpdateRow(b: Backend, dbname: Option<string>, tableName: string,
                     targetNames: seq<string>, targetValues: seq<Value>,
                     keyNames: seq<string>, keyValues: seq<Value>): Result<bool>
  {
    if !b.connects then Err(CannotConnect)
    else Ok(Execute(b, UpdateStatement(dbname, tableName, targetNames, targetValues, keyNames, keyValues)).Ok?)
  }

  /** Deleting by key succeeds exactly when one value is given per key name
      and the server accepts the condition that pairs them in order; a
      mismatch in number is reported as false, not raised. */
  lemma DeleteRowByKeyOutcome(b: Backend, dbname: Option<string>, tableName: string,
                              keyNames: seq<string>, keyValues: seq<Value>)
    requires b.connects && PlainNames(dbname, tableName, keyNames)
    ensures DeleteRowByKey(b, dbname, tableName, keyNames, keyValues).Ok?
    ensures DeleteRowByKey(b, dbname, tableName, keyNames, keyValues) == Ok(true) <==>
      |keyValues| == |keyNames| &&
      b.accepts("delete from " + QualifyTableName(dbname, tableName) + " where "
                + BoundAssignments(keyNames, Literals(b, keyValues), " and "))
  {
    DeleteBinds(dbname, tableName, keyNames, keyValues, Literals(b, keyValues));
  }

  /** Inserting binds one value per target name and succeeds exactly when
      the server accepts the column list and the value list in that order. */
  lemma InsertRowOutcome(b: Backend, dbname: Option<string>, tableName: string,
                         targetNames: seq<string>, targetValues: seq<Value>)
    requires b.connects && PlainNames(dbname, tableName, targetNames)
    ensures InsertRow(b, dbname, tableName, targetNames, targetValues) == Ok(true) <==>
      |targetValues| == |targetNames| &&
      b.accepts("insert into " + QualifyTableName(dbname, tableName) + " (" + Join(targetNames, ", ")
                + ") values (" + Join(Literals(b, targetValues), ", ") + ")")
  {
    var st, lits := InsertStatement(dbname, tableName, targetNames, targetValues), Literals(b, targetValues);
    InsertBinds(dbname, tableName, targetNames, targetValues, lits);
    if |targetValues| == |targetNames| {
      var sql := "insert into " + QualifyTableName(dbname, tableName) + " (" + Join(targetNames, ", ")
                 + ") values (" + Join(lits, ", ") + ")";
      assert Interpolate(st.text, lits) == Ok(sql);
      assert Execute(b, st) == ExecuteText(b, sql);
    } else {
      assert Execute(b, st).Err?;
    }
  }

  /** Too few values raise the formatting TypeError out of
      `insertRowByNamesAndValues`. */
  lemma InsertRowTooFewValues(b: Backend, dbname: Option<string>, tableName: string,
                              targetNames: seq<string>, targetValues: seq<Value>)
    requires b.connects && PlainNames(dbname, tableName, targetNames)
    requires |targetValues| < |targetNames|
    ensures InsertRow(b, dbname, tableName, targetNames, targetValues) == Err(TypeError(NotEnoughArguments))
  {
    var st := InsertStatement(dbname, tableName, targetNames, targetValues);
    InsertBinds(dbname, tableName, targetNames, targetValues, Literals(b, targetValues));
    BindsIffArity(st.text, Literals(b, targetValues));
  }

  /** Updating succeeds exactly when the values match the names in number
      and the server accepts the text with targets in SET and keys in WHERE. */
  lemma UpdateRowOutcome(b: Backend, dbname: Option<string>, tableName: string,
                         targetNames: seq<string>, targetValues: seq<Value>,
                         keyNames: seq<string>, keyValues: seq<Value>)
    requires b.connects && PlainNames(dbname, tableName, targetNames + keyNames)
    requires |targetValues| == |targetNames|
    ensures UpdateRow(b, dbname, tableName, targetNames, targetValues, keyNames, keyValues).Ok?
    ensures UpdateRow(b, dbname, tableName, targetNames, targetValues, keyNames, keyValues) == Ok(true) <==>
      |keyValues| == |keyNames| &&
      b.accepts("update " + QualifyTableName(dbname, tableName) + " set "
                + BoundAssignments(targetNames, Literals(b, targetValues), ",")
                + " where " + BoundAssignments(keyNames, Literals(b, keyValues), " AND "))
  {
    var tl, kl := Literals(b, targetValues), Literals(b, keyValues);
    assert Literals(b, targetValues + keyValues) == tl + kl;
    UpdateBinds(dbname, tableName, targetNames, targetValues, keyNames, keyValues, tl, kl);
  }

  /** When the values do not add up to the names, formatting fails inside
      the `try` of `updateRow`, so the update is reported as false. */
  lemma UpdateRowMiscount(b: Backend, dbname: Option<string>, tableName: string,
                          targetNames: seq<string>, targetValues: seq<Value>,
                          keyNames: seq<string>, keyValues: seq<Value>)
    requires b.connects && PlainNames(dbname, tableName, targetNames + keyNames)
    requires |targetValues| + |keyValues| != |targetNames| + |keyNames|
    ensures UpdateRow(b, dbname, tableName, targetNames, targetValues, keyNames, keyValues) == Ok(false)
  {
    var tl, kl := Literals(b, targetValues), Literals(b, keyValues);
    assert Literals(b, targetValues + keyValues) == tl + kl;
    UpdateBinds(dbname, tableName, targetNames, targetValues, keyNames, keyValues, tl, kl);
  }

  /** `Database.executeCustomAction`: the action is sent as typed; a failing
      execution is reported as false. */
  function ExecuteCustomAction(b: Backend, action: string): Result<bool>
  {
    if !b.connects then Err(CannotConnect) else Ok(ExecuteText(b, action).Ok?)
  }

  /** A custom action reaches the server verbatim: a `%` in it is not a
      conversion, unlike in the statements executed with arguments. */
  lemma CustomActionVerbatim(b: Backend, action: string)
    requires b.connects
    ensures ExecuteCustomAction(b, action) == Ok(b.accepts(action))
    ensures Holes(action).Some? && Holes(action).value > 0 ==> Execute(b, Statement(action, [])).Err?
  {
    if Holes(action).Some? {
      BindsIffArity(action, []);
      assert Literals(b, []) == [];
    }
  }

  // ---- runCustomQuery

  /** What running a custom query text through the shared implementation did. */
  datatype Outcome = Completed | Failed(error: PyError)

  /** The texts tried, in order, and how the call ended. */
  datatype CustomRun = CustomRun(attempts: seq<string>, outcome: Outcome)

  predicate IsFormatArgumentError(o: Outcome)
  {
    o.Failed? && o.error.TypeError? && Contains(o.error.message, NotEnoughArguments)
  }

  /** `Database.runCustomQuery`: a TypeError about missing format arguments
      is answered by one retry with every `%` doubled; any other TypeError
      is swallowed; other failures pass through. */
  function RunCustomQuery(query: string, run: string -> Outcome): (r: CustomRun)
    ensures 1 <= |r.attempts| <= 2 && r.attempts[0] == query
    ensures |r.attempts| == 2 <==> IsFormatArgumentError(run(query))
    ensures |r.attempts| == 2 ==> r.attempts[1] == DoublePercent(query) && r.outcome == run(DoublePercent(query))
    ensures |r.attempts| == 1 && run(query).Failed? && run(query).error.TypeError? ==> r.outcome == Completed
    ensures |r.attempts| == 1 && !(run(query).Failed? && run(query).error.TypeError?) ==> r.outcome == run(query)
  {
    var first := run(query);
    if first.Failed? && first.error.TypeError? then
      if Contains(first.error.message, NotEnoughArguments) then
        CustomRun([query, DoublePercent(query)], run(DoublePercent(query)))
      else CustomRun([query], Completed)
    else CustomRun([query], first)
  }

  /** When the first attempt fails for want of format arguments, the retry
      text, formatted with no arguments, is the query as typed. */
  lemma RetryTextFormatsToQuery(query: string, run: string -> Outcome)
    requires IsFormatArgumentError(run(query))
    ensures var r := RunCustomQuery(query, run);
      |r.attempts| == 2 && Interpolate(r.attempts[1], []) == Ok(query)
  {
    DoublePercentRoundTrip(query);
  }
}
