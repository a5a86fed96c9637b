/** Value stringification of `pylib/dbx_mysqldb.py` (`Database._convert`):
    each value of a fetched row is rendered according to its column's
    lower-cased type name, and type names that fall in no bucket are
    remembered in the process-wide `_unrec_types` table. */
module DbxConvert {

  import opened PyBase
  import opened PyText
  import opened DbxColumns

  /** The buckets `_convert` sorts a lower-cased type name into. */
  datatype TypeClass = IntClass | FloatClass | TextClass | DateClass | BlobClass | Unrecognised

  predicate IsTextType(t: string)
  {
    t in ["string", "text", "enum"] || Contains(t, "varchar") || StartsWith(t, "char") || StartsWith(t, "character")
  }

  lemma {:induction false} ContainsFirstChar(s: string, sub: string)
    requires |sub| > 0
    ensures Contains(s, sub) ==> sub[0] in s
    decreases |s|
  {
    if |s| > 0 && !StartsWith(s, sub) {
      ContainsFirstChar(s[1..], sub);
    }
  }

  lemma NotTextType(t: string)
    requires 'v' !in t && (|t| == 0 || t[0] != 'c') && t !in ["string", "text", "enum"]
    ensures !IsTextType(t)
  {
    ContainsFirstChar(t, "varchar");
    StartsWithFirstChar(t, "char");
  }

  lemma StartsWithFirstChar(s: string, p: string)
    requires |p| > 0
    ensures StartsWith(s, p) ==> |s| > 0 && s[0] == p[0]
  {
    if StartsWith(s, p) {
      assert s[0] == s[..|p|][0];
    }
  }

  /** The `if`/`elif` chain of `_convert`, first match wins. */
  function Classify(t: string): TypeClass
  {
    if t == "int" then IntClass
    else if t == "float" then FloatClass
    else if IsTextType(t) then TextClass
    else if TypeForMySQL(t) then DateClass
    else if t == "blob" then BlobClass
    else Unrecognised
  }

  /** The buckets do not overlap: every bucket is reached exactly by the
      names its own test accepts, so the order of the tests is immaterial. */
  lemma ClassifyExact(t: string)
    ensures Classify(t) == IntClass <==> t == "int"
    ensures Classify(t) == FloatClass <==> t == "float"
    ensures Classify(t) == TextClass <==> IsTextType(t)
    ensures Classify(t) == DateClass <==> TypeForMySQL(t)
    ensures Classify(t) == BlobClass <==> t == "blob"
    ensures Classify(t) == Unrecognised <==>
      !(t == "int" || t == "float" || IsTextType(t) || TypeForMySQL(t) || t == "blob")
  {
    if t == "int" || t == "float" || TypeForMySQL(t) || t == "blob" {
      NotTextType(t);
    }
  }

  /** `"<BLOB: %d chars>" % n`. */
  function BlobMarker(n: nat): string
  {
    "<BLOB: " + NatToDecimal(n) + " chars>"
  }

  predicate IsNumber(v: Value)
  {
    v.Int? || v.Bool? || v.Float?
  }

  /** `"%d" % v`, with the TypeError of a non-number caught and `"%r" % v`
      used instead. */
  function IntText(v: Value, fmt: Formatter): string
    requires !v.Null?
  {
    match v
    case Int(i) => IntToDecimal(i)
    case Bool(b) => if b then "1" else "0"
    case Float(x) => IntToDecimal(TruncateToInt(x))
    case _ => fmt.repr(v)
  }

  /** One value rendered for its lower-cased column type `t`. */
  function ConvertValue(t: string, v: Value, fmt: Formatter): Result<Value>
  {
    match Classify(t)
    case IntClass =>
      if v.Null? then Ok(Str(""))
      else Ok(Str(IntText(v, fmt)))
    case FloatClass =>
      if IsNumber(v) then Ok(Str(fmt.general(v))) else Err(TypeError("float argument required"))
    case TextClass => Ok(v)
    case DateClass => Ok(Str(fmt.StrOf(v)))
    case BlobClass =>
      (match v
       case Null => Ok(Str(BlobMarker(0)))
       case Str(s) => Ok(Str(BlobMarker(|s|)))
       case _ => Err(TypeError("object has no len()")))
    case Unrecognised => Ok(Str(fmt.repr(v)))
  }

  /** What each bucket makes of a value: an integer column renders integers
      as decimal text that reads back as the same integer, text columns pass
      values through, BLOB columns give the length marker, and only float and
      BLOB columns can fail, with a TypeError. */
  lemma ConvertValueByClass(t: string, v: Value, fmt: Formatter)
    ensures var r := ConvertValue(t, v, fmt);
      (Classify(t) == IntClass && v.Null? ==> r == Ok(Str(""))) &&
      (Classify(t) == IntClass && v.Int? ==> r.Ok? && r.value.Str? && ParseInt(r.value.s) == Some(v.i)) &&
      (Classify(t) == IntClass && (v.Str? || v.Other?) ==> r == Ok(Str(fmt.repr(v)))) &&
      (Classify(t) == FloatClass ==> (r.Ok? <==> IsNumber(v))) &&
      (Classify(t) == TextClass ==> r == Ok(v)) &&
      (Classify(t) == DateClass ==> r == Ok(Str(fmt.StrOf(v)))) &&
      (Classify(t) == BlobClass && v.Null? ==> r == Ok(Str(BlobMarker(0)))) &&
      (Classify(t) == BlobClass && v.Str? ==> r == Ok(Str(BlobMarker(|v.s|)))) &&
      (Classify(t) == Unrecognised ==> r == Ok(Str(fmt.repr(v)))) &&
      (r.Err? ==> r.error.TypeError? && (Classify(t) == FloatClass || Classify(t) == BlobClass))
  {
    if v.Int? {
      DecimalRoundTrip(v.i);
    }
  }

  /** The lower-cased type `_convert` works with for column `c`. */
  function CellType(c: ColumnInfo): string
  {
    Lower(c.dataType)
  }

  /** `xs` in front of a successful result. */
  function PrefixWith<T>(xs: seq<T>, r: Result<seq<T>>): Result<seq<T>>
  {
    match r
    case Ok(ys) => Ok(xs + ys)
    case Err(e) => Err(e)
  }

  lemma PrefixWithEmpty<T>(r: Result<seq<T>>)
    ensures PrefixWith([], r) == r
  {
    if r.Ok? { assert [] + r.value == r.value; }
  }

  lemma PrefixWithTwice<T>(xs: seq<T>, ys: seq<T>, r: Result<seq<T>>)
    ensures PrefixWith(xs, PrefixWith(ys, r)) == PrefixWith(xs + ys, r)
  {
    if r.Ok? { assert xs + (ys + r.value) == (xs + ys) + r.value; }
  }

  /** What `_convert` returns for the values of `row` from position `i` on. */
  function ConvertFrom(cols: seq<ColumnInfo>, row: seq<Value>, i: nat, fmt: Formatter): (r: Result<seq<Value>>)
    requires i <= |row|
    ensures r.Ok? <==>
      (i < |row| ==> |row| <= |cols|) &&
      forall k :: i <= k < |row| && k < |cols| ==> ConvertValue(CellType(cols[k]), row[k], fmt).Ok?
    ensures (i < |row| && |cols| < |row| &&
             forall k :: i <= k < |row| && k < |cols| ==> ConvertValue(CellType(cols[k]), row[k], fmt).Ok?)
            ==> r == Err(IndexError)
    ensures r.Ok? ==> |r.value| == |row| - i
    ensures r.Ok? ==> forall k :: i <= k < |row| ==> Ok(r.value[k - i]) == ConvertValue(CellType(cols[k]), row[k], fmt)
    decreases |row| - i
  {
    if i == |row| then Ok([])
    else if i >= |cols| then Err(IndexError)
    else
      match ConvertValue(CellType(cols[i]), row[i], fmt)
      case Err(e) => Err(e)
      case Ok(x) =>
        match ConvertFrom(cols, row, i + 1, fmt)
        case Err(e) => Err(e)
        case Ok(xs) => Ok([x] + xs)
  }

  /** The type names `_convert` adds to `_unrec_types` while converting
      `row` from position `i` on, up to the first failure. */
  function UnrecognisedFrom(cols: seq<ColumnInfo>, row: seq<Value>, i: nat, fmt: Formatter): (r: set<string>)
    requires i <= |row|
    ensures forall t :: t in r ==> Classify(t) == Unrecognised
    decreases |row| - i
  {
    if i == |row| || i >= |cols| then {}
    else
      var t := CellType(cols[i]);
      (if Classify(t) == Unrecognised then {t} else {})
      + (if ConvertValue(t, row[i], fmt).Err? then {} else UnrecognisedFrom(cols, row, i + 1, fmt))
  }

  /** The type name column `c` contributes, if any. */
  function UnrecognisedType(c: ColumnInfo): set<string>
  {
    if Classify(CellType(c)) == Unrecognised then {CellType(c)} else {}
  }

  /** One column whose value converts: its rendering goes in front, its type
      name joins the registry, and the scan moves on. */
  lemma ConvertStepOk(cols: seq<ColumnInfo>, row: seq<Value>, i: nat, fmt: Formatter)
    requires i < |row| && i < |cols| && ConvertValue(CellType(cols[i]), row[i], fmt).Ok?
    ensures ConvertFrom(cols, row, i, fmt)
         == PrefixWith([ConvertValue(CellType(cols[i]), row[i], fmt).value], ConvertFrom(cols, row, i + 1, fmt))
    ensures UnrecognisedFrom(cols, row, i, fmt) == UnrecognisedType(cols[i]) + UnrecognisedFrom(cols, row, i + 1, fmt)
  {
  }

  /** One column whose value does not convert: its error ends the scan,
      after its type name joined the registry. */
  lemma ConvertStepErr(cols: seq<ColumnInfo>, row: seq<Value>, i: nat, fmt: Formatter)
    requires i < |row| && i < |cols| && ConvertValue(CellType(cols[i]), row[i], fmt).Err?
    ensures ConvertFrom(cols, row, i, fmt) == Err(ConvertValue(CellType(cols[i]), row[i], fmt).error)
    ensures UnrecognisedFrom(cols, row, i, fmt) == UnrecognisedType(cols[i])
  {
  }

  /** The unrecognised type names among the columns of `row` from position `i` on. */
  function UnrecognisedColumns(cols: seq<ColumnInfo>, row: seq<Value>, i: nat): set<string>
    decreases |row| - i
  {
    if i >= |row| || i >= |cols| then {}
    else UnrecognisedType(cols[i]) + UnrecognisedColumns(cols, row, i + 1)
  }

  lemma {:induction false} UnrecognisedOfConvertingColumns(cols: seq<ColumnInfo>, row: seq<Value>, i: nat, fmt: Formatter)
    requires i <= |row| <= |cols|
    requires forall k :: i <= k < |row| ==> ConvertValue(CellType(cols[k]), row[k], fmt).Ok?
    ensures UnrecognisedFrom(cols, row, i, fmt) == UnrecognisedColumns(cols, row, i)
    decreases |row| - i
  {
    if i < |row| {
      UnrecognisedOfConvertingColumns(cols, row, i + 1, fmt);
    }
  }

  /** When the whole row converts, the names added are the unrecognised
      types of all its columns: the scan does not stop early. */
  lemma UnrecognisedOfConvertedRow(cols: seq<ColumnInfo>, row: seq<Value>, i: nat, fmt: Formatter)
    requires i <= |row| && ConvertFrom(cols, row, i, fmt).Ok?
    ensures UnrecognisedFrom(cols, row, i, fmt) == UnrecognisedColumns(cols, row, i)
  {
    if i < |row| {
      UnrecognisedOfConvertingColumns(cols, row, i, fmt);
    }
  }

  /** The process-wide `_unrec_types` table. */
  class UnrecognisedTypes {
    var seen: set<string>

    constructor ()
      ensures seen == {}
    {
      seen := {};
    }
  }

  /** The bookkeeping of one column: what was seen plus what is still to be
      added stays the same. */
  lemma SeenStep(start: set<string>, seen: set<string>, added: set<string>,
                 pending: set<string>, later: set<string>, total: set<string>)
    requires seen + pending == start + total && pending == added + later
    ensures (seen + added) + later == start + total
  {
  }

  /** The body of `_convert`'s loop for one column: an unrecognised type name
      is recorded in the table before the value is rendered. */
  method ConvertCell(registry: UnrecognisedTypes, c: ColumnInfo, v: Value, fmt: Formatter)
    returns (cell: Result<Value>)
    modifies registry
    ensures cell == ConvertValue(CellType(c), v, fmt)
    ensures registry.seen == old(registry.seen) + UnrecognisedType(c)
  {
    var t := Lower(c.dataType);
    if Classify(t) == Unrecognised && t !in registry.seen {
      registry.seen := registry.seen + {t};
    }
    cell := ConvertValue(t, v, fmt);
  }

  /** `Database._convert`. */
  method Convert(registry: UnrecognisedTypes, cols: seq<ColumnInfo>, row: seq<Value>, fmt: Formatter)
    returns (r: Result<seq<Value>>)
    modifies registry
    ensures r == ConvertFrom(cols, row, 0, fmt)
    ensures registry.seen == old(registry.seen) + UnrecognisedFrom(cols, row, 0, fmt)
    ensures UnrecognisedFrom(cols, row, 0, fmt) <= old(registry.seen) ==> registry.seen == old(registry.seen)
  {
    ghost var start, whole, total := registry.seen, ConvertFrom(cols, row, 0, fmt), UnrecognisedFrom(cols, row, 0, fmt);
    var converted: seq<Value> := [];
    var idx := 0;
    PrefixWithEmpty(whole);
    while idx < |row|
      invariant 0 <= idx <= |row|
      invariant whole == PrefixWith(converted, ConvertFrom(cols, row, idx, fmt))
      invariant registry.seen + UnrecognisedFrom(cols, row, idx, fmt) == start + total
      invariant start <= registry.seen
    {
      if idx >= |cols| {
        assert ConvertFrom(cols, row, idx, fmt) == Err(IndexError);
        return Err(IndexError);
      }
      ghost var before := registry.seen;
      var cell := ConvertCell(registry, cols[idx], row[idx], fmt);
      if cell.Err? {
        ConvertStepErr(cols, row, idx, fmt);
        return Err(cell.error);
      }
      ConvertStepOk(cols, row, idx, fmt);
      SeenStep(start, before, UnrecognisedType(cols[idx]), UnrecognisedFrom(cols, row, idx, fmt),
        UnrecognisedFrom(cols, row, idx + 1, fmt), total);
      PrefixWithTwice(converted, [cell.value], ConvertFrom(cols, row, idx + 1, fmt));
      converted := converted + [cell.value];
      idx := idx + 1;
    }
    assert converted + [] == converted;
    r := Ok(converted);
  }
}
