/** Column metadata of `pylib/dbx_mysqldb.py`: the `ColumnInfo` record and
    the module-level column-type tests. */
module DbxColumns {

  import opened PyBase
  import opened PyText

  /** One row of the ordinal-ordered column query: name, data type,
      nullability, default and maximum length. */
  datatype ColumnRow = ColumnRow(name: string, dataType: string, nullable: Value, default: Value, maxLength: Value)

  /** `ColumnInfo` (its synonym attributes collapsed); `isPrimaryKey` is the
      stored 1/0. */
  datatype ColumnInfo = ColumnInfo(
    name: string, dataType: string, nullable: Value,
    hasDefaultValue: bool, default: Value, maxLength: Value,
    isPrimaryKey: bool)

  /** `ColumnInfo.__init__`: the primary-key flag is 1 when the argument is
      truthy or equals "True" (which, being truthy, adds no case). */
  function NewColumnInfo(name: string, dataType: string, nullable: Value, default: Value,
                         maxLength: Value, isPrimaryKey: Value): (c: ColumnInfo)
    ensures c.isPrimaryKey <==> Truthy(isPrimaryKey)
    ensures c.hasDefaultValue <==> default != Null
    ensures c.name == name && c.dataType == dataType && c.nullable == nullable
    ensures c.default == default && c.maxLength == maxLength
  {
    ColumnInfo(name, dataType, nullable, default != Null, default, maxLength,
               Truthy(isPrimaryKey) || isPrimaryKey == Str("True"))
  }

  const IntTypeNames: seq<string> := ["smallint", "integer", "bigint", "serial", "bigserial"]
  const FloatTypeNames: seq<string> := ["decimal", "numeric", "real", "double precision"]

  predicate ColumnTypeIsInteger(typeName: string)
  {
    typeName in IntTypeNames
  }

  predicate ColumnTypeIsReal(typeName: string)
  {
    typeName in FloatTypeNames
  }

  /** Compares with the upper-case name, unlike the value conversion. */
  predicate ColumnTypeIsBlob(typeName: string)
  {
    typeName == "BLOB"
  }

  /** `Database._typeForMySQL`: the date-like types. */
  predicate TypeForMySQL(typeName: string)
  {
    typeName in ["date", "datetime", "point"]
  }

  /** The blob test never fires on a lower-case type name, which is how
      MySQL's information schema reports data types. */
  lemma BlobTestMissesLowerCase(typeName: string)
    requires IsLowerCase(typeName)
    ensures !ColumnTypeIsBlob(typeName)
  {
    assert IsUpperAscii("BLOB"[0]);
  }
}
