/** Python-level vocabulary shared by the model of the MySQL explorer backend:
    the values the driver and the preference store hand over, the exceptions
    the code raises, and the renderings of values that the model leaves opaque. */
module PyBase {

  /** A Python value as it reaches this code from the driver or from the
      connection preferences.  `Other` stands for driver objects such as
      datetime or Decimal instances, identified only by their kind. */
  datatype Value =
    | Null
    | Bool(b: bool)
    | Int(i: int)
    | Float(r: real)
    | Str(s: string)
    | Other(kind: string)

  /** Python truthiness (`if value:`). */
  predicate Truthy(v: Value)
  {
    match v
    case Null => false
    case Bool(b) => b
    case Int(i) => i != 0
    case Float(r) => r != 0.0
    case Str(s) => s != ""
    case Other(_) => true
  }

  /** The exceptions this code raises or lets through. */
  datatype PyError =
    | TypeError(message: string)
    | ValueError(message: string)
    | IndexError
    | KeyError(key: string)
    | Exception(message: string)      // a bare `raise Exception(...)`
    | DbxError(message: string)       // dbxlib.DBXception
    | DriverError(message: string)    // anything the MySQL driver raises

  /** A computation that either returns a value or raises. */
  datatype Result<+T> = Ok(value: T) | Err(error: PyError)

  datatype Option<+T> = None | Some(value: T)

  /** Renderings of values that depend on Python's float formatting and
      object representations: `str(v)`, `repr(v)` (`"%r" % v`) and `"%g" % v`.
      The model takes them as given functions. */
  datatype Formatter = Formatter(str: Value -> string, repr: Value -> string, general: Value -> string)
  {
    /** `"%s" % v`: a string is itself, anything else goes through `str`. */
    function StrOf(v: Value): (r: string)
      ensures v.Str? ==> r == v.s
    {
      if v.Str? then v.s else str(v)
    }
  }
}
