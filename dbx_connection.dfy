/** The connection description of `pylib/dbx_mysqldb.py` (class `Connection`):
    the arguments a `Database` is created with, and their translation into
    the keyword arguments of `MySQLdb.connect`. */
module DbxConnection {

  import opened PyBase
  import opened PyText

  /** The attributes `Connection.__init__` stores. */
  datatype Connection = Connection(
    host: Value, socket: Value, port: Value, user: Value,
    db: Value, password: Value, hasPassword: Value)

  function Lookup(args: map<string, Value>, key: string, default: Value): Value
  {
    if key in args then args[key] else default
  }

  /** `Connection(dbname, args)`: `host` and `username` must be present,
      the other arguments have defaults. */
  function NewConnection(dbname: Value, args: map<string, Value>): (r: Result<Connection>)
    ensures "host" !in args ==> r == Err(KeyError("host"))
    ensures "host" in args && "username" !in args ==> r == Err(KeyError("username"))
    ensures r.Ok? <==> "host" in args && "username" in args
    ensures r.Ok? ==> r.value.host == args["host"] && r.value.user == args["username"] && r.value.db == dbname
    ensures r.Ok? ==> r.value.socket == Lookup(args, "socket", Str(""))
    ensures r.Ok? ==> r.value.port == Lookup(args, "port", Null) && r.value.password == Lookup(args, "password", Null)
  {
    if "host" !in args then Err(KeyError("host"))
    else if "username" !in args then Err(KeyError("username"))
    else Ok(Connection(args["host"], Lookup(args, "socket", Str("")), Lookup(args, "port", Null),
                       args["username"], dbname, Lookup(args, "password", Null),
                       Lookup(args, "hasPassword", Bool(false))))
  }

  /** The keys of `Connection.partNames`, each mapped to itself. */
  const PartNames: seq<string> := ["host", "user", "db", "port"]

  /** `getattr(connection, name)` for the attributes looked up by name. */
  function Attribute(c: Connection, name: string): Value
  {
    if name == "host" then c.host
    else if name == "user" then c.user
    else if name == "db" then c.db
    else if name == "port" then c.port
    else Null
  }

  /** `int(v)`. */
  function PyInt(v: Value): (r: Result<int>)
    ensures v.Int? ==> r == Ok(v.i)
    ensures v.Null? || v.Other? ==> r.Err?
  {
    match v
    case Int(i) => Ok(i)
    case Bool(b) => Ok(if b then 1 else 0)
    case Float(x) => Ok(TruncateToInt(x))
    case Str(s) =>
      (match ParseInt(s)
       case Some(n) => Ok(n)
       case None => Err(ValueError("invalid literal for int() with base 10")))
    case Null => Err(TypeError("int() argument must be a string or a number"))
    case Other(_) => Err(TypeError("int() argument must be a string or a number"))
  }

  /** A port given as the text `"%d"` prints is read back as that number. */
  lemma PortTextRoundTrip(port: int)
    ensures PyInt(Str(IntToDecimal(port))) == Ok(port)
  {
    DecimalRoundTrip(port);
  }

  /** `Connection.getConnectionParameters`: fills the keyword arguments
      for `MySQLdb.connect` part by part. */
  method GetConnectionParameters(c: Connection) returns (r: Result<map<string, Value>>)
    ensures r.Err? <==> Truthy(c.port) && PyInt(c.port).Err?
    ensures r.Err? ==> r.error == PyInt(c.port).error
    ensures r.Ok? ==> r.value.Keys <= {"host", "user", "db", "port", "passwd", "unix_socket"}
    ensures r.Ok? ==> ("host" in r.value <==> Truthy(c.host)) && ("host" in r.value ==> r.value["host"] == c.host)
    ensures r.Ok? ==> ("user" in r.value <==> Truthy(c.user)) && ("user" in r.value ==> r.value["user"] == c.user)
    ensures r.Ok? ==> ("db" in r.value <==> Truthy(c.db)) && ("db" in r.value ==> r.value["db"] == c.db)
    ensures r.Ok? ==> ("port" in r.value <==> Truthy(c.port))
    ensures r.Ok? && "port" in r.value ==> r.value["port"] == Int(PyInt(c.port).value)
    ensures r.Ok? ==> ("passwd" in r.value <==> c.password != Null)
    ensures r.Ok? && "passwd" in r.value ==> r.value["passwd"] == c.password
    ensures r.Ok? ==> ("unix_socket" in r.value <==> Truthy(c.socket))
    ensures r.Ok? && "unix_socket" in r.value ==> r.value["unix_socket"] == c.socket
  {
    var parts: map<string, Value> := map[];
    var i := 0;
    while i < |PartNames|
      invariant 0 <= i <= |PartNames|
      invariant forall k :: k in parts ==> k in PartNames[..i] && parts[k] == Attribute(c, k)
      invariant forall j :: 0 <= j < i ==> (PartNames[j] in parts <==> Truthy(Attribute(c, PartNames[j])))
    {
      var a := PartNames[i];
      var res := Attribute(c, a);
      if Truthy(res) {
        parts := parts[a := res];
      }
      i := i + 1;
    }
    assert PartNames[0] == "host" && PartNames[1] == "user" && PartNames[2] == "db" && PartNames[3] == "port";
    if c.password != Null {
      parts := parts["passwd" := c.password];
    }
    if "port" in parts {
      var port := PyInt(parts["port"]);
      if port.Err? {
        return Err(port.error);
      }
      parts := parts["port" := Int(port.value)];
    }
    if Truthy(c.socket) {
      parts := parts["unix_socket" := c.socket];
    }
    r := Ok(parts);
  }

  /** The text before the first `sep` of `s` and the text after it; all of
      `s` and "" when `sep` does not occur. */
  function SplitAtFirst(s: string, sep: char): (string, string)
    decreases |s|
  {
    if |s| == 0 then ("", "")
    else if s[0] == sep then ("", s[1..])
    else
      var (before, after) := SplitAtFirst(s[1..], sep);
      ([s[0]] + before, after)
  }

  /** Splitting `u + [sep] + h` at its first `sep` gives `u` and `h` back
      when `u` has no `sep`. */
  lemma {:induction false} SplitAfterPrefix(u: string, sep: char, h: string)
    requires sep !in u
    ensures SplitAtFirst(u + [sep] + h, sep) == (u, h)
    decreases |u|
  {
    var s := u + [sep] + h;
    if |u| > 0 {
      assert s[0] == u[0] && s[1..] == u[1..] + [sep] + h;
      SplitAfterPrefix(u[1..], sep, h);
      assert [u[0]] + u[1..] == u;
    } else {
      assert s[1..] == h;
    }
  }

  /** `Connection.getConnectionDisplayValues`: `"%s@%s" % (user, host)`.
      When the user's text has no `@`, the first `@` separates the two
      parts again. */
  function DisplayValues(c: Connection, fmt: Formatter): (r: string)
    ensures '@' !in fmt.StrOf(c.user) ==> SplitAtFirst(r, '@') == (fmt.StrOf(c.user), fmt.StrOf(c.host))
  {
    var u, h := fmt.StrOf(c.user), fmt.StrOf(c.host);
    if '@' !in u then SplitAfterPrefix(u, '@', h); u + "@" + h
    else u + "@" + h
  }
}
