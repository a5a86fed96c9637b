/** Python's `fmt % args` for the two conversions the statements use, as
    MySQLdb applies it when a statement is executed with arguments: every
    `%s` takes the next argument (already turned into an SQL literal), `%%`
    stands for one `%`. */
module PyFormat {

  import opened PyBase
  import opened PyText

  const NotEnoughArguments := "not enough arguments for format string"
  const NotAllConverted := "not all arguments converted during string formatting"

  /** `r` with `p` put in front of its value, errors unchanged. */
  function Prepend(p: string, r: Result<string>): Result<string>
  {
    match r
    case Ok(s) => Ok(p + s)
    case Err(e) => Err(e)
  }

  /** `fmt % tuple(args)`, with conversions other than `%s` and `%%` refused. */
  function Interpolate(fmt: string, args: seq<string>): Result<string>
    decreases |fmt|
  {
    if |fmt| == 0 then
      if |args| == 0 then Ok("") else Err(TypeError(NotAllConverted))
    else if fmt[0] != '%' then Prepend([fmt[0]], Interpolate(fmt[1..], args))
    else if |fmt| == 1 then Err(ValueError("incomplete format"))
    else if fmt[1] == '%' then Prepend("%", Interpolate(fmt[2..], args))
    else if fmt[1] == 's' then
      if |args| == 0 then Err(TypeError(NotEnoughArguments))
      else Prepend(args[0], Interpolate(fmt[2..], args[1..]))
    else Err(ValueError("unsupported format character"))
  }

  /** The number of `%s` placeholders of a well-formed format, `None` for a
      format that `%` rejects whatever the arguments. */
  function Holes(fmt: string): Option<nat>
    decreases |fmt|
  {
    if |fmt| == 0 then Some(0)
    else if fmt[0] != '%' then Holes(fmt[1..])
    else if |fmt| == 1 then None
    else if fmt[1] == '%' then Holes(fmt[2..])
    else if fmt[1] == 's' then (match Holes(fmt[2..]) case Some(n) => Some(n + 1) case None => None)
    else None
  }

  /** A well-formed format binds exactly when it is given as many arguments
      as it has placeholders; too few is the "not enough arguments" error. */
  lemma {:induction false} BindsIffArity(fmt: string, args: seq<string>)
    requires Holes(fmt).Some?
    ensures Interpolate(fmt, args).Ok? <==> |args| == Holes(fmt).value
    ensures |args| < Holes(fmt).value ==> Interpolate(fmt, args) == Err(TypeError(NotEnoughArguments))
    decreases |fmt|
  {
    if |fmt| == 0 {
    } else if fmt[0] != '%' {
      BindsIffArity(fmt[1..], args);
    } else if fmt[1] == '%' {
      BindsIffArity(fmt[2..], args);
    } else if |args| > 0 {
      BindsIffArity(fmt[2..], args[1..]);
    }
  }

  lemma {:induction false} PlainText(p: string, tail: string, args: seq<string>)
    requires NoPercent(p)
    ensures Interpolate(p + tail, args) == Prepend(p, Interpolate(tail, args))
    ensures Holes(p + tail) == Holes(tail)
    decreases |p|
  {
    if |p| > 0 {
      assert (p + tail)[1..] == p[1..] + tail;
      PlainText(p[1..], tail, args);
      PrependTwice([p[0]], p[1..], Interpolate(tail, args));
      assert [p[0]] + p[1..] == p;
    } else {
      assert p + tail == tail;
      var r := Interpolate(tail, args);
      if r.Ok? { assert p + r.value == r.value; }
    }
  }

  lemma Hole(a: string, tail: string, args: seq<string>)
    ensures Interpolate("%s" + tail, [a] + args) == Prepend(a, Interpolate(tail, args))
    ensures Holes("%s" + tail) == (match Holes(tail) case Some(n) => Some(n + 1) case None => None)
  {
    assert ("%s" + tail)[2..] == tail;
    assert ([a] + args)[1..] == args;
  }

  lemma PrependTwice(p: string, q: string, r: Result<string>)
    ensures Prepend(p, Prepend(q, r)) == Prepend(p + q, r)
  {
    if r.Ok? {
      assert p + (q + r.value) == (p + q) + r.value;
    }
  }

  /** Escaping every `%` as `%%` makes a query text format back to itself
      when no argument is bound. */
  lemma {:induction false} DoublePercentRoundTrip(q: string)
    ensures Interpolate(DoublePercent(q), []) == Ok(q)
    ensures Holes(DoublePercent(q)) == Some(0)
    decreases |q|
  {
    if |q| > 0 {
      DoublePercentRoundTrip(q[1..]);
      var d := DoublePercent(q);
      if q[0] == '%' {
        assert d[2..] == DoublePercent(q[1..]);
      } else {
        assert d[1..] == DoublePercent(q[1..]);
      }
      assert q == [q[0]] + q[1..];
    }
  }
}
