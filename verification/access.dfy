/**
  The public lookups: `Get` turns the evaluator's sentinels into an error
  paired with the caller's default, and the typed getters additionally
  check the kind of the value found.
 */
module Access {
  import opened Options
  import opened Json
  import opened Evaluate

  /** The errors the lookups report. */
  datatype Error =
    | NotFoundError
    | UnknownPathTypeError
    | MismatchedPathTypeError
    | UnexpectedTypeError
  {
    function Message(): string
    {
      match this
      case NotFoundError => "not found"
      case UnknownPathTypeError => "unknown path type"
      case MismatchedPathTypeError => "mismatched path type"
      case UnexpectedTypeError => "unexpected type"
    }
  }

  /** A value together with an error, the error being None on success. */
  datatype Reply<+T> = Reply(value: T, err: Option<Error>)

  /** The error a sentinel outcome is reported as. */
  function SentinelError(o: Outcome): (e: Error)
    requires o.IsSentinel()
    ensures e != UnexpectedTypeError
  {
    match o
    case NotFound => NotFoundError
    case Unknown => UnknownPathTypeError
    case TypeMismatch => MismatchedPathTypeError
  }

  /** Evaluates the path. Fails, with the default, exactly when the
      evaluator yields a sentinel at the top; otherwise yields the value or
      aggregate found, which is never itself a sentinel (a found null and an
      aggregate holding sentinels are successes). */
  function Get(decoded: Node, path: seq<Selector>, default: Node): (r: Reply<Outcome>)
    ensures r.err.Some? <==> Eval(decoded, path).IsSentinel()
    ensures r.err.None? ==> r.value == Eval(decoded, path)
    ensures r.err.Some? ==> r.value == Val(default) && r.err.value != UnexpectedTypeError
    ensures r.err == Some(NotFoundError) <==> Eval(decoded, path).NotFound?
    ensures r.err == Some(UnknownPathTypeError) <==> Eval(decoded, path).Unknown?
    ensures r.err == Some(MismatchedPathTypeError) <==> Eval(decoded, path).TypeMismatch?
    ensures r.value.Val? || r.value.Agg?
  {
    var o := Eval(decoded, path);
    if o.IsSentinel() then Reply(Val(default), Some(SentinelError(o)))
    else Reply(o, None)
  }

  /** Looks up a string: succeeds exactly when the path leads to a string
      value, passes on the lookup's own error unchanged, and reports an
      unexpected type for any other value, aggregates included. */
  function GetString(decoded: Node, path: seq<Selector>, default: string): (r: Reply<string>)
    ensures r.err.None? <==> Eval(decoded, path).Val? && Eval(decoded, path).node.Str?
    ensures r.err.None? ==> r.value == Eval(decoded, path).node.s
    ensures r.err.Some? ==> r.value == default
    ensures Get(decoded, path, Null).err.Some? ==> r.err == Get(decoded, path, Null).err
    ensures Get(decoded, path, Null).err.None? && r.err.Some? ==> r.err == Some(UnexpectedTypeError)
  {
    var got := Get(decoded, path, Null);
    if got.err.Some? then Reply(default, got.err)
    else
      match got.value
      case Val(Str(s)) => Reply(s, None)
      case _ => Reply(default, Some(UnexpectedTypeError))
  }

  /** Looks up a number, with the same error policy as `GetString`. */
  function GetNumber(decoded: Node, path: seq<Selector>, default: Float64): (r: Reply<Float64>)
    ensures r.err.None? <==> Eval(decoded, path).Val? && Eval(decoded, path).node.Num?
    ensures r.err.None? ==> r.value == Eval(decoded, path).node.n
    ensures r.err.Some? ==> r.value == default
    ensures Get(decoded, path, Null).err.Some? ==> r.err == Get(decoded, path, Null).err
    ensures Get(decoded, path, Null).err.None? && r.err.Some? ==> r.err == Some(UnexpectedTypeError)
  {
    var got := Get(decoded, path, Null);
    if got.err.Some? then Reply(default, got.err)
    else
      match got.value
      case Val(Num(n)) => Reply(n, None)
      case _ => Reply(default, Some(UnexpectedTypeError))
  }

  /** Looks up a boolean, with the same error policy as `GetString`. */
  function GetBool(decoded: Node, path: seq<Selector>, default: bool): (r: Reply<bool>)
    ensures r.err.None? <==> Eval(decoded, path).Val? && Eval(decoded, path).node.Bool?
    ensures r.err.None? ==> r.value == Eval(decoded, path).node.b
    ensures r.err.Some? ==> r.value == default
    ensures Get(decoded, path, Null).err.Some? ==> r.err == Get(decoded, path, Null).err
    ensures Get(decoded, path, Null).err.None? && r.err.Some? ==> r.err == Some(UnexpectedTypeError)
  {
    var got := Get(decoded, path, Null);
    if got.err.Some? then Reply(default, got.err)
    else
      match got.value
      case Val(Bool(b)) => Reply(b, None)
      case _ => Reply(default, Some(UnexpectedTypeError))
  }
}
