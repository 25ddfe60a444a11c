/**
  The `log_exceptions` decorator: it runs the wrapped call, logs and swallows
  the four exception classes it lists, and returns whatever `ret` then holds.
  The logging itself is output and is not modelled.
*/
module Misc {
  /** The exception classes a wrapped call may raise. */
  datatype ExceptionKind = TypeError | ValueError | RuntimeError | IndexError | OtherException

  /** The classes listed in the wrapper's `except` clause. */
  predicate Caught(e: ExceptionKind)
  {
    e.TypeError? || e.ValueError? || e.RuntimeError? || e.IndexError?
  }

  /** How the wrapped call ended: it returned a value, or it raised. */
  datatype Call<T> = Returned(value: T) | Raised(kind: ExceptionKind)

  /** What the caller of the wrapper sees: a returned value, or an exception that escapes. */
  datatype Wrapped<T> = Returns(value: T) | Escapes(kind: ExceptionKind)

  /**
    The wrapper. `none` is Python's `None`, the value `ret` holds when the
    wrapped call does not return.
  */
  function Wrap<T>(call: Call<T>, none: T): (r: Wrapped<T>)
    ensures r.Escapes? <==> call.Raised? && !Caught(call.kind)
    ensures r.Escapes? ==> r.kind == call.kind
    ensures call.Returned? ==> r == Returns(call.value)
    ensures call.Raised? && Caught(call.kind) ==> r == Returns(none)
  {
    match call
    case Returned(v) => Returns(v)
    case Raised(e) => if Caught(e) then Returns(none) else Escapes(e)
  }
}
