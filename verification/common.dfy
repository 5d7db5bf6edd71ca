/** Values shared by every part of the journal-entry write pipeline: optional values,
    results, and the error values the Go code builds with `fmt.Errorf`. */
module Common {

  datatype Option<+T> = None | Some(value: T)

  datatype Result<+T, +E> = Success(value: T) | Failure(error: E)

  /** A Go `error`. Most errors of the pipeline wrap an inner one with a context
      phrase (`fmt.Errorf("context: %v", err)`); a leaf error has no cause. */
  datatype Error = Error(message: string, cause: Option<Error>)

  /** `errors.New(msg)` / `fmt.Errorf(msg)` without an inner error. */
  function Leaf(msg: string): (e: Error)
    ensures e.cause.None? && e.message == msg
  {
    Error(msg, None)
  }

  /** `fmt.Errorf(msg + ": %v", inner)`. */
  function Wrap(msg: string, inner: Error): (e: Error)
    ensures e.cause == Some(inner) && e.message == msg
  {
    Error(msg, Some(inner))
  }

  /** `err.Error()`: the text of an error, the context phrases joined by ": ". */
  function Text(e: Error): (s: string)
    ensures |s| >= |e.message|
    ensures s[..|e.message|] == e.message
  {
    match e.cause
    case None => e.message
    case Some(inner) => e.message + ": " + Text(inner)
  }

  /** Stored time stamps are whole seconds since the Unix epoch. */
  type Time = int

  /** `24 * time.Hour`, in seconds. */
  const Day: int := 86400

  /** The Unix seconds of Go's zero `time.Time` (January 1, year 1, UTC): what an
      absent time attribute unmarshals to. */
  const ZeroTime: Time := -62135596800
}
