/**
 * Errors as the restic/errors package (github.com/pkg/errors) shapes them:
 * an error is io.EOF, some other failure, or a failure wrapped with a
 * message around the error that caused it.
 */
module Errors {
  import opened Wrappers

  datatype Error =
    | EOF                                // io.EOF: the reader has no more bytes
    | Failure(msg: string)               // any other error
    | Wrapped(msg: string, cause: Error) // errors.Wrap(cause, msg)

  /** errors.Cause: unwraps until an error that wraps nothing is reached. */
  function Cause(e: Error): (r: Error)
    ensures !r.Wrapped?
  {
    match e
    case Wrapped(_, c) => Cause(c)
    case _ => e
  }

  /** errors.Wrap for a non-nil error. */
  function Wrap(e: Error, msg: string): (r: Error)
    ensures Cause(r) == Cause(e)
  {
    Wrapped(msg, e)
  }

  /** `errors.Cause(err) == io.EOF` for an error that may be nil (None). */
  function CausedByEOF(err: Option<Error>): (b: bool)
    ensures err == None ==> !b
    ensures err == Some(EOF) ==> b
    ensures err.Some? && err.value.Failure? ==> !b
  {
    err.Some? && Cause(err.value) == EOF
  }

  /** However deeply io.EOF is wrapped, its cause is still io.EOF. */
  lemma {:induction false} WrappedEOF(msgs: seq<string>)
    ensures Cause(WrapAll(EOF, msgs)) == EOF
  {
    if msgs != [] {
      WrappedEOF(msgs[1..]);
    }
  }

  /** The error obtained by wrapping e with each message in turn. */
  function WrapAll(e: Error, msgs: seq<string>): Error {
    if msgs == [] then e else Wrap(WrapAll(e, msgs[1..]), msgs[0])
  }
}
