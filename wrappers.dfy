/**
 * Option, Result and the error values shared by every module of the model.
 *
 * Go functions return `(value, error)`; the model returns a `Result`.  Go
 * errors are built with `fmt.Errorf("<context>: %w", err)`, which the model
 * keeps as a `Wrapped` chain so that contracts can say which step failed.
 */
module Wrappers {

  datatype Option<+T> = None | Some(value: T) {
    /** The value, or `default` when there is none. */
    function GetOr(default: T): T {
      if Some? then value else default
    }
  }

  datatype Result<+T> = Ok(value: T) | Err(error: Error)

  /** A Go `[]byte`. */
  type Bytes = seq<bv8>

  /** The environment operations whose failure the model tells apart. */
  datatype Op =
    | Stat          // os.Stat or os.Lstat of a path
    | Info          // fs.DirEntry.Info during a directory walk
    | MakeHeader    // tar.FileInfoHeader
    | WriteHeader   // tar.Writer.WriteHeader
    | Open          // os.Open
    | Copy          // io.Copy into the tar writer
    | ReadDir       // listing a directory during a walk
    | Mkdir         // os.MkdirAll
    | WriteFile     // os.WriteFile

  /** A Go error value. */
  datatype Error =
    | NotExist                                // an error for which errors.Is(err, os.ErrNotExist)
    | Failed(op: Op)                          // any other failure of an environment operation
    | External(source: string)                // an error produced by a library the model keeps opaque
    | Message(text: string)                   // fmt.Errorf with no wrapped cause
    | Wrapped(context: string, inner: Error)  // fmt.Errorf("<context>: %w", inner)
    | Formatted(context: string, inner: Error)  // fmt.Errorf("<context>: %s", inner): same text, the cause is not unwrappable
}
