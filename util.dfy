/** Values shared by every module of the model: optional values, bytes, and how a
    run of the script ends (normally, through sys.exit, or through an uncaught exception). */
module Util {

  datatype Option<T> = None | Some(value: T)

  newtype byte = x: int | 0 <= x < 256

  /** The Python exceptions the script can let escape. */
  datatype PyError = KeyError | NameError | ZeroDivisionError

  /** How the process ends: it runs to the end, calls sys.exit(code), or raises. */
  datatype Status = Completed | Exited(code: int) | Raised(error: PyError)

  /** A step that either yields a value or ends the process with a status. */
  datatype Run<T> = Ok(value: T) | Halt(status: Status)

  /** Python's `c * n` on a one-character string: n copies, none when n <= 0. */
  function Repeat(c: char, n: int): (r: string)
    ensures |r| == if n <= 0 then 0 else n
    ensures forall i :: 0 <= i < |r| ==> r[i] == c
  {
    if n <= 0 then [] else [c] + Repeat(c, n - 1)
  }

  function Min(a: int, b: int): int {
    if a <= b then a else b
  }
}
