/** Values shared by every part of the model. */
module Common {

  datatype Option<+T> = None | Some(value: T)

  type byte = x: int | 0 <= x < 256

  /** The bytes of a C string before its terminator. */
  type CString = s: seq<byte> | 0 !in s

  /** A string literal of the source. */
  function Ascii(s: string): CString
    requires forall i | 0 <= i < |s| :: 0 < s[i] as int < 128
  {
    if s == [] then [] else [s[0] as int] + Ascii(s[1..])
  }

  /** The outcome of one durable write. A failed write may have left the old
      value or the new one behind, so `FailedNew` is an error that reached flash. */
  datatype Outcome = Done | FailedOld | FailedNew

  predicate Reached(o: Outcome) {
    o != FailedOld
  }

  datatype Err = EspOk | EspInvalidArg | EspInvalidState | EspFail

  const SECOND := 1_000_000

  function Min(a: int, b: int): int {
    if a < b then a else b
  }

  function Max(a: int, b: int): int {
    if a < b then b else a
  }
}
