/** Return codes (wolfhsm/wh_error.h) and the few shapes every other module shares. */
module Codes {

  datatype Rc =
    | Ok
    | BadArgs
    | NotReady
    | Aborted
    | BufferSize
    | Timeout
    | RequestPending
    | Access
    | NotFound
    | NoSpace
    | PermissionError
    | Other(code: int)

  datatype Option<+T> = None | Some(value: T)

  newtype byte = x: int | 0 <= x < 256

  type uint16 = x: nat | x < 0x1_0000

  type uint32 = x: nat | x < 0x1_0000_0000

  /** A character of a C string: a byte other than the terminator. */
  type cchar = c: char | 0 < c as int < 256 witness 'a'

  type CString = seq<cchar>

  function Min(a: nat, b: nat): nat {
    if a < b then a else b
  }

  function Zeros(n: nat): (z: seq<byte>)
    ensures |z| == n
  {
    seq(n, _ => 0)
  }
}
