/** Bytes, the machine word and optional values, shared by the models. */
module Basics {
  type byte = b: int | 0 <= b < 256

  /** 2^64 */
  const WORD := 0x1_0000_0000_0000_0000

  datatype Option<+T> = None | Some(value: T)

  function Min(a: nat, b: nat): nat { if a <= b then a else b }

  function Zeros(n: nat): (z: seq<byte>)
    ensures |z| == n && forall i :: 0 <= i < n ==> z[i] == 0
  {
    seq(n, _ => 0)
  }
}
