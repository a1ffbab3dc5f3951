/** Bytes, and the little-endian integers read out of them. */
module Bytes {
  newtype byte = x: int | 0 <= x < 256

  function FromLE(b: seq<byte>): nat {
    if b == [] then 0 else b[0] as nat + 256 * FromLE(b[1..])
  }

  function Power256(width: nat): (p: nat)
    ensures p > 0
  {
    if width == 0 then 1 else 256 * Power256(width - 1)
  }

  function ToLE(n: nat, width: nat): (b: seq<byte>)
    ensures |b| == width
  {
    if width == 0 then [] else [(n % 256) as byte] + ToLE(n / 256, width - 1)
  }

  lemma {:induction false} FromToLE(n: nat, width: nat)
    requires n < Power256(width)
    ensures FromLE(ToLE(n, width)) == n
    decreases width
  {
    if width > 0 {
      FromToLE(n / 256, width - 1);
      assert ToLE(n, width)[1..] == ToLE(n / 256, width - 1);
    }
  }

  function Zeros(n: nat): (z: seq<byte>)
    ensures |z| == n && forall i :: 0 <= i < n ==> z[i] == 0
  {
    seq(n, _ => 0)
  }

  lemma {:induction false} ZerosAreZero(b: seq<byte>)
    requires forall i :: 0 <= i < |b| ==> b[i] == 0
    ensures FromLE(b) == 0
    decreases |b|
  {
    if b != [] { ZerosAreZero(b[1..]); }
  }
}
