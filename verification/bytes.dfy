/** Go strings are immutable byte sequences; the model keeps them as such. */
module Bytes {

  newtype byte = x: int | 0 <= x < 0x100

  /** A Go `string`: its `len` is the number of bytes, `s[i]` is a byte. */
  type GoString = seq<byte>

  /** 'A'..'Z' */
  predicate IsUpper(c: byte) {
    0x41 <= c <= 0x5A
  }

  /** 'a'..'z' */
  predicate IsLowerLetter(c: byte) {
    0x61 <= c <= 0x7A
  }

  predicate IsLetter(c: byte) {
    IsUpper(c) || IsLowerLetter(c)
  }

  predicate IsAscii(c: byte) {
    c < 0x80
  }

  predicate AllAscii(s: GoString) {
    forall i :: 0 <= i < |s| ==> IsAscii(s[i])
  }

  /** The downcasing step of the logging façade: `c - 'A' + 'a'` on 'A'..'Z', identity elsewhere. */
  function Lower(c: byte): byte {
    if IsUpper(c) then c - 0x41 + 0x61 else c
  }

  /** Downcasing leaves no upper-case letter, keeps letters letters, and keeps non-letters and non-ASCII bytes as they were. */
  lemma LowerClasses(c: byte)
    ensures !IsUpper(Lower(c))
    ensures IsLetter(Lower(c)) <==> IsLetter(c)
    ensures IsAscii(Lower(c)) <==> IsAscii(c)
    ensures !IsLetter(c) ==> Lower(c) == c
  {
  }

  /** `n` zero bytes, as `make([]byte, n)` yields. */
  function Zeros(n: nat): (z: GoString)
    ensures |z| == n
    ensures forall i :: 0 <= i < n ==> z[i] == 0
  {
    seq(n, _ => 0)
  }
}
