/**
 * The few pieces of the Go runtime the test fixtures rely on: bytes,
 * 64-bit `int` arithmetic and the built-in `copy` on a byte slice.
 */
module Go {

  /** A Go `byte`. Characters below 256 keep ASCII test data readable. */
  type Byte = c: char | c as int < 256 witness '_'

  const MinInt64: int := -0x8000_0000_0000_0000
  const MaxInt64: int := 0x7fff_ffff_ffff_ffff
  const TwoTo64: int := 0x1_0000_0000_0000_0000

  /** Two's-complement wrap-around of a Go `int` (64 bits wide). */
  function Wrap64(x: int): (r: int)
    ensures MinInt64 <= r <= MaxInt64
    ensures MinInt64 <= x <= MaxInt64 ==> r == x
    ensures MaxInt64 < x <= MaxInt64 + TwoTo64 ==> r == x - TwoTo64
    ensures (x - r) % TwoTo64 == 0
  {
    (x - MinInt64) % TwoTo64 + MinInt64
  }

  /** Number of bytes `copy(dst[off:], src)` transfers into a slice of length `len`. */
  function CopyCount(len: nat, off: nat, srcLen: nat): (n: nat)
    requires off <= len
    ensures n <= srcLen && off + n <= len
    ensures n == srcLen || off + n == len
  {
    if srcLen <= len - off then srcLen else len - off
  }

  /**
   * The contents of `dst` after `copy(dst[off:], src)`: the first
   * `CopyCount` bytes of `src` land at `off`, everything else stays.
   */
  function Overwrite(dst: seq<Byte>, off: nat, src: seq<Byte>): (r: seq<Byte>)
    requires off <= |dst|
    ensures |r| == |dst|
  {
    seq(|dst|, k requires 0 <= k < |dst| =>
      if off <= k < off + CopyCount(|dst|, off, |src|) then src[k - off] else dst[k])
  }

  /** Byte `k` after the copy: from `src` inside the written range, from `dst` elsewhere. */
  lemma OverwriteAt(dst: seq<Byte>, off: nat, src: seq<Byte>, k: nat)
    requires off <= |dst| && k < |dst|
    ensures Overwrite(dst, off, src)[k]
         == if off <= k < off + CopyCount(|dst|, off, |src|) then src[k - off] else dst[k]
  {
  }

  /** Go's built-in `copy(dst[off:], src)`; slicing past the end is the caller's panic. */
  method Copy(dst: array<Byte>, off: nat, src: seq<Byte>) returns (n: nat)
    requires off <= dst.Length
    modifies dst
    ensures n == CopyCount(dst.Length, off, |src|)
    ensures dst[..] == Overwrite(old(dst[..]), off, src)
  {
    n := CopyCount(dst.Length, off, |src|);
    var i := 0;
    while i < n
      invariant 0 <= i <= n
      invariant forall k :: 0 <= k < dst.Length ==>
        dst[k] == (if off <= k < off + i then src[k - off] else old(dst[k]))
    {
      dst[off + i] := src[i];
      i := i + 1;
    }
    forall k | 0 <= k < dst.Length
      ensures dst[..][k] == Overwrite(old(dst[..]), off, src)[k]
    {
      OverwriteAt(old(dst[..]), off, src, k);
    }
  }
}
