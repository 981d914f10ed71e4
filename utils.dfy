/** The helpers of kitty's `tools/utils` package that the fixtures call. */
module Utils {
  import opened Go

  /** `utils.Min` on two ints. */
  function Min(a: int, b: int): (m: int)
    ensures m <= a && m <= b
    ensures m == a || m == b
  {
    if a <= b then a else b
  }

  /** `utils.Memset(dest, pattern)` with a one-byte pattern: every byte becomes `pattern`. */
  method Memset(dest: array<Byte>, pattern: Byte)
    modifies dest
    ensures dest[..] == seq(dest.Length, _ => pattern)
  {
    var i := 0;
    while i < dest.Length
      invariant 0 <= i <= dest.Length
      invariant forall k :: 0 <= k < i ==> dest[k] == pattern
    {
      dest[i] := pattern;
      i := i + 1;
    }
  }
}
