/** Go's fixed-width integers, byte strings, decimals and the error values of the wire codec. */
module Machine {

  const TWO32 := 0x1_0000_0000
  const TWO64 := 0x1_0000_0000_0000_0000
  const TWO31 := 0x8000_0000
  const TWO63 := 0x8000_0000_0000_0000

  /** The largest `int`, hence the longest slice, on a 64-bit platform. */
  const MAX_INT := 0x7FFF_FFFF_FFFF_FFFF

  type byte = b: int | 0 <= b < 256
  type bytes = seq<byte>
  type uint32 = v: int | 0 <= v < 0x1_0000_0000
  type int32 = v: int | -0x8000_0000 <= v < 0x8000_0000
  type uint64 = v: int | 0 <= v < 0x1_0000_0000_0000_0000

  /** A `LegacyDec`, as the number of its units of 10^-18. */
  type Dec = int

  datatype Option<+T> = None | Some(value: T)

  datatype Error =
    | IntOverflow
    | UnexpectedEOF
    | InvalidLength
    | UnexpectedEndOfGroup
    | IllegalWireType
    | EndGroupForNonGroup
    | IllegalTag
    | WrongWireType(field: int)

  /** `int64(x)` of an unbounded sum: keep 64 bits, read them in two's complement. */
  function ToInt64(x: int): (r: int)
    ensures -TWO63 <= r < TWO63
    ensures -TWO63 <= x < TWO63 ==> r == x
    ensures TWO63 <= x < TWO64 + TWO63 ==> r == x - TWO64
  {
    (x + TWO63) % TWO64 - TWO63
  }

  /** `int32(x)`. */
  function ToInt32(x: int): (r: int32)
    ensures -TWO31 <= x < TWO31 ==> r == x
    ensures TWO31 <= x < TWO32 ==> r == x - TWO32
  {
    (x + TWO31) % TWO32 - TWO31
  }

  /** `uint64(x)` of a signed value: sign extension. */
  function ToUint64(x: int): (r: uint64)
    ensures 0 <= x < TWO64 ==> r == x
    ensures -TWO64 <= x < 0 ==> r == x + TWO64
  {
    x % TWO64
  }

  /** The low 64 bits: what a sum of shifted groups leaves in a `uint64`. */
  function Low64(v: nat): (r: uint64)
    ensures r <= v
    ensures v < TWO64 ==> r == v
  {
    v % TWO64
  }

  /** The low 32 bits: what the same sum leaves in a `uint32`. */
  function Low32(v: nat): (r: uint32)
    ensures r <= v
    ensures v < TWO32 ==> r == v
  {
    v % TWO32
  }

  /** Two strings that agree on `n` bytes agree on the first `k` of them and on the others. */
  lemma Window(s: bytes, t: bytes, k: nat, n: nat)
    requires k <= n <= |s| && n <= |t| && s[..n] == t[..n]
    ensures s[..k] == t[..k]
    ensures s[k..][..n - k] == t[k..][..n - k]
  {
    assert s[..k] == s[..n][..k];
    assert t[..k] == t[..n][..k];
    assert s[k..][..n - k] == s[..n][k..];
    assert t[k..][..n - k] == t[..n][k..];
  }

  lemma Assoc(a: bytes, b: bytes, c: bytes)
    ensures a + b + c == a + (b + c)
  {
  }
}
