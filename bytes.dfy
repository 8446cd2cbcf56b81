/** Fixed-width integers and the byte-level encodings both sides of the
    protocol rely on: the C++ conversion of an unsigned address to `int`,
    .NET's BitConverter for 32-bit integers, and ASCII encoding of tags. */
module Bytes {

  type byte = x: int | 0 <= x < 0x100
  type u16 = x: int | 0 <= x < 0x1_0000
  type u32 = x: int | 0 <= x < 0x1_0000_0000
  type i32 = x: int | -0x8000_0000 <= x < 0x8000_0000

  const INT32_MAX: i32 := 0x7fff_ffff
  const INT32_MIN: i32 := -0x8000_0000

  datatype Option<T> = None | Some(value: T)

  /** Byte value of an ASCII character, as a literal tag byte. */
  function Code(c: char): byte
    requires c as int < 0x80
  {
    c as int
  }

  /** Conversion of an `unsigned int` to `int`: the unique 32-bit signed
      value congruent to `u` modulo 2^32. */
  function Signed(u: u32): (r: i32)
    ensures (r - u) % 0x1_0000_0000 == 0
  {
    if u < 0x8000_0000 then u else u - 0x1_0000_0000
  }

  lemma SignedInjective(a: u32, b: u32)
    ensures Signed(a) == Signed(b) <==> a == b
  {
  }

  /** `x += 1` on a C# `int` (unchecked context): wraps from the largest
      value to the smallest. */
  function Inc32(x: i32): (r: i32)
    ensures (r - x - 1) % 0x1_0000_0000 == 0
  {
    if x == INT32_MAX then INT32_MIN else x + 1
  }

  /** BitConverter.GetBytes(int) on a little-endian host: the two's
      complement representation, least significant byte first. */
  function GetBytes(x: i32): (b: seq<byte>)
    ensures |b| == 4
  {
    var u := x % 0x1_0000_0000;
    [u % 0x100, u / 0x100 % 0x100, u / 0x1_0000 % 0x100, u / 0x100_0000]
  }

  /** BitConverter.ToInt32(value, startIndex): None where .NET throws,
      that is when fewer than four bytes start at `startIndex`. */
  function ToInt32(b: seq<byte>, start: int): (r: Option<i32>)
    ensures r.Some? <==> 0 <= start && start + 4 <= |b|
  {
    if 0 <= start && start + 4 <= |b| then
      var u: int := b[start] as int + 0x100 * b[start + 1] as int
                    + 0x1_0000 * b[start + 2] as int + 0x100_0000 * b[start + 3] as int;
      Some(Signed(u))
    else
      None
  }

  /** The low byte of the encoding is the value modulo 256: what the relay
      reads when it looks at a single byte of a 32-bit field. */
  lemma GetBytesLow(x: i32)
    ensures GetBytes(x)[0] == x % 0x100
  {
    var u := x % 0x1_0000_0000;
    var q := x / 0x1_0000_0000;
    assert x == 0x1_0000_0000 * q + u;
    assert x == 0x100 * (0x100_0000 * q) + u;
    ModMultipleAdd(0x100_0000 * q, u);
  }

  lemma ModMultipleAdd(k: int, u: int)
    ensures (0x100 * k + u) % 0x100 == u % 0x100
  {
    var r, t := u % 0x100, u / 0x100;
    assert u == 0x100 * t + r;
    assert 0x100 * k + u == 0x100 * (k + t) + r;
  }

  /** Decoding four bytes that GetBytes produced, wherever they sit in a
      packet, gives back the original integer. */
  lemma {:induction false} ToInt32GetBytes(prefix: seq<byte>, x: i32, suffix: seq<byte>)
    ensures ToInt32(prefix + GetBytes(x) + suffix, |prefix|) == Some(x)
  {
    var p := prefix + GetBytes(x) + suffix;
    var k := |prefix|;
    var u := x % 0x1_0000_0000;
    assert p[k..k + 4] == GetBytes(x);
    var b0, b1, b2, b3 := u % 0x100, u / 0x100 % 0x100, u / 0x1_0000 % 0x100, u / 0x100_0000;
    assert p[k] == b0 && p[k + 1] == b1 && p[k + 2] == b2 && p[k + 3] == b3;
    var q1 := u / 0x100;
    var q2 := q1 / 0x100;
    assert u == b0 + 0x100 * q1;
    assert q1 == b1 + 0x100 * q2;
    assert q2 == u / 0x1_0000;
    assert q2 == b2 + 0x100 * b3;
    assert b0 + 0x100 * b1 + 0x1_0000 * b2 + 0x100_0000 * b3 == u;
    assert x == 0x1_0000_0000 * (x / 0x1_0000_0000) + u;
  }

  /** Encoding.ASCII.GetBytes: one byte per character, '?' for characters
      outside ASCII. */
  function Ascii(s: string): (b: seq<byte>)
    ensures |b| == |s|
    ensures forall i :: 0 <= i < |s| && s[i] as int < 0x80 ==> b[i] == s[i] as int
  {
    seq(|s|, i requires 0 <= i < |s| => if s[i] as int < 0x80 then s[i] as int else Code('?'))
  }
}
