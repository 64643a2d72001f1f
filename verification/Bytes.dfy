/** Bytes and the 32-bit network byte order used for every integer on the wire. */
module Bytes {
  newtype byte = b: int | 0 <= b < 256

  type Bytes = seq<byte>

  const INT_MAX: int := 0x7FFF_FFFF
  const INT_MIN: int := -0x8000_0000
  const TWO_32: int := 0x1_0000_0000

  predicate IsInt32(x: int) {
    INT_MIN <= x <= INT_MAX
  }

  /** htonl followed by memcpy: the two's complement image of x, most significant byte first. */
  function EncodeInt32(x: int): (s: Bytes)
    requires IsInt32(x)
    ensures |s| == 4
  {
    var u := if x < 0 then x + TWO_32 else x;
    [ (u / 0x100_0000) as byte, (u / 0x1_0000 % 0x100) as byte, (u / 0x100 % 0x100) as byte, (u % 0x100) as byte ]
  }

  /** memcpy followed by ntohl, read back as a signed 32-bit integer. */
  function DecodeInt32(s: Bytes): (x: int)
    requires |s| == 4
    ensures IsInt32(x)
  {
    var u := s[0] as int * 0x100_0000 + s[1] as int * 0x1_0000 + s[2] as int * 0x100 + s[3] as int;
    if u > INT_MAX then u - TWO_32 else u
  }

  /** Every signed 32-bit integer survives the trip over the wire. */
  lemma Int32RoundTrip(x: int)
    requires IsInt32(x)
    ensures DecodeInt32(EncodeInt32(x)) == x
  {
    var u := if x < 0 then x + TWO_32 else x;
    var q := u / 0x100;
    assert u == q * 0x100 + u % 0x100;
    assert u / 0x1_0000 == q / 0x100;
    assert q == q / 0x100 * 0x100 + q % 0x100;
    assert u / 0x100_0000 == q / 0x100 / 0x100;
  }

  /** Every group of four bytes is the image of exactly one integer. */
  lemma WordRoundTrip(s: Bytes)
    requires |s| == 4
    ensures EncodeInt32(DecodeInt32(s)) == s
  {
    var x := DecodeInt32(s);
    var u := if x < 0 then x + TWO_32 else x;
    assert u / 0x100 == s[0] as int * 0x1_0000 + s[1] as int * 0x100 + s[2] as int;
    assert u / 0x1_0000 == s[0] as int * 0x100 + s[1] as int;
    assert u / 0x100_0000 == s[0] as int;
  }

  /** The order of strings of equal length that compares the first bytes that differ. */
  predicate Precedes(s: Bytes, t: Bytes) {
    exists k :: 0 <= k < |s| && k < |t| && s[..k] == t[..k] && s[k] < t[k]
  }

  /** Network byte order: the images of integers are ordered as the integers are, and those of the
      negative ones come last. */
  lemma ImagesAreOrdered(x: int, y: int)
    requires IsInt32(x) && IsInt32(y) && x < y
    ensures x < 0 <= y ==> Precedes(EncodeInt32(y), EncodeInt32(x))
    ensures !(x < 0 <= y) ==> Precedes(EncodeInt32(x), EncodeInt32(y))
  {
    var u, v := if x < 0 then x + TWO_32 else x, if y < 0 then y + TWO_32 else y;
    if x < 0 <= y {
      SmallerPrecedes(y, x, v, u);
    } else {
      SmallerPrecedes(x, y, u, v);
    }
  }

  lemma SmallerPrecedes(x: int, y: int, u: int, v: int)
    requires IsInt32(x) && IsInt32(y) && 0 <= u < v < TWO_32
    requires u == (if x < 0 then x + TWO_32 else x) && v == (if y < 0 then y + TWO_32 else y)
    ensures Precedes(EncodeInt32(x), EncodeInt32(y))
  {
    var s, t := EncodeInt32(x), EncodeInt32(y);
    Digits(u);
    Digits(v);
    var k := if s[0] != t[0] then 0 else if s[1] != t[1] then 1 else if s[2] != t[2] then 2 else 3;
    assert s[..k] == t[..k] && s[k] < t[k];
  }

  lemma Digits(u: int)
    requires 0 <= u < TWO_32
    ensures u == u / 0x100_0000 * 0x100_0000 + u / 0x1_0000 % 0x100 * 0x1_0000 + u / 0x100 % 0x100 * 0x100 + u % 0x100
  {
    var q := u / 0x100;
    assert u / 0x1_0000 == q / 0x100;
    assert u / 0x100_0000 == q / 0x100 / 0x100;
  }

  /** n zero bytes: the content of a freshly sized std::vector<char>. */
  function Zeros(n: nat): (s: Bytes)
    ensures |s| == n && forall k :: 0 <= k < n ==> s[k] == 0
  {
    seq(n, _ => 0)
  }
}
