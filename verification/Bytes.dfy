/** Bytes, fixed-width integers and the big-endian helpers of dtls/internal/util/util.go. */
module Bytes {
  type byte = x: int | 0 <= x < 0x100
  type u16 = x: int | 0 <= x < 0x1_0000
  type u32 = x: int | 0 <= x < 0x1_0000_0000

  const U24_LIMIT := 0x100_0000
  const U32_LIMIT := 0x1_0000_0000

  /** Conversion of an int to uint16. */
  function Wrap16(n: int): u16 {
    n % 0x1_0000
  }

  lemma Wrap16Next(n: int)
    ensures Wrap16(Wrap16(n) + 1) == Wrap16(n + 1)
  {
  }

  /** binary.BigEndian.PutUint16. */
  function PutU16(n: u16): (b: seq<byte>)
    ensures |b| == 2
  {
    [n / 0x100, n % 0x100]
  }

  /** The big-endian uint16 at position `i`. */
  function GetU16(b: seq<byte>, i: nat): u16
    requires i + 2 <= |b|
  {
    b[i] as int * 0x100 + b[i + 1]
  }

  lemma U16RoundTrip(n: u16, b: seq<byte>, i: nat)
    requires i + 2 <= |b| && b[i..i + 2] == PutU16(n)
    ensures GetU16(b, i) == n
  {
    var d := b[i..i + 2];
    assert b[i] == d[0] && b[i + 1] == d[1];
  }

  /** PutBigEndianUint24: the top byte of the uint32 is dropped. */
  function PutU24(n: u32): (b: seq<byte>)
    ensures |b| == 3
  {
    [n / 0x1_0000 % 0x100, n / 0x100 % 0x100, n % 0x100]
  }

  /** BigEndianUint24 at position `i`. */
  function GetU24(b: seq<byte>, i: nat): (n: u32)
    requires i + 3 <= |b|
    ensures n < U24_LIMIT
  {
    b[i] as int * 0x1_0000 + b[i + 1] as int * 0x100 + b[i + 2]
  }

  lemma U24Digits(n: u32)
    ensures n / 0x1_0000 % 0x100 * 0x1_0000 + n / 0x100 % 0x100 * 0x100 + n % 0x100 == n % U24_LIMIT
  {
    var a := n / 0x100;
    var b := a / 0x100;
    var c := b / 0x100;
    assert n / 0x1_0000 == b;
    assert n == c * U24_LIMIT + (b % 0x100 * 0x1_0000 + a % 0x100 * 0x100 + n % 0x100);
  }

  lemma U24RoundTrip(n: u32, b: seq<byte>, i: nat)
    requires i + 3 <= |b| && b[i..i + 3] == PutU24(n)
    ensures GetU24(b, i) == n % U24_LIMIT
  {
    U24Digits(n);
    var d := b[i..i + 3];
    assert b[i] == d[0] && b[i + 1] == d[1] && b[i + 2] == d[2];
  }

  /** The concatenation of a list of byte strings. */
  function Concat(parts: seq<seq<byte>>): (s: seq<byte>) {
    if parts == [] then [] else parts[0] + Concat(parts[1..])
  }

  lemma {:induction false} ConcatAppend(a: seq<seq<byte>>, b: seq<seq<byte>>)
    ensures Concat(a + b) == Concat(a) + Concat(b)
  {
    if a == [] {
      assert a + b == b;
    } else {
      ConcatAppend(a[1..], b);
      assert (a + b)[1..] == a[1..] + b;
      assert a[0] + (Concat(a[1..]) + Concat(b)) == a[0] + Concat(a[1..]) + Concat(b);
    }
  }

  lemma ConcatSnoc(a: seq<seq<byte>>, x: seq<byte>)
    ensures Concat(a + [x]) == Concat(a) + x
  {
    ConcatAppend(a, [x]);
    assert Concat([x]) == x + Concat([]);
  }
}
