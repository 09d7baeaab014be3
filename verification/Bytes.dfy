/** Fixed-width integers as they lie in a serialized file (little-endian host order). */
module Bytes {
  type Byte = b: int | 0 <= b < 256
  type U32 = n: int | 0 <= n < 0x1_0000_0000
  type I32 = n: int | -0x8000_0000 <= n < 0x8000_0000
  /** A double is moved as eight uninterpreted bytes. */
  type Double = d: seq<Byte> | |d| == 8 witness [0, 0, 0, 0, 0, 0, 0, 0]

  function PutU32(n: U32): (bs: seq<Byte>)
    ensures |bs| == 4
  {
    [n % 256, n / 256 % 256, n / 65536 % 256, n / 16777216]
  }

  function GetU32(bs: seq<Byte>): U32
    requires |bs| >= 4
  {
    var b0: int, b1: int, b2: int, b3: int := bs[0], bs[1], bs[2], bs[3];
    b0 + 256 * b1 + 65536 * b2 + 16777216 * b3
  }

  /** The two's complement word written for a signed value. */
  function Word(x: I32): U32 {
    if x < 0 then x + 0x1_0000_0000 else x
  }

  function Signed(w: U32): I32 {
    if w >= 0x8000_0000 then w - 0x1_0000_0000 else w
  }

  /** Both are the value modulo 2^32. */
  lemma SignedWord(x: I32, w: U32)
    ensures Signed(Word(x)) == x && Word(Signed(w)) == w
    ensures Word(x) % 0x1_0000_0000 == x % 0x1_0000_0000 && Signed(w) % 0x1_0000_0000 == w % 0x1_0000_0000
  {
  }

  /** The cast `static_cast<uint32_t>` applied to a vector length. */
  function Truncate(n: nat): U32 {
    n % 0x1_0000_0000
  }

  lemma WordRoundTrip(n: U32, tail: seq<Byte>)
    ensures GetU32(PutU32(n) + tail) == n
    ensures (PutU32(n) + tail)[4..] == tail
  {
    var m1 := n / 256;
    var m2 := n / 65536;
    assert m1 / 256 == m2 && m2 / 256 == n / 16777216;
    assert n == 256 * m1 + n % 256;
    assert m1 == 256 * m2 + m1 % 256;
    assert m2 == 256 * (n / 16777216) + m2 % 256;
    var bs := PutU32(n) + tail;
    assert bs[0] == n % 256 && bs[1] == m1 % 256 && bs[2] == m2 % 256 && bs[3] == n / 16777216;
  }

  lemma Regroup(a: seq<Byte>, b: seq<Byte>, c: seq<Byte>)
    ensures (a + b) + c == a + (b + c)
  {
  }
}
