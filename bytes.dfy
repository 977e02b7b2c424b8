/** Fixed-width unsigned integers and the big-endian byte layouts used on the wire
    (Go's encoding/binary.BigEndian). */
module Bytes {

  type u8 = x: int | 0 <= x < 0x100
  type u16 = x: int | 0 <= x < 0x1_0000
  type u32 = x: int | 0 <= x < 0x1_0000_0000
  type u64 = x: int | 0 <= x < 0x1_0000_0000_0000_0000

  /** Go's uint8 arithmetic: the result of + or - taken modulo 2^8. */
  function Wrap8(x: int): (r: u8)
    ensures 0 <= x < 0x100 ==> r == x
    ensures -0x100 <= x < 0 ==> r == x + 0x100
  {
    x % 0x100
  }

  /** Go's uint16 arithmetic: the result of + or - taken modulo 2^16. */
  function Wrap16(x: int): (r: u16)
    ensures 0 <= x < 0x1_0000 ==> r == x
    ensures -0x1_0000 <= x < 0 ==> r == x + 0x1_0000
    ensures 0x1_0000 <= x < 0x2_0000 ==> r == x - 0x1_0000
  {
    x % 0x1_0000
  }

  /** Counting up in uint16 steps agrees with counting in integers and wrapping once. */
  lemma Wrap16Succ(x: int)
    ensures Wrap16(Wrap16(x) + 1) == Wrap16(x + 1)
  {
    var q := x / 0x1_0000;
    assert x == q * 0x1_0000 + Wrap16(x);
    assert x + 1 == q * 0x1_0000 + (Wrap16(x) + 1);
    if Wrap16(x) + 1 == 0x1_0000 {
      assert x + 1 == (q + 1) * 0x1_0000;
    }
  }

  /** Go's uint32 arithmetic. */
  function Wrap32(x: int): (r: u32)
    ensures 0 <= x < 0x1_0000_0000 ==> r == x
    ensures 0x1_0000_0000 <= x < 0x2_0000_0000 ==> r == x - 0x1_0000_0000
  {
    x % 0x1_0000_0000
  }

  function Read16(s: seq<u8>): (r: u16)
    requires |s| >= 2
  {
    (s[0] as int) * 0x100 + s[1] as int
  }

  function Read32(s: seq<u8>): (r: u32)
    requires |s| >= 4
  {
    (Read16(s[..2]) as int) * 0x1_0000 + Read16(s[2..4]) as int
  }

  function Read64(s: seq<u8>): (r: u64)
    requires |s| >= 8
  {
    (Read32(s[..4]) as int) * 0x1_0000_0000 + Read32(s[4..8]) as int
  }

  /** binary.BigEndian.PutUint16 */
  function BE16(v: u16): (r: seq<u8>)
    ensures |r| == 2
  {
    [v / 0x100, v % 0x100]
  }

  /** binary.BigEndian.PutUint32 */
  function BE32(v: u32): (r: seq<u8>)
    ensures |r| == 4
  {
    BE16(v / 0x1_0000) + BE16(v % 0x1_0000)
  }

  /** binary.BigEndian.PutUint64 */
  function BE64(v: u64): (r: seq<u8>)
    ensures |r| == 8
  {
    BE32(v / 0x1_0000_0000) + BE32(v % 0x1_0000_0000)
  }

  /** Two encoded bytes read back as the value. */
  lemma ReadBE16(v: u16)
    ensures Read16(BE16(v)) == v
  {
  }

  /** Four encoded bytes read back as the value. */
  lemma ReadBE32(v: u32)
    ensures Read32(BE32(v)) == v
  {
    var hi, lo := BE16(v / 0x1_0000), BE16(v % 0x1_0000);
    assert BE32(v)[..2] == hi && BE32(v)[2..4] == lo;
    ReadBE16(v / 0x1_0000);
    ReadBE16(v % 0x1_0000);
  }

  /** Eight encoded bytes read back as the value. */
  lemma ReadBE64(v: u64)
    ensures Read64(BE64(v)) == v
  {
    var hi, lo := BE32(v / 0x1_0000_0000), BE32(v % 0x1_0000_0000);
    assert BE64(v)[..4] == hi && BE64(v)[4..8] == lo;
    ReadBE32(v / 0x1_0000_0000);
    ReadBE32(v % 0x1_0000_0000);
  }

  /** Every two bytes are the encoding of the value they are read as. */
  lemma BE16OfRead(s: seq<u8>)
    requires |s| == 2
    ensures BE16(Read16(s)) == s
  {
  }

  /** Every four bytes are the encoding of the value they are read as. */
  lemma BE32OfRead(s: seq<u8>)
    requires |s| == 4
    ensures BE32(Read32(s)) == s
  {
    var hi, lo := Read16(s[..2]), Read16(s[2..4]);
    assert Read32(s) / 0x1_0000 == hi && Read32(s) % 0x1_0000 == lo;
    BE16OfRead(s[..2]);
    BE16OfRead(s[2..4]);
    assert s == s[..2] + s[2..4];
  }

  /** Go's int16(uint16) conversion: two's complement reinterpretation. */
  function ToInt16(v: u16): (r: int)
    ensures -0x8000 <= r < 0x8000
    ensures Wrap16(r) == v
  {
    if v < 0x8000 then v else v - 0x1_0000
  }
}
