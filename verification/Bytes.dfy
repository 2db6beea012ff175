/** Little-endian fields inside a byte image, and the one way the hive is written: `Put`. */
module Bytes {

  type byte = x: int | 0 <= x < 0x100
  type u16 = x: int | 0 <= x < 0x1_0000
  type u32 = x: int | 0 <= x < 0x1_0000_0000

  function U16(b: seq<byte>, o: nat): u16
    requires o + 2 <= |b|
  {
    b[o] as int + 0x100 * (b[o + 1] as int)
  }

  function U32(b: seq<byte>, o: nat): u32
    requires o + 4 <= |b|
  {
    U16(b, o) as int + 0x1_0000 * (U16(b, o + 2) as int)
  }

  /** The four bytes of `v`; `U32` undoes it. */
  function Le32(v: u32): (r: seq<byte>)
    ensures |r| == 4 && U32(r, 0) == v
  {
    var a := v / 0x100;
    var b := a / 0x100;
    [v % 0x100, a % 0x100, b % 0x100, b / 0x100]
  }

  /** The four bytes at o are those of the number read there. */
  lemma Le32U32(b: seq<byte>, o: nat)
    requires o + 4 <= |b|
    ensures Le32(U32(b, o)) == b[o..o + 4]
  {
    var v := U32(b, o);
    var s := b[o..o + 4];
    assert v % 0x100 == s[0] && v / 0x100 == s[1] as int + 0x100 * (s[2] as int) + 0x1_0000 * (s[3] as int);
    assert v / 0x100 / 0x100 == s[2] as int + 0x100 * (s[3] as int);
  }

  function Le16(v: u16): (r: seq<byte>)
    ensures |r| == 2 && U16(r, 0) == v
  {
    [v % 0x100, v / 0x100]
  }

  function Zeros(n: nat): (r: seq<byte>)
    ensures |r| == n && forall i :: 0 <= i < n ==> r[i] == 0
  {
    seq(n, _ => 0)
  }

  /** The bytes of a little-endian number, lowest first. */
  lemma LittleEndian(b: seq<byte>, o: nat)
    requires o + 4 <= |b|
    ensures U16(b, o) % 0x100 == b[o] && U16(b, o) / 0x100 == b[o + 1]
    ensures U32(b, o) % 0x100 == b[o] && U32(b, o) / 0x100 % 0x100 == b[o + 1]
    ensures U32(b, o) / 0x1_0000 % 0x100 == b[o + 2] && U32(b, o) / 0x100_0000 == b[o + 3]
  {
    var b0, b1, b2, b3 := b[o] as int, b[o + 1] as int, b[o + 2] as int, b[o + 3] as int;
    assert U16(b, o) == b0 + 0x100 * b1 && U32(b, o) == b0 + 0x100 * (b1 + 0x100 * (b2 + 0x100 * b3));
    hide U16, U32;
    LowByte(b0, b1);
    LowByte(b0, b1 + 0x100 * (b2 + 0x100 * b3));
    LowByte(b1, b2 + 0x100 * b3);
    LowByte(b2, b3);
    ByteShift(U32(b, o));
  }

  lemma LowByte(x: nat, rest: nat)
    requires x < 0x100
    ensures (x + 0x100 * rest) % 0x100 == x && (x + 0x100 * rest) / 0x100 == rest
  {
  }

  lemma ByteShift(v: nat)
    ensures v / 0x1_0000 == v / 0x100 / 0x100 && v / 0x100_0000 == v / 0x100 / 0x100 / 0x100
  {
  }

  /** Numbers read from the same bytes are the same. */
  lemma WordsSame(b: seq<byte>, r: seq<byte>, lo: nat, hi: nat)
    requires lo <= hi <= |b| == |r| && forall i :: 0 <= i < |b| && (i < lo || hi <= i) ==> r[i] == b[i]
    ensures forall q :: 0 <= q <= |b| - 4 && (q + 4 <= lo || hi <= q) ==> U32(r, q) == U32(b, q)
    ensures forall q :: 0 <= q <= |b| - 2 && (q + 2 <= lo || hi <= q) ==> U16(r, q) == U16(b, q)
  {
  }

  /** `b` with the bytes `d` stored from offset `o` on. */
  function Put(b: seq<byte>, o: nat, d: seq<byte>): (r: seq<byte>)
    requires o + |d| <= |b|
    ensures |r| == |b|
    ensures forall i :: 0 <= i < |b| ==> r[i] == if o <= i < o + |d| then d[i - o] else b[i]
    ensures forall q :: 0 <= q <= |b| - 4 && (q + 4 <= o || o + |d| <= q) ==> U32(r, q) == U32(b, q)
    ensures forall q :: 0 <= q <= |b| - 2 && (q + 2 <= o || o + |d| <= q) ==> U16(r, q) == U16(b, q)
  {
    hide U16, U32;
    var r := b[..o] + d + b[o + |d|..];
    WordsSame(b, r, o, o + |d|);
    r
  }

  function Put32(b: seq<byte>, o: nat, v: u32): (r: seq<byte>)
    requires o + 4 <= |b|
    ensures r == Put(b, o, Le32(v)) && U32(r, o) == v
  {
    Put(b, o, Le32(v))
  }

  function Put16(b: seq<byte>, o: nat, v: u16): (r: seq<byte>)
    requires o + 2 <= |b|
    ensures r == Put(b, o, Le16(v)) && U16(r, o) == v
  {
    Put(b, o, Le16(v))
  }

  /** `a` and `b` hold the same bytes in [lo, hi). */
  ghost predicate Same(a: seq<byte>, b: seq<byte>, lo: nat, hi: nat)
    requires hi <= |a| && hi <= |b|
  {
    forall i :: lo <= i < hi ==> a[i] == b[i]
  }
}
