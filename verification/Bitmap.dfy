/** The block bitmap: one bit for every four bytes of the image, eight bits to a byte. */
module Bitmap {

  /** The mask 1 << k of a bit inside its byte. */
  function Mask(k: nat): bv8
    requires k < 8
  {
    if k == 0 then 0x01 else if k == 1 then 0x02 else if k == 2 then 0x04 else if k == 3 then 0x08
    else if k == 4 then 0x10 else if k == 5 then 0x20 else if k == 6 then 0x40 else 0x80
  }

  predicate BitOn(x: bv8, k: nat) requires k < 8 { x & Mask(k) != 0 }
  function BitSet(x: bv8, k: nat): bv8 requires k < 8 { x | Mask(k) }
  function BitClr(x: bv8, k: nat): bv8 requires k < 8 { x & !Mask(k) }

  lemma BitLaws(x: bv8, i: nat, j: nat)
    requires i < 8 && j < 8
    ensures BitOn(BitSet(x, i), j) <==> i == j || BitOn(x, j)
    ensures BitOn(BitClr(x, i), j) <==> i != j && BitOn(x, j)
  {
  }

  predicate Tst(bm: seq<bv8>, off: nat)
    requires off < 32 * |bm|
  {
    BitOn(bm[off / 32], off / 4 % 8)
  }

  function Set(bm: seq<bv8>, off: nat): (r: seq<bv8>)
    requires off < 32 * |bm|
    ensures |r| == |bm|
  {
    bm[off / 32 := BitSet(bm[off / 32], off / 4 % 8)]
  }

  function Clr(bm: seq<bv8>, off: nat): (r: seq<bv8>)
    requires off < 32 * |bm|
    ensures |r| == |bm|
  {
    bm[off / 32 := BitClr(bm[off / 32], off / 4 % 8)]
  }

  /** Byte and bit inside the byte determine an offset. */
  lemma SamePlace(off: nat, p: nat)
    requires off % 4 == 0 && p % 4 == 0
    ensures off == p <==> off / 32 == p / 32 && off / 4 % 8 == p / 4 % 8
  {
    assert off == 4 * (off / 4) && p == 4 * (p / 4);
    assert off / 4 == 8 * (off / 32) + off / 4 % 8 && p / 4 == 8 * (p / 32) + p / 4 % 8;
  }

  /** Setting a bit marks that offset and no other. */
  lemma SetMarks(bm: seq<bv8>, off: nat, p: nat)
    requires off < 32 * |bm| && p < 32 * |bm| && off % 4 == 0 && p % 4 == 0
    ensures Tst(Set(bm, off), p) <==> p == off || Tst(bm, p)
  {
    hide BitOn, BitSet, BitClr, Mask;
    BitLaws(bm[off / 32], off / 4 % 8, p / 4 % 8);
    SamePlace(off, p);
  }

  /** Clearing a bit unmarks that offset and no other. */
  lemma ClrUnmarks(bm: seq<bv8>, off: nat, p: nat)
    requires off < 32 * |bm| && p < 32 * |bm| && off % 4 == 0 && p % 4 == 0
    ensures Tst(Clr(bm, off), p) <==> p != off && Tst(bm, p)
  {
    hide BitOn, BitSet, BitClr, Mask;
    BitLaws(bm[off / 32], off / 4 % 8, p / 4 % 8);
    SamePlace(off, p);
  }

  function Blank(k: nat): (r: seq<bv8>)
    ensures |r| == k && forall i :: 0 <= i < k ==> r[i] == 0
  {
    seq(k, _ => 0)
  }

  /** Bytes appended as zero mark nothing. */
  lemma GrownMarks(bm: seq<bv8>, k: nat, p: nat)
    requires p < 32 * (|bm| + k)
    ensures Tst(bm + Blank(k), p) <==> p < 32 * |bm| && Tst(bm, p)
  {
    assert !BitOn(0, p / 4 % 8);
  }

  /** Two bitmaps of one length that mark the same offsets are the same bitmap. */
  lemma SameMarks(x: seq<bv8>, y: seq<bv8>)
    requires |x| == |y|
    requires forall p :: 0 <= p < 32 * |x| && p % 4 == 0 ==> Tst(x, p) == Tst(y, p)
    ensures x == y
  {
    hide BitOn, Mask, Tst;
    forall i | 0 <= i < |x|
      ensures x[i] == y[i]
    {
      forall k | 0 <= k < 8
        ensures BitOn(x[i], k) == BitOn(y[i], k)
      {
        BitIn(x, i, k);
        BitIn(y, i, k);
        assert (32 * i + 4 * k) % 4 == 0;
      }
      SameByte(x[i], y[i]);
    }
  }

  lemma BitIn(u: seq<bv8>, i: nat, k: nat)
    requires i < |u| && k < 8
    ensures Tst(u, 32 * i + 4 * k) == BitOn(u[i], k)
  {
    hide BitOn;
    assert (32 * i + 4 * k) / 32 == i && (32 * i + 4 * k) / 4 == 8 * i + k;
  }

  lemma SameByte(x: bv8, y: bv8)
    requires forall k :: 0 <= k < 8 ==> BitOn(x, k) == BitOn(y, k)
    ensures x == y
  {
    assert BitOn(x, 0) == BitOn(y, 0) && BitOn(x, 1) == BitOn(y, 1) && BitOn(x, 2) == BitOn(y, 2);
    assert BitOn(x, 3) == BitOn(y, 3) && BitOn(x, 4) == BitOn(y, 4) && BitOn(x, 5) == BitOn(y, 5);
    assert BitOn(x, 6) == BitOn(y, 6) && BitOn(x, 7) == BitOn(y, 7);
  }

  /** The offsets whose bit is set. */
  ghost function Marks(u: seq<bv8>): set<nat> {
    set x | 0 <= x < 32 * |u| && x % 4 == 0 && Tst(u, x)
  }

  lemma MarksAdded(u: seq<bv8>, n: nat)
    requires n < 32 * |u| && n % 4 == 0
    ensures Marks(Set(u, n)) == Marks(u) + {n}
  {
    hide Tst, Set;
    forall x | 0 <= x < 32 * |u| && x % 4 == 0
      ensures Tst(Set(u, n), x) <==> x == n || Tst(u, x)
    {
      SetMarks(u, n, x);
    }
  }

  lemma MarksGrown(u: seq<bv8>, k: nat)
    ensures Marks(u + Blank(k)) == Marks(u)
  {
    hide Tst, Blank;
    forall x | 0 <= x < 32 * (|u| + k) && x % 4 == 0
      ensures Tst(u + Blank(k), x) <==> x < 32 * |u| && Tst(u, x)
    {
      GrownMarks(u, k, x);
    }
  }

  lemma MarksCleared(u: seq<bv8>, n: nat)
    requires n in Marks(u)
    ensures |Clr(u, n)| == |u| && Marks(Clr(u, n)) == Marks(u) - {n}
  {
    hide Tst, Clr;
    forall x | 0 <= x < 32 * |u| && x % 4 == 0
      ensures Tst(Clr(u, n), x) <==> x != n && Tst(u, x)
    {
      ClrUnmarks(u, n, x);
    }
  }
}
