/** What the allocator keeps true of image, bitmap and bounds, as facts about plain values. */
module Heap {
  import opened Bytes
  import opened Bitmap
  import opened Layout
  import opened Records

  const MAX_IMAGE := 0x8000_0000   // realloc gives out no larger image, so offsets fit in 32 bits

  predicate By8(n: nat) { n % 8 == 0 }

  predicate IsRegf(a: seq<byte>)
    requires 0x1000 <= |a|
  {
    a[0] == 'r' as int && a[1] == 'e' as int && a[2] == 'g' as int && a[3] == 'f' as int
  }

  function RootField(a: seq<byte>): nat requires 0x1000 <= |a| { U32(a, 36) as int + 0x1000 }
  function EndField(a: seq<byte>): nat requires 0x1000 <= |a| { U32(a, 40) as int + 0x1000 }

  /** The header fields no operation touches before a commit: magic, version, root offset. */
  predicate HeadOk(a: seq<byte>, root: nat) {
    0x1000 <= |a| && IsRegf(a) && U32(a, 20) == 1 && RootField(a) == root
  }

  lemma HeadSame(a: seq<byte>, b: seq<byte>, root: nat)
    requires HeadOk(a, root) && 0x1000 <= |b| && Same(a, b, 0, 0x1000)
    ensures HeadOk(b, root)
  {
  }

  /** x starts a used block of the image. */
  ghost predicate UsedAt(a: seq<byte>, ep: nat, x: nat)
    requires ep <= |a| && PagesTile(a, PAGES, ep)
  {
    x in AllBlocks(a, PAGES, ep) && x + 8 <= ep && Used(a, x)
  }

  /** A bit is set exactly at the start of each used block. */
  ghost predicate Marked(a: seq<byte>, bm: seq<bv8>, ep: nat)
    requires ep <= |a| && PagesTile(a, PAGES, ep)
  {
    |bm| == 1 + |a| / 32
    && forall x :: 0 <= x < 32 * |bm| && By4(x) ==> (Tst(bm, x) <==> UsedAt(a, ep, x))
  }

  /** The next allocation starts at eb: nothing allocated yet, a full last page, or its free rest. */
  ghost predicate TailOk(a: seq<byte>, ep: nat, eb: nat)
    requires ep <= |a| && PagesTile(a, PAGES, ep)
  {
    eb == 0 || (By8(eb) && (eb == ep ||
                            (eb in AllBlocks(a, PAGES, ep) && eb + 8 <= ep && !Used(a, eb) && eb + Len(a, eb) == ep)))
  }

  ghost predicate Tiled(a: seq<byte>, bm: seq<bv8>, ep: nat, eb: nat) {
    PAGES <= ep <= |a| <= MAX_IMAGE && PagesTile(a, PAGES, ep) && Marked(a, bm, ep) && TailOk(a, ep, eb)
  }

  ghost predicate CellAt(a: seq<byte>, ep: nat, x: nat, r: Rec)
    requires ep <= |a| && PagesTile(a, PAGES, ep)
  {
    UsedAt(a, ep, x) && Len(a, x) <= ep - x && Holds(a, x, Len(a, x), r)
  }

  /** Every tracked block is used and holds its record. */
  ghost predicate CellsOk(a: seq<byte>, ep: nat, cells: map<nat, Rec>)
    requires ep <= |a| && PagesTile(a, PAGES, ep)
  {
    forall x :: x in cells ==> CellAt(a, ep, x, cells[x])
  }

  lemma PagesStart()
    ensures By4096(PAGES)
  {
  }

  /** Blocks other than x keep their bytes when only x's block is written. */
  lemma OtherBlocks(a: seq<byte>, b: seq<byte>, ep: nat, x: nat, y: nat)
    requires ep <= |a| && |b| == |a| && PagesTile(a, PAGES, ep)
    requires x in AllBlocks(a, PAGES, ep) && x + 8 <= ep && OnlyAt(a, b, PAGES, ep, x)
    requires y in AllBlocks(a, PAGES, ep) && y != x
    ensures y + 8 <= ep && Len(a, y) <= ep - y && Same(a, b, y, y + Len(a, y)) && 8 <= Len(a, y)
    ensures Len(b, y) == Len(a, y) && Used(b, y) == Used(a, y)
  {
    hide By4, By4096;
    BlockIn(a, PAGES, ep, y);
    if x < y { Apart(a, PAGES, ep, x, y); } else { Apart(a, PAGES, ep, y, x); }
  }

  /** b differs from a at most in the contents of the block at x, after its seg_len. */
  ghost predicate KeepsBut(a: seq<byte>, b: seq<byte>, x: nat) {
    |b| == |a| && x + 4 <= |a| && forall i :: 0 <= i < |a| && !(x + 4 <= i < x + Len(a, x)) ==> b[i] == a[i]
  }

  /** Rewriting the contents of one tracked block. */
  lemma WriteCell(a: seq<byte>, b: seq<byte>, bm: seq<bv8>, ep: nat, eb: nat, cells: map<nat, Rec>, x: nat, r: Rec)
    requires Tiled(a, bm, ep, eb) && CellsOk(a, ep, cells) && x in cells
    requires KeepsBut(a, b, x) && x + Len(a, x) <= |a| && Holds(b, x, Len(a, x), r)
    ensures Tiled(b, bm, ep, eb) && CellsOk(b, ep, cells[x := r])
    ensures AllBlocks(b, PAGES, ep) == AllBlocks(a, PAGES, ep)
  {
    hide By4, By4096, By8, Holds, Tst, Blocks, BlocksTile, IsHbin;
    assert CellAt(a, ep, x, cells[x]);
    BlockIn(a, PAGES, ep, x);
    SameHeader(a, b, x);
    PagesWrite(a, b, PAGES, ep, x);
    forall y | y in AllBlocks(a, PAGES, ep)
      ensures UsedAt(b, ep, y) == UsedAt(a, ep, y) && y + 8 <= ep && Len(b, y) == Len(a, y)
    {
      if y != x { OtherBlocks(a, b, ep, x, y); }
    }
    assert Marked(b, bm, ep);
    forall y | y in cells && y != x
      ensures CellAt(b, ep, y, cells[y])
    {
      assert CellAt(a, ep, y, cells[y]);
      OtherBlocks(a, b, ep, x, y);
      HoldsSame(a, b, y, Len(a, y), cells[y]);
    }
  }

  /** What a call may write: these bytes, and everything from `floor` on, where new blocks go. `doomed` are the
      security records it will free, and a frozen licence allows no new block. */
  datatype Licence = Licence(bytes: iset<nat>, floor: nat, doomed: set<nat>, frozen: bool)

  ghost predicate Lets(L: Licence, i: nat) { i in L.bytes || L.floor <= i }

  ghost predicate Covers(L: Licence, o: nat, k: nat) {
    forall i :: o <= i < o + k ==> Lets(L, i)
  }

  /** The licence lets the k bytes at p of block o be written. */
  ghost predicate MayPut(L: Licence, o: nat, p: nat, k: nat) { L.floor <= o || Covers(L, p, k) }

  /** ... and the blocks S be marked unused. */
  ghost predicate MayFree(L: Licence, S: set<nat>) {
    forall b :: b in S ==> MayPut(L, b, b, 4)
  }

  /** a differs from base only at bytes of the licence. */
  ghost predicate ChangedIn(base: seq<byte>, a: seq<byte>, L: Licence) {
    |base| <= |a| && forall i :: 0 <= i < |base| && !Lets(L, i) ==> a[i] == base[i]
  }

  lemma PutChanged(a: seq<byte>, o: nat, d: seq<byte>, L: Licence)
    requires o + |d| <= |a| && Covers(L, o, |d|)
    ensures ChangedIn(a, Put(a, o, d), L)
  {
  }

  lemma AboveCovers(L: Licence, o: nat, k: nat)
    ensures L.floor <= o ==> Covers(L, o, k)
  {
  }

  lemma AboveChanged(a: seq<byte>, b: seq<byte>, x: nat, L: Licence)
    requires KeepsBut(a, b, x) && L.floor <= x
    ensures ChangedIn(a, b, L)
  {
  }

  /** A new block, placed above the floor. */
  lemma GrownChanged(base: seq<byte>, a: seq<byte>, b: seq<byte>, L: Licence, keep: nat)
    requires ChangedIn(base, a, L) && |a| <= |b| && L.floor <= keep <= |a| && Same(a, b, 0, keep)
    ensures ChangedIn(base, b, L)
  {
  }

  lemma ChangedTrans(base: seq<byte>, a: seq<byte>, b: seq<byte>, L: Licence)
    requires ChangedIn(base, a, L) && ChangedIn(a, b, L)
    ensures ChangedIn(base, b, L)
  {
    hide Lets;
  }

  /** Same pages, same blocks, same lengths. */
  ghost predicate SameBlocks(base: seq<byte>, a: seq<byte>, ep: nat) {
    ep <= |a| == |base| && PagesTile(base, PAGES, ep) && PagesTile(a, PAGES, ep)
    && AllBlocks(a, PAGES, ep) == AllBlocks(base, PAGES, ep)
    && (forall x :: x in AllBlocks(base, PAGES, ep) ==> x + 8 <= ep && Len(a, x) == Len(base, x))
  }

  lemma BlocksAsIs(a: seq<byte>, ep: nat)
    requires ep <= |a| && PagesTile(a, PAGES, ep)
    ensures SameBlocks(a, a, ep)
  {
    hide PagesTile, AllBlocks, U32, U16;
    forall x | x in AllBlocks(a, PAGES, ep)
      ensures x + 8 <= ep
    {
      BlockIn(a, PAGES, ep, x);
    }
  }

  /** A write inside one block that keeps its length keeps all blocks. */
  lemma BlocksStay(base: seq<byte>, a: seq<byte>, b: seq<byte>, ep: nat, x: nat)
    requires SameBlocks(base, a, ep) && x in AllBlocks(a, PAGES, ep) && x + 8 <= ep && |b| == |a|
    requires Len(b, x) == Len(a, x) && x + Len(a, x) <= ep && forall i :: 0 <= i < |a| && !(x <= i < x + Len(a, x)) ==> b[i] == a[i]
    ensures SameBlocks(base, b, ep)
  {
    hide By4, By4096, U32, U16, Blocks, BlocksTile, IsHbin, Used;
    BlockIn(a, PAGES, ep, x);
    PagesWrite(a, b, PAGES, ep, x);
    hide PagesTile, AllBlocks;
    forall y | y in AllBlocks(base, PAGES, ep)
      ensures y + 8 <= ep && Len(b, y) == Len(base, y)
    {
      if y != x { OtherBlocks(a, b, ep, x, y); }
    }
  }

  /** Flipping the sign of one block's seg_len and clearing its bit. */
  lemma FreeCell(a: seq<byte>, b: seq<byte>, bm: seq<bv8>, ep: nat, eb: nat, cells: map<nat, Rec>, x: nat)
    requires Tiled(a, bm, ep, eb) && CellsOk(a, ep, cells) && UsedAt(a, ep, x)
    requires |b| == |a| && OnlyAt(a, b, PAGES, ep, x) && Len(b, x) == Len(a, x) && !Used(b, x)
    ensures x < 32 * |bm| && By4(x)
    ensures Tiled(b, Clr(bm, x), ep, eb) && CellsOk(b, ep, cells - {x})
    ensures AllBlocks(b, PAGES, ep) == AllBlocks(a, PAGES, ep)
  {
    hide By4, By4096, By8, Holds, Tst, Clr, Blocks, BlocksTile, IsHbin, U32, U16;
    BlockIn(a, PAGES, ep, x);
    PagesStart();
    PagesWrite(a, b, PAGES, ep, x);
    forall y | y in AllBlocks(a, PAGES, ep)
      ensures UsedAt(b, ep, y) == (UsedAt(a, ep, y) && y != x) && y + 8 <= ep && Len(b, y) == Len(a, y)
    {
      if y != x { OtherBlocks(a, b, ep, x, y); }
    }
    forall y | 0 <= y < 32 * |bm| && By4(y)
      ensures Tst(Clr(bm, x), y) <==> UsedAt(b, ep, y)
    {
      ClearBit(bm, x, y);
    }
    forall y | y in cells && y != x
      ensures CellAt(b, ep, y, cells[y])
    {
      assert CellAt(a, ep, y, cells[y]);
      OtherBlocks(a, b, ep, x, y);
      HoldsSame(a, b, y, Len(a, y), cells[y]);
    }
  }

  lemma ClearBit(bm: seq<bv8>, x: nat, y: nat)
    requires x < 32 * |bm| && y < 32 * |bm| && By4(x) && By4(y)
    ensures Tst(Clr(bm, x), y) <==> y != x && Tst(bm, y)
  {
    ClrUnmarks(bm, x, y);
  }

  lemma SetBit(bm: seq<bv8>, x: nat, y: nat)
    requires x < 32 * |bm| && y < 32 * |bm| && By4(x) && By4(y)
    ensures Tst(Set(bm, x), y) <==> y == x || Tst(bm, y)
  {
    SetMarks(bm, x, y);
  }

  /** A used block of n bytes carved from the start of the free rest at eb. */
  ghost predicate Carved(a: seq<byte>, b: seq<byte>, ep: nat, eb: nat, n: nat)
    requires ep <= |a|
  {
    |b| == |a| && PAGES <= eb && 8 <= n && By8(n) && eb + n <= ep && Same(a, b, PAGES, eb)
    && Used(b, eb) && Len(b, eb) == n
    && (eb + n < ep ==> eb + n + 8 <= ep && !Used(b, eb + n) && Len(b, eb + n) == ep - eb - n)
  }

  lemma CarveBlocks(a: seq<byte>, b: seq<byte>, bm: seq<bv8>, ep: nat, eb: nat, n: nat)
    requires Tiled(a, bm, ep, eb) && eb != 0 && eb < ep && Carved(a, b, ep, eb, n)
    ensures eb in AllBlocks(a, PAGES, ep) && PagesTile(b, PAGES, ep)
    ensures AllBlocks(b, PAGES, ep) == AllBlocks(a, PAGES, ep) + (if eb + n < ep then {eb + n} else {})
  {
    hide By4, By4096, By8, Holds, Tst, Blocks, BlocksTile, IsHbin, U32, U16;
    assert eb + Len(a, eb) == ep;
    EightFour(n);
    if eb + n < ep {
      PagesCut(a, b, PAGES, ep, eb, n);
    } else {
      PagesWrite(a, b, PAGES, ep, eb);
    }
  }

  lemma EightFour(n: nat)
    requires By8(n)
    ensures By4(n) && forall m: nat :: By8(m) ==> By8(m + n)
  {
  }

  /** The carved image is tiled and marked again, and no tracked block has moved. */
  lemma CarveCell(a: seq<byte>, b: seq<byte>, bm: seq<bv8>, ep: nat, eb: nat, n: nat, cells: map<nat, Rec>, r: Rec)
    requires Tiled(a, bm, ep, eb) && CellsOk(a, ep, cells) && eb != 0 && eb < ep && Carved(a, b, ep, eb, n)
    requires Holds(b, eb, n, r)
    ensures eb < 32 * |bm|
    ensures Tiled(b, Set(bm, eb), ep, eb + n) && CellsOk(b, ep, cells[eb := r]) && eb !in cells
  {
    hide By4, By4096, By8, Holds, Tst, Set, Blocks, BlocksTile, IsHbin, U32, U16;
    CarveBlocks(a, b, bm, ep, eb, n);
    EightFour(eb);
    EightFour(n);
    forall y | y in AllBlocks(b, PAGES, ep)
      ensures UsedAt(b, ep, y) == (y == eb || (y in AllBlocks(a, PAGES, ep) && UsedAt(a, ep, y)))
    {
      if y in AllBlocks(a, PAGES, ep) && y != eb { CarveOther(a, b, ep, eb, n, y); }
    }
    forall y | 0 <= y < 32 * |bm| && By4(y)
      ensures Tst(Set(bm, eb), y) <==> UsedAt(b, ep, y)
    {
      SetBit(bm, eb, y);
    }
    forall y | y in cells
      ensures y != eb && CellAt(b, ep, y, cells[y])
    {
      assert CellAt(a, ep, y, cells[y]);
      CarveOther(a, b, ep, eb, n, y);
      HoldsSame(a, b, y, Len(a, y), cells[y]);
    }
  }

  lemma CarveOther(a: seq<byte>, b: seq<byte>, ep: nat, eb: nat, n: nat, y: nat)
    requires ep <= |a| && PagesTile(a, PAGES, ep) && Carved(a, b, ep, eb, n)
    requires eb in AllBlocks(a, PAGES, ep) && eb + Len(a, eb) == ep
    requires y in AllBlocks(a, PAGES, ep) && y != eb
    ensures y + 8 <= ep && y + Len(a, y) <= eb && Same(a, b, y, y + Len(a, y))
    ensures Len(b, y) == Len(a, y) && Used(b, y) == Used(a, y)
  {
    hide By4, By4096;
    BlockIn(a, PAGES, ep, y);
    BlockIn(a, PAGES, ep, eb);
    if eb < y { Apart(a, PAGES, ep, eb, y); } else { Apart(a, PAGES, ep, y, eb); }
  }

  /** A page of `size` bytes at p that is one free block. */
  ghost predicate EmptyPage(b: seq<byte>, p: nat, size: nat) {
    p + size <= |b| && 4096 <= size && By4096(size) && IsHbin(b, p) && PageSize(b, p) == size
    && !Used(b, p + HBIN) && Len(b, p + HBIN) == size - HBIN
  }

  /** The bitmap grown by zero bytes marks the used blocks of the grown image, if those are the old ones. */
  lemma GrownMarked(a: seq<byte>, b: seq<byte>, bm: seq<bv8>, k: nat, ep: nat, ep': nat)
    requires ep <= |a| <= |b| && ep <= ep' <= |b| && PagesTile(a, PAGES, ep) && PagesTile(b, PAGES, ep') && Marked(a, bm, ep)
    requires |bm| + k == 1 + |b| / 32
    requires forall y :: UsedAt(b, ep', y) <==> UsedAt(a, ep, y)
    ensures Marked(b, bm + Blank(k), ep')
  {
    hide Tst, By4, PagesTile, AllBlocks, Used;
    var bm' := bm + Blank(k);
    forall y | 0 <= y < 32 * |bm'| && By4(y)
      ensures Tst(bm', y) <==> UsedAt(b, ep', y)
    {
      GrownMarks(bm, k, y);
      if UsedAt(a, ep, y) { assert y < 32 * |bm|; }
    }
  }

  /** The page allocate_page adds, seen as one free block. */
  lemma AddPage(a: seq<byte>, b: seq<byte>, bm: seq<bv8>, k: nat, ep: nat, eb: nat, size: nat, cells: map<nat, Rec>)
    requires Tiled(a, bm, ep, eb) && CellsOk(a, ep, cells)
    requires |a| <= |b| <= MAX_IMAGE && Same(a, b, PAGES, ep) && EmptyPage(b, ep, size)
    requires |bm| + k == 1 + |b| / 32
    ensures Tiled(b, bm + Blank(k), ep + size, ep + HBIN) && CellsOk(b, ep + size, cells)
  {
    hide Holds, Tst, By4, By4096, By8, U32, U16, IsHbin;
    PagesSame(a, b, PAGES, ep);
    OneBlockPage(b, ep, size);
    PagesAppend(b, PAGES, ep, ep + size);
    PagesStart();
    PagesAligned(a, PAGES, ep);
    TailAligned(ep);
    hide PagesTile, AllBlocks, Blocks, BlocksTile, PageAt;
    forall y | y in AllBlocks(a, PAGES, ep)
      ensures UsedAt(b, ep + size, y) == UsedAt(a, ep, y) && y + 8 <= ep && Len(b, y) == Len(a, y) <= ep - y
      ensures Same(a, b, y, y + Len(a, y))
    {
      BlockIn(a, PAGES, ep, y);
      SameHeader(a, b, y);
    }
    GrownMarked(a, b, bm, k, ep, ep + size);
    forall y | y in cells
      ensures CellAt(b, ep + size, y, cells[y])
    {
      assert CellAt(a, ep, y, cells[y]);
      HoldsSame(a, b, y, Len(a, y), cells[y]);
    }
  }

  lemma SameHeader(a: seq<byte>, b: seq<byte>, y: nat)
    requires y + 4 <= |a| && y + 4 <= |b| && Same(a, b, y, y + 4)
    ensures Len(b, y) == Len(a, y) && Used(b, y) == Used(a, y)
  {
  }

  lemma TailAligned(ep: nat)
    requires By4096(ep)
    ensures By8(ep) && By8(ep + HBIN)
  {
    var k := ep / 4096;
    assert ep == 4096 * k;
    assert ep == 8 * (512 * k) && ep + HBIN == 8 * (512 * k + 4);
  }

  lemma TailFacts(a: seq<byte>, bm: seq<bv8>, ep: nat, eb: nat)
    requires Tiled(a, bm, ep, eb)
    ensures By8(ep) && By8(eb) && By4096(ep) && (eb != 0 ==> PAGES <= eb <= ep) && ep < 32 * |bm|
  {
    hide By4096, By8, By4, Tst, U32, U16, PagesTile;
    PagesStart();
    PagesAligned(a, PAGES, ep);
    TailAligned(ep);
    if eb != 0 && eb != ep { BlockIn(a, PAGES, ep, eb); }
    assert By8(0) && By8(eb) by { ZeroBy8(); }
  }

  lemma ZeroBy8()
    ensures By8(0)
  {
  }

  lemma OneBlockPage(b: seq<byte>, p: nat, size: nat)
    requires EmptyPage(b, p, size)
    ensures PageAt(b, p, p + size) && Blocks(b, p + HBIN, p + size) == {p + HBIN}
  {
    hide U32, U16, IsHbin, Used, By4, By4096;
    PageRest(size);
    assert BlocksTile(b, p + size, p + size);
  }

  lemma PageRest(size: nat)
    requires By4096(size) && 4096 <= size
    ensures By4(size - HBIN)
  {
    var k := size / 4096;
    assert size - HBIN == 4 * (1024 * k - 8);
  }
}
