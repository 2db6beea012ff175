/** The hive handle: the image in memory, its bitmap and bounds, and the block allocator. */
module Hives {
  import opened Bytes
  import opened Bitmap
  import opened Layout
  import opened Records
  import opened Heap
  import opened Registry

  const MAX_ALLOCATION := 1_000_000

  /** Block sizes are rounded up to a multiple of 8. */
  function Round8(n: nat): nat { (n + 7) / 8 * 8 }

  /** Size of the page added to hold a block of n bytes. */
  function PageBytes(n: nat): nat { (1 + (n + HBIN - 1) / 4096) * 4096 }

  /** Where a block of n bytes goes: offset, new end of pages, new end of blocks. */
  function Place(ep: nat, eb: nat, n: nat): (nat, nat, nat) {
    if eb == 0 || eb + n > ep then (ep + HBIN, ep + PageBytes(n), ep + HBIN + n) else (eb, ep, eb + n)
  }

  /** No block is placed below this. */
  function Floor(ep: nat, eb: nat): nat { if eb == 0 || eb > ep then ep else eb }

  lemma RoundFacts(n: nat)
    ensures By8(Round8(n)) && n <= Round8(n) < n + 8 && (1 <= n ==> 8 <= Round8(n))
  {
  }

  lemma PageFacts(n: nat)
    ensures By4096(PageBytes(n)) && n + HBIN <= PageBytes(n) < n + HBIN + 4096
  {
  }

  lemma RestFacts(ep: nat, eb: nat, n: nat)
    requires By8(ep) && By8(eb) && By8(n) && eb + n < ep
    ensures eb + n + 8 <= ep && By8(eb + n)
  {
  }

  lemma PlaceAbove(ep: nat, eb: nat, n: nat)
    requires 8 <= n
    ensures var (off, ep', eb') := Place(ep, eb, n);
            Floor(ep, eb) <= off && Floor(ep, eb) <= ep && Floor(ep, eb) <= Floor(ep', eb')
  {
    PageFacts(n);
    hide PageBytes;
  }

  const OVERHEAD := HBIN + 4096 + 8

  /** An allocation moves the end of pages by little more than its size. */
  lemma PlaceBound(ep: nat, eb: nat, len: nat)
    ensures ep <= Place(ep, eb, Round8(len)).1 <= ep + len + OVERHEAD
  {
    RoundFacts(len);
    PageFacts(Round8(len));
    hide Round8, PageBytes;
  }

  /** The bytes after seg_len of a block just allocated. */
  function Fresh(id: seq<byte>, n: nat): (r: seq<byte>)
    requires |id| == 2 && 8 <= n
    ensures |r| == n - 4
  {
    (if id[0] != 0 && id[1] != 0 then id else [0, 0]) + Zeros(n - 6)
  }

  lemma FreshCleared(a: seq<byte>, o: nat, n: nat, id: seq<byte>)
    requires |id| == 2 && 8 <= n && o + n <= |a| && BlobAt(a, o, n, Blob(Fresh(id, n)))
    ensures id[0] != 0 && id[1] != 0 ==> Cleared(a, o, n, id[0], id[1])
    ensures id == [0, 0] ==> Cleared(a, o, n, 0, 0)
  {
    var d := Fresh(id, n);
    assert forall i :: 0 <= i < n - 4 ==> a[o + 4 + i] == d[i];
    forall i | o + 6 <= i < o + n
      ensures a[i] == 0
    {
      assert a[o + 4 + (i - o - 4)] == d[i - o - 4];
    }
    assert a[o + 4 + 0] == d[0] && a[o + 4 + 1] == d[1];
  }

  const ID_NK: seq<byte> := ['n' as int, 'k' as int]
  const ID_VK: seq<byte> := ['v' as int, 'k' as int]
  const ID_LF: seq<byte> := ['l' as int, 'f' as int]
  const ID_LH: seq<byte> := ['l' as int, 'h' as int]
  const ID_NUL: seq<byte> := [0, 0]

  /** Between two states only tracked blocks were freed: their bits are cleared, all other bits are as before. */
  ghost predicate FreedOnly(bm: seq<bv8>, c: Cells, bm': seq<bv8>, c': Cells) {
    |bm'| == |bm| && c'.Keys <= c.Keys && Marks(bm') == Marks(bm) - (c.Keys - c'.Keys)
  }

  lemma FreedTrans(b0: seq<bv8>, c0: Cells, b1: seq<bv8>, c1: Cells, b2: seq<bv8>, c2: Cells)
    requires FreedOnly(b0, c0, b1, c1) && FreedOnly(b1, c1, b2, c2)
    ensures FreedOnly(b0, c0, b2, c2)
  {
    hide Marks;
    assert c0.Keys - c2.Keys == (c0.Keys - c1.Keys) + (c1.Keys - c2.Keys);
  }

  lemma FreedNone(bm: seq<bv8>, c: Cells, c': Cells)
    requires c'.Keys == c.Keys
    ensures FreedOnly(bm, c, bm, c')
  {
    hide Marks;
    assert c.Keys - c'.Keys == {};
  }

  /** IS_VALID_BLOCK on an image and its bitmap. */
  predicate ValidAt(a: seq<byte>, bm: seq<bv8>, off: nat) {
    off % 4 == 0 && 0x1000 <= off < |a| && off < 32 * |bm| && Tst(bm, off)
  }

  lemma ZeroRest(a: seq<byte>, offset: nat)
    requires offset + HBIN <= |a|
    ensures var b := Put(a, offset + 12, Zeros(20));
            |b| == |a| && Same(a, b, 0, offset) && IsHbin(b, offset) == IsHbin(a, offset) && PageSize(b, offset) == PageSize(a, offset)
            && U32(b, offset + 4) == U32(a, offset + 4) && forall i :: offset + 12 <= i < offset + HBIN ==> b[i] == 0
  {
    hide U32, U16;
  }

  class Hive {
    var addr: seq<byte>
    var bitmap: seq<bv8>
    var rootoffs: nat
    var endpages: nat
    var endblocks: nat
    const writable: bool
    ghost var cells: Cells
    ghost var t: Tree
    ghost var base: seq<byte>       // an earlier image, for Within
    ghost var license: Licence      // what may have been written since then

    /** A handle on an opened image. */
    constructor (image: seq<byte>, bm: seq<bv8>, root: nat, end: nat, w: bool, ghost c: Cells, ghost tree: Tree)
      ensures addr == image && bitmap == bm && rootoffs == root && endpages == end && endblocks == 0 && writable == w
      ensures cells == c && t == tree
    {
      addr, bitmap, rootoffs, endpages, endblocks, writable := image, bm, root, end, 0, w;
      cells, t := c, tree;
    }

    /** Pages and blocks tile, bits mark exactly the used blocks, tracked blocks hold their records. */
    ghost predicate HeapOk()
      reads `addr, `bitmap, `rootoffs, `endpages, `endblocks, `cells
    {
      Tiled(addr, bitmap, endpages, endblocks) && CellsOk(addr, endpages, cells) && HeadOk(addr, rootoffs)
    }

    /** ... and the records stand for the registry tree t. */
    ghost predicate Valid()
      reads this
    {
      HeapOk() && TreeOk(cells, t, rootoffs)
    }

    /** Since the image was base, only what the licence lets has been written. */
    ghost predicate Within()
      reads `addr, `endpages, `base, `license
    {
      ChangedIn(base, addr, license) && (license.frozen ==> SameBlocks(base, addr, endpages))
    }

    /** New blocks are licensed. */
    ghost predicate Roomy()
      reads `endpages, `endblocks, `license
    {
      !license.frozen && license.floor <= Floor(endpages, endblocks)
    }

    predicate IsValidBlock(off: nat)
      reads this
      requires HeapOk()
    {
      off % 4 == 0 && 0x1000 <= off < |addr| && Tst(bitmap, off)
    }

    /** IS_VALID_BLOCK looks at image and bitmap only. */
    lemma SameValid(off: nat)
      requires HeapOk()
      ensures IsValidBlock(off) <==> ValidAt(addr, bitmap, off)
    {
      BitmapSize();
      hide Tiled, CellsOk, HeadOk, Tst;
    }

    /** A set bit below size is the start of a used block inside the image. */
    lemma ValidIn(off: nat)
      requires HeapOk() && IsValidBlock(off)
      ensures PAGES <= off && off + 8 <= |addr| && 8 <= Len(addr, off) <= |addr| - off
    {
      hide CellsOk, Tst, U32, U16, AllBlocks;
      assert By4(off);
      assert UsedAt(addr, endpages, off);
      BlockIn(addr, PAGES, endpages, off);
    }

    /** 0xffffffff, the stored offset that points nowhere, is past the end of every image. */
    lemma TooFar(off: nat)
      requires HeapOk() && off >= MAX_IMAGE
      ensures !IsValidBlock(off)
    {
      hide CellsOk, Tst, AllBlocks;
    }

    lemma CellValid(off: nat)
      requires HeapOk() && off in cells
      ensures IsValidBlock(off) && PAGES + HBIN <= off < MAX_IMAGE - 7
    {
      hide Tst, U32, U16, AllBlocks, Holds;
      assert CellAt(addr, endpages, off, cells[off]);
      BlockIn(addr, PAGES, endpages, off);
      PagesStart();
    }

    /** A valid block whose id is c0 c1. */
    predicate BlockIs(off: nat, c0: char, c1: char)
      reads this
      requires HeapOk()
    {
      IsValidBlock(off) && (ValidIn(off); IsId(addr, off, c0, c1))
    }

    lemma BitmapSize()
      requires HeapOk()
      ensures PAGES <= endpages <= |addr| <= MAX_IMAGE && |bitmap| == 1 + |addr| / 32
    {
      hide PagesTile, CellsOk, AllBlocks, Tst, TailOk, U32, U16, HeadOk;
    }

    method AllocatePage(hint: nat) returns (off: nat)
      requires HeapOk() && 8 <= hint <= MAX_ALLOCATION + 7
      modifies this`addr, this`bitmap, this`endpages
      ensures off == 0 <==> old(endpages) + PageBytes(hint) > MAX_IMAGE
      ensures off == 0 ==> addr == old(addr) && bitmap == old(bitmap) && endpages == old(endpages)
      ensures off != 0 ==> off == old(endpages) + HBIN && endpages == old(endpages) + PageBytes(hint) <= |addr|
      ensures off != 0 ==> |addr| <= MAX_IMAGE && Same(old(addr), addr, 0, old(endpages))
                           && |addr| == if endpages <= |old(addr)| then |old(addr)| else endpages
      ensures off != 0 ==> IsHbin(addr, old(endpages)) && PageSize(addr, old(endpages)) == PageBytes(hint)
      ensures off != 0 ==> U32(addr, old(endpages) + 4) == old(endpages) - 0x1000
                           && forall i :: old(endpages) + 12 <= i < old(endpages) + HBIN ==> addr[i] == 0
      ensures off != 0 ==> |bitmap| == 1 + |addr| / 32 && |old(bitmap)| <= |bitmap|
                           && bitmap == old(bitmap) + Blank(|bitmap| - |old(bitmap)|)
    {
      hide By4096, PagesTile, CellsOk, AllBlocks, Tst, Marked, UsedAt, TailOk, U32, U16, PageBytes, IsHbin, HeadOk;
      PageFacts(hint);
      BitmapSize();
      var extend := endpages + PageBytes(hint) - |addr|;
      if extend > 0 {
        var newsize := |addr| + extend;
        if newsize > MAX_IMAGE {
          return 0;
        }
        bitmap := bitmap + Blank(1 + newsize / 32 - |bitmap|);
        addr := addr + Zeros(extend);
      }
      var offset := endpages;
      endpages := endpages + PageBytes(hint);

      WritePageHeader(offset, PageBytes(hint));
      return offset + HBIN;
    }

    /** The hbin header: magic, offset_first, page_size, unknown. */
    method WritePageHeader(offset: nat, size: nat)
      requires 0x1000 <= offset && offset + HBIN <= |addr| <= MAX_IMAGE && size <= MAX_IMAGE
      modifies this`addr
      ensures |addr| == |old(addr)| && Same(old(addr), addr, 0, offset) && IsHbin(addr, offset) && PageSize(addr, offset) == size
      ensures U32(addr, offset + 4) == offset - 0x1000 && forall i :: offset + 12 <= i < offset + HBIN ==> addr[i] == 0
    {
      hide U32, U16, Le32, Le16, Zeros;
      addr := Put(addr, offset, ['h' as int, 'b' as int, 'i' as int, 'n' as int]);
      addr := Put32(addr, offset + 4, offset - 0x1000);
      addr := Put32(addr, offset + 8, size);
      ZeroRest(addr, offset);
      addr := Put(addr, offset + 12, Zeros(20));
    }

    /** Zeroes the block, writes seg_len and id, and a free header over the rest of the page. */
    method FormatBlock(off: nat, n: nat, id: seq<byte>)
      requires |id| == 2 && 8 <= n < 0x8000_0000 && off + n <= endpages <= |addr| <= MAX_IMAGE
      requires off + n < endpages ==> off + n + 8 <= endpages
      modifies this`addr
      ensures |addr| == |old(addr)| && Same(old(addr), addr, 0, off)
      ensures Used(addr, off) && Len(addr, off) == n && BlobAt(addr, off, n, Blob(Fresh(id, n)))
      ensures off + n < endpages ==> !Used(addr, off + n) && Len(addr, off + n) == endpages - off - n
    {
      hide U32, U16, Le32, Le16;
      addr := Put(addr, off, Zeros(n));
      addr := Put32(addr, off, 0x1_0000_0000 - n);
      if id[0] != 0 && id[1] != 0 {
        addr := Put(addr, off + 4, id);
      }
      var rem := endpages - (off + n);
      if rem > 0 {
        addr := Put32(addr, off + n, rem);
      }
    }

    /** The image with the page just added seen as one free block. */
    ghost method SeeEmptyPage(a: seq<byte>, bm: seq<bv8>, ep: nat, eb: nat, n: nat) returns (b: seq<byte>)
      requires Tiled(a, bm, ep, eb) && CellsOk(a, ep, cells) && 8 <= n <= MAX_ALLOCATION + 7
      requires |a| <= |addr| <= MAX_IMAGE && endpages == ep + PageBytes(n) <= |addr| && Same(a, addr, 0, ep)
      requires IsHbin(addr, ep) && PageSize(addr, ep) == PageBytes(n)
      requires |bitmap| == 1 + |addr| / 32 && |bm| <= |bitmap| && bitmap == bm + Blank(|bitmap| - |bm|)
      ensures |b| == |addr| && Same(b, addr, 0, ep + HBIN)
      ensures Tiled(b, bitmap, endpages, ep + HBIN) && CellsOk(b, endpages, cells)
    {
      hide By4096, PagesTile, CellsOk, AllBlocks, Tst, UsedAt, TailOk, U16, Le32, Le16, PageBytes;
      PageFacts(n);
      b := Put32(addr, ep + HBIN, PageBytes(n) - HBIN);
      assert EmptyPage(b, ep, PageBytes(n));
      AddPage(a, b, bm, |bitmap| - |bm|, ep, eb, PageBytes(n), cells);
    }

    predicate Refused(len: nat)
      reads this
    {
      !writable || len < 4 || len > MAX_ALLOCATION || Place(endpages, endblocks, Round8(len)).1 > MAX_IMAGE
    }

    /** Adds a page if the block does not fit; ghost `a` is the image whose free rest starts at endblocks. */
    method MakeRoom(n: nat) returns (ok: bool, ghost a: seq<byte>)
      requires HeapOk() && 8 <= n <= MAX_ALLOCATION + 7 && By8(n)
      modifies this`addr, this`bitmap, this`endpages, this`endblocks
      ensures ok == (Place(old(endpages), old(endblocks), n).1 <= MAX_IMAGE)
      ensures !ok ==> unchanged(this)
      ensures ok ==> Tiled(a, bitmap, endpages, endblocks) && CellsOk(a, endpages, cells)
      ensures ok ==> (endblocks, endpages, endblocks + n) == Place(old(endpages), old(endblocks), n)
      ensures ok ==> 0 < endblocks < endblocks + n <= endpages <= |addr| && |old(addr)| <= |addr| == |a|
                     && Same(a, addr, 0, endblocks)
      ensures ok ==> Same(old(addr), addr, 0, if endblocks < old(endpages) then endblocks else old(endpages))
      ensures Marks(bitmap) == Marks(old(bitmap)) && |old(bitmap)| <= |bitmap|
    {
      hide By4096, By8, PagesTile, CellsOk, AllBlocks, Tst, Marks, Blank, Marked, TailOk, UsedAt, U32, U16, PageBytes;
      a := addr;
      ok := true;
      if endblocks == 0 || endblocks + n > endpages {
        ghost var bm, ep, eb := bitmap, endpages, endblocks;
        var newend := AllocatePage(n);
        if newend == 0 {
          return false, a;
        }
        PageFacts(n);
        MarksGrown(bm, |bitmap| - |bm|);
        a := SeeEmptyPage(a, bm, ep, eb, n);
        endblocks := newend;
      }
    }

    /** Where the last allocation left the handle, against where it stood before. */
    twostate predicate Allocated(off: nat, len: nat)
      reads this
    {
      off !in old(cells) && (off, endpages, endblocks) == Place(old(endpages), old(endblocks), Round8(len))
      && old(endpages) <= |old(addr)| <= |addr|
      && Same(old(addr), addr, 0, if off < old(endpages) then off else old(endpages))
    }

    method AllocateBlock(len: nat, id: seq<byte>) returns (off: nat)
      requires HeapOk() && |id| == 2
      modifies this`addr, this`bitmap, this`endpages, this`endblocks, this`cells
      ensures off == 0 <==> old(Refused(len))
      ensures off == 0 ==> unchanged(this)
      ensures off != 0 ==> HeapOk() && 8 <= Round8(len) <= MAX_ALLOCATION + 7 && Allocated(off, len)
      ensures off != 0 ==> cells == old(cells)[off := Blob(Fresh(id, Round8(len)))]
      ensures off != 0 ==> Marks(bitmap) == Marks(old(bitmap)) + {off}
      ensures off != 0 && old(Within() && Roomy()) ==> Within() && Roomy() && license.floor <= off
    {
      hide By4096, By8, PagesTile, CellsOk, AllBlocks, Tst, Set, Marks, Marked, TailOk, UsedAt, U32, U16, Used, Len,
        Round8, TextAt, Place, BlobAt, HeadOk, ChangedIn, SameBlocks, Floor;
      if !writable || len < 4 || len > MAX_ALLOCATION {
        return 0;
      }
      var n := Round8(len);
      RoundFacts(len);
      ghost var a;
      var ok;
      ok, a := MakeRoom(n);
      if !ok {
        return 0;
      }
      off := endblocks;
      TailFacts(a, bitmap, endpages, off);
      if off + n < endpages { RestFacts(endpages, off, n); }
      FormatBlock(off, n, id);
      endblocks := endblocks + n;
      CarveCell(a, addr, bitmap, endpages, off, n, cells, Blob(Fresh(id, n)));
      HeadSame(old(addr), addr, rootoffs);
      assert off % 4 == 0 by { EightFour(off); ByFour(off); }
      MarksAdded(bitmap, off);
      bitmap := Set(bitmap, off);
      cells := cells[off := Blob(Fresh(id, n))];
      PlaceAbove(old(endpages), old(endblocks), n);
      if old(Within() && Roomy()) {
        GrownChanged(base, old(addr), addr, license, if off < old(endpages) then off else old(endpages));
      }
    }

    /** What mark_block_unused asserts, and what it means. */
    lemma MarkedBlock(off: nat)
      requires HeapOk() && (off in cells || IsValidBlock(off))
      ensures IsValidBlock(off) && off in Marks(bitmap) && UsedAt(addr, endpages, off)
    {
      if off in cells { CellValid(off); }
      hide Tst, CellsOk, AllBlocks, PagesTile;
      assert By4(off);
    }

    /** Marks the used block at off free: seg_len becomes positive and its bit is cleared. */
    method MarkBlockUnused(off: nat)
      requires HeapOk() && writable && (off in cells || IsValidBlock(off))
      modifies this`addr, this`bitmap, this`cells
      ensures HeapOk() && cells == old(cells) - {off}
      ensures |addr| == |old(addr)| && off + 4 <= |addr|
              && addr == Put32(old(addr), off, Len(old(addr), off))
      ensures Marks(bitmap) == Marks(old(bitmap)) - {off} && |bitmap| == |old(bitmap)|
      ensures off in old(cells) ==> FreedOnly(old(bitmap), old(cells), bitmap, cells)
      ensures old(Within()) && MayPut(license, off, off, 4) ==> Within()
    {
      hide Marks, By4, By4096, By8, PagesTile, AllBlocks, Tst, Clr, Marked, TailOk, U16, Holds, Le32, ChangedIn,
        SameBlocks, Covers;
      MarkedBlock(off);
      BlockIn(addr, PAGES, endpages, off);
      ghost var a := addr;
      addr := Put32(addr, off, Len(addr, off));
      FreeCell(a, addr, bitmap, endpages, endblocks, cells, off);
      if old(Within()) && MayPut(license, off, off, 4) {
        AboveCovers(license, off, 4);
        PutChanged(a, off, Le32(Len(a, off)), license);
        ChangedTrans(base, a, addr, license);
        if license.frozen { BlocksStay(base, a, addr, endpages, off); }
      }
      MarksCleared(bitmap, off);
      bitmap := Clr(bitmap, off);
      cells := cells - {off};
    }

    /** Stops tracking blocks: they stay used, but nothing in the tree refers to them. */
    ghost method Forget(S: set<nat>)
      requires HeapOk()
      modifies this`cells
      ensures HeapOk() && cells == old(cells) - S
    {
      hide Tiled, CellAt;
      cells := cells - S;
    }

    // ---------- reading and writing the records of tracked blocks

    function BlockLen(o: nat): (n: nat)
      reads this
      requires HeapOk() && o in cells
      ensures 8 <= n <= |addr| - o && Holds(addr, o, n, cells[o])
    {
      assert CellAt(addr, endpages, o, cells[o]);
      BlockIn(addr, PAGES, endpages, o);
      Len(addr, o)
    }

    predicate HasId(o: nat, c0: char, c1: char)
      reads this
      requires HeapOk() && o in cells
      ensures cells[o].Nk? ==> HasId(o, c0, c1) == (c0 == 'n' && c1 == 'k')
      ensures cells[o].Lf? ==> HasId(o, c0, c1) == (c0 == 'l' && c1 == if cells[o].lh then 'h' else 'f')
      ensures cells[o].Ri? ==> HasId(o, c0, c1) == (c0 == 'r' && c1 == 'i')
      ensures cells[o].Sk? ==> HasId(o, c0, c1) == (c0 == 's' && c1 == 'k')
      ensures cells[o].Vk? ==> HasId(o, c0, c1) == (c0 == 'v' && c1 == 'k')
    {
      hide Tiled, CellsOk, U32, U16;
      var n := BlockLen(o);
      IsId(addr, o, c0, c1)
    }

    function NkGet(o: nat, f: NkField): (v: u32)
      reads this
      requires HeapOk() && o in cells && cells[o].Nk?
      ensures v == Get(cells[o], f)
    {
      hide Tiled, CellsOk, HeadOk, Holds, U16, U32, At;
      var n := BlockLen(o);
      NkReads(addr, o, n, cells[o], f);
      U32(addr, o + At(f))
    }

    function NkMaxSubkey(o: nat): (v: u16)
      reads this
      requires HeapOk() && o in cells && cells[o].Nk?
      ensures v == cells[o].maxSubkey
    {
      hide Tiled, CellsOk;
      var n := BlockLen(o);
      U16(addr, o + 56)
    }

    /** hivex_node_name: name_len bytes, refused when they do not fit the block. */
    function NodeName(o: nat): (name: seq<byte>)
      reads this
      requires HeapOk() && o in cells && cells[o].Nk?
      ensures name == cells[o].name
    {
      hide Tiled, CellsOk, U16;
      var n := BlockLen(o);
      addr[o + 80..o + 80 + U16(addr, o + 76)]
    }

    function LfCount(o: nat): (c: nat)
      reads this
      requires HeapOk() && o in cells && cells[o].Lf?
      ensures c == |cells[o].keys|
    {
      hide Tiled, CellsOk, U16, U32;
      var n := BlockLen(o);
      U16(addr, o + 6)
    }

    function LfKey(o: nat, i: nat): (k: Key)
      reads this
      requires HeapOk() && o in cells && cells[o].Lf? && i < |cells[o].keys|
      ensures k == cells[o].keys[i]
    {
      hide Tiled, CellsOk, U16, U32;
      var n := BlockLen(o);
      Key(U32(addr, o + 8 + 8 * i), U32(addr, o + 12 + 8 * i))
    }

    lemma NkRoom(o: nat)
      requires HeapOk() && o in cells && cells[o].Nk?
      ensures 80 + |cells[o].name| <= BlockLen(o) <= |addr| - o
    {
      hide Tiled, CellsOk, U16, U32;
    }

    lemma VkRoom(o: nat)
      requires HeapOk() && o in cells && cells[o].Vk?
      ensures 24 + |cells[o].key| <= BlockLen(o) <= |addr| - o && |cells[o].key| < 0x1_0000
    {
      hide Tiled, CellsOk, U16, U32;
    }

    lemma ValListRoom(o: nat)
      requires HeapOk() && o in cells && cells[o].ValList?
      ensures 4 + 4 * |cells[o].vks| <= BlockLen(o) <= |addr| - o
    {
      hide Tiled, CellsOk, U16, U32;
    }

    lemma LfRoom(o: nat)
      requires HeapOk() && o in cells && cells[o].Lf?
      ensures 8 + 8 * |cells[o].keys| <= BlockLen(o) <= |addr| - o
    {
      hide Tiled, CellsOk, U16, U32;
    }

    lemma RiRoom(o: nat)
      requires HeapOk() && o in cells && cells[o].Ri?
      ensures 8 + 4 * |cells[o].offs| <= BlockLen(o) <= |addr| - o
    {
      hide Tiled, CellsOk, U16, U32;
    }

    function RiCount(o: nat): (c: nat)
      reads this
      requires HeapOk() && o in cells && cells[o].Ri?
      ensures c == |cells[o].offs|
    {
      hide Tiled, CellsOk, U16, U32;
      var n := BlockLen(o);
      U16(addr, o + 6)
    }

    function RiGet(o: nat, i: nat): (v: u32)
      reads this
      requires HeapOk() && o in cells && cells[o].Ri? && i < |cells[o].offs|
      ensures v == cells[o].offs[i]
    {
      hide Tiled, CellsOk, U16, U32;
      var n := BlockLen(o);
      U32(addr, o + 8 + 4 * i)
    }

    function ValListGet(o: nat, i: nat): (v: u32)
      reads this
      requires HeapOk() && o in cells && cells[o].ValList? && i < |cells[o].vks|
      ensures v == cells[o].vks[i]
    {
      hide Tiled, CellsOk, U16, U32;
      var n := BlockLen(o);
      U32(addr, o + 4 + 4 * i)
    }

    function VkGet(o: nat): (r: (u32, u32, u32))
      reads this
      requires HeapOk() && o in cells && cells[o].Vk?
      ensures r == (cells[o].dataLen, cells[o].data, cells[o].typ)
    {
      hide Tiled, CellsOk, U16, U32;
      var n := BlockLen(o);
      (U32(addr, o + 8), U32(addr, o + 12), U32(addr, o + 16))
    }

    /** hivex_value_key: name_len bytes, refused when they do not fit the block. */
    function VkKey(o: nat): (key: seq<byte>)
      reads this
      requires HeapOk() && o in cells && cells[o].Vk?
      ensures key == cells[o].key
    {
      hide Tiled, CellsOk, U16, U32;
      var n := BlockLen(o);
      addr[o + 24..o + 24 + U16(addr, o + 6)]
    }

    function SkGet(o: nat): (r: (u32, u32, u32))
      reads this
      requires HeapOk() && o in cells && cells[o].Sk?
      ensures r == (cells[o].next, cells[o].prev, cells[o].refcount)
    {
      hide Tiled, CellsOk, U16, U32;
      var n := BlockLen(o);
      (U32(addr, o + 8), U32(addr, o + 12), U32(addr, o + 16))
    }

    /** At most len bytes of an out-of-line data block. */
    function BlobGet(o: nat, len: nat): (d: seq<byte>)
      reads this
      requires HeapOk() && o in cells && cells[o].Blob?
      ensures d == if len > |cells[o].bytes| then cells[o].bytes else cells[o].bytes[..len]
    {
      hide Tiled, CellsOk, U16, U32;
      var n := BlockLen(o);
      if len > n - 4 then addr[o + 4..o + n] else addr[o + 4..o + 4 + len]
    }

    lemma WithinStore(o: nat, b: seq<byte>)
      requires HeapOk() && o in cells && KeepsBut(addr, b, o) && Within() && ChangedIn(addr, b, license)
      ensures ChangedIn(base, b, license) && (license.frozen ==> SameBlocks(base, b, endpages))
    {
      hide Tst, U32, U16, Holds, HeadOk, Marked, TailOk, AllBlocks, PagesTile;
      assert CellAt(addr, endpages, o, cells[o]);
      hide CellsOk, ChangedIn, SameBlocks;
      BlockIn(addr, PAGES, endpages, o);
      SameHeader(addr, b, o);
      ChangedTrans(base, addr, b, license);
      if license.frozen { BlocksStay(base, addr, b, endpages, o); }
    }

    method Store(o: nat, b: seq<byte>, ghost r: Rec)
      requires HeapOk() && o in cells && KeepsBut(addr, b, o) && Holds(b, o, BlockLen(o), r)
      modifies this`addr, this`cells
      ensures HeapOk() && cells == old(cells)[o := r] && addr == b && BlockLen(o) == old(BlockLen(o))
      ensures old(Within()) && (license.floor <= o || ChangedIn(old(addr), b, license)) ==> Within()
    {
      hide Tiled, CellsOk, By4, By4096, By8, PagesTile, AllBlocks, Tst, U32, U16, Holds, HeadOk, ChangedIn,
        SameBlocks;
      if license.floor <= o { AboveChanged(addr, b, o, license); }
      if Within() && ChangedIn(addr, b, license) { WithinStore(o, b); }
      SameHeader(addr, b, o);
      CellValid(o);
      HeadSame(addr, b, rootoffs);
      WriteCell(addr, b, bitmap, endpages, endblocks, cells, o, r);
      addr := b;
      cells := cells[o := r];
    }

    method NkSet(o: nat, f: NkField, v: u32)
      requires HeapOk() && o in cells && cells[o].Nk?
      modifies this`addr, this`cells
      ensures HeapOk() && cells == old(cells)[o := Upd(old(cells)[o], f, v)] && KeepsBut(old(addr), addr, o)
      ensures old(Within()) && MayPut(license, o, o + At(f), 4) ==> Within()
    {
      hide Tiled, CellsOk;
      var n := BlockLen(o);
      NkPut(addr, o, n, cells[o], f, v);
      if Covers(license, o + At(f), 4) { PutChanged(addr, o + At(f), Le32(v), license); }
      Store(o, Put32(addr, o + At(f), v), Upd(cells[o], f, v));
    }

    method NkSetMaxSubkey(o: nat, v: u16)
      requires HeapOk() && o in cells && cells[o].Nk?
      modifies this`addr, this`cells
      ensures HeapOk() && cells == old(cells)[o := old(cells)[o].(maxSubkey := v)] && KeepsBut(old(addr), addr, o)
      ensures old(Within()) && MayPut(license, o, o + 56, 2) ==> Within()
    {
      hide Tiled, CellsOk;
      NkPutMaxSubkey(addr, o, BlockLen(o), cells[o], v);
      if Covers(license, o + 56, 2) { PutChanged(addr, o + 56, Le16(v), license); }
      Store(o, Put16(addr, o + 56, v), cells[o].(maxSubkey := v));
    }

    lemma KeyChanged(a: seq<byte>, p: nat, k: Key, L: Licence)
      requires p + 8 <= |a| && Covers(L, p, 8)
      ensures ChangedIn(a, Put32(Put32(a, p, k.off), p + 4, k.hash), L)
    {
      hide Le32, U32, U16;
      PutChanged(a, p, Le32(k.off), L);
      PutChanged(Put32(a, p, k.off), p + 4, Le32(k.hash), L);
      ChangedTrans(a, Put32(a, p, k.off), Put32(Put32(a, p, k.off), p + 4, k.hash), L);
    }

    method LfSetKey(o: nat, i: nat, k: Key)
      requires HeapOk() && o in cells && cells[o].Lf? && i < |cells[o].keys|
      modifies this`addr, this`cells
      ensures HeapOk() && KeepsBut(old(addr), addr, o)
      ensures cells == old(cells)[o := old(cells)[o].(keys := old(cells)[o].keys[i := k])]
      ensures old(Within()) && MayPut(license, o, o + 8 + 8 * i, 8) ==> Within()
    {
      hide Tiled, CellsOk, U32, U16;
      var n := BlockLen(o);
      LfPutKey(addr, o, n, cells[o], i, k);
      if Covers(license, o + 8 + 8 * i, 8) { KeyChanged(addr, o + 8 + 8 * i, k, license); }
      Store(o, Put32(Put32(addr, o + 8 + 8 * i, k.off), o + 12 + 8 * i, k.hash),
            cells[o].(keys := cells[o].keys[i := k]));
    }

    method LfSetCount(o: nat, c: nat)
      requires HeapOk() && o in cells && cells[o].Lf? && c <= |cells[o].keys|
      modifies this`addr, this`cells
      ensures HeapOk() && KeepsBut(old(addr), addr, o)
      ensures cells == old(cells)[o := old(cells)[o].(keys := old(cells)[o].keys[..c])]
      ensures old(Within()) && MayPut(license, o, o + 6, 2) ==> Within()
    {
      hide Tiled, CellsOk, U32, U16;
      var n := BlockLen(o);
      LfPutCount(addr, o, n, cells[o], c);
      if Covers(license, o + 6, 2) { PutChanged(addr, o + 6, Le16(c), license); }
      Store(o, Put16(addr, o + 6, c), cells[o].(keys := cells[o].keys[..c]));
    }

    method RiSet(o: nat, i: nat, v: u32)
      requires HeapOk() && o in cells && cells[o].Ri? && i < |cells[o].offs|
      modifies this`addr, this`cells
      ensures HeapOk() && KeepsBut(old(addr), addr, o)
      ensures cells == old(cells)[o := Ri(old(cells)[o].offs[i := v])]
      ensures old(Within()) && MayPut(license, o, o + 8 + 4 * i, 4) ==> Within()
    {
      hide Tiled, CellsOk, U32, U16;
      var n := BlockLen(o);
      RiPut(addr, o, n, cells[o], i, v);
      if Covers(license, o + 8 + 4 * i, 4) { PutChanged(addr, o + 8 + 4 * i, Le32(v), license); }
      Store(o, Put32(addr, o + 8 + 4 * i, v), Ri(cells[o].offs[i := v]));
    }

    method ValListSet(o: nat, i: nat, v: u32)
      requires HeapOk() && o in cells && cells[o].ValList? && i < |cells[o].vks|
      modifies this`addr, this`cells
      ensures HeapOk() && KeepsBut(old(addr), addr, o)
      ensures cells == old(cells)[o := ValList(old(cells)[o].vks[i := v])]
      ensures old(Within()) && MayPut(license, o, o + 4 + 4 * i, 4) ==> Within()
    {
      hide Tiled, CellsOk, U32, U16;
      var n := BlockLen(o);
      ValListPut(addr, o, n, cells[o], i, v);
      if Covers(license, o + 4 + 4 * i, 4) { PutChanged(addr, o + 4 + 4 * i, Le32(v), license); }
      Store(o, Put32(addr, o + 4 + 4 * i, v), ValList(cells[o].vks[i := v]));
    }

    method VkSetData(o: nat, v: u32)
      requires HeapOk() && o in cells && cells[o].Vk?
      modifies this`addr, this`cells
      ensures HeapOk() && cells == old(cells)[o := old(cells)[o].(data := v)] && KeepsBut(old(addr), addr, o)
      ensures old(Within()) && MayPut(license, o, o + 12, 4) ==> Within()
    {
      hide Tiled, CellsOk, U32, U16;
      var n := BlockLen(o);
      VkPut(addr, o, n, cells[o], v);
      if Covers(license, o + 12, 4) { PutChanged(addr, o + 12, Le32(v), license); }
      Store(o, Put32(addr, o + 12, v), cells[o].(data := v));
    }

    method SkSetNext(o: nat, v: u32)
      requires HeapOk() && o in cells && cells[o].Sk?
      modifies this`addr, this`cells
      ensures HeapOk() && cells == old(cells)[o := old(cells)[o].(next := v)] && KeepsBut(old(addr), addr, o)
      ensures old(Within()) && MayPut(license, o, o + 8, 4) ==> Within()
    {
      hide Tiled, CellsOk, U32, U16;
      var n := BlockLen(o);
      SkPut(addr, o, n, cells[o], v);
      if Covers(license, o + 8, 4) { PutChanged(addr, o + 8, Le32(v), license); }
      Store(o, Put32(addr, o + 8, v), cells[o].(next := v));
    }

    method SkSetPrev(o: nat, v: u32)
      requires HeapOk() && o in cells && cells[o].Sk?
      modifies this`addr, this`cells
      ensures HeapOk() && cells == old(cells)[o := old(cells)[o].(prev := v)] && KeepsBut(old(addr), addr, o)
      ensures old(Within()) && MayPut(license, o, o + 12, 4) ==> Within()
    {
      hide Tiled, CellsOk, U32, U16;
      var n := BlockLen(o);
      SkPut(addr, o, n, cells[o], v);
      if Covers(license, o + 12, 4) { PutChanged(addr, o + 12, Le32(v), license); }
      Store(o, Put32(addr, o + 12, v), cells[o].(prev := v));
    }

    method SkSetRefcount(o: nat, v: u32)
      requires HeapOk() && o in cells && cells[o].Sk?
      modifies this`addr, this`cells
      ensures HeapOk() && cells == old(cells)[o := old(cells)[o].(refcount := v)] && KeepsBut(old(addr), addr, o)
      ensures old(Within()) && MayPut(license, o, o + 16, 4) ==> Within()
    {
      hide Tiled, CellsOk, U32, U16;
      var n := BlockLen(o);
      SkPut(addr, o, n, cells[o], v);
      if Covers(license, o + 16, 4) { PutChanged(addr, o + 16, Le32(v), license); }
      Store(o, Put32(addr, o + 16, v), cells[o].(refcount := v));
    }

    // ---------- new records

    method NkSetFlags(o: nat, v: u16)
      requires HeapOk() && o in cells && cells[o].Nk?
      modifies this`addr, this`cells
      ensures HeapOk() && cells == old(cells)[o := old(cells)[o].(flags := v)] && KeepsBut(old(addr), addr, o)
      ensures BlockLen(o) == old(BlockLen(o))
      ensures old(Within()) && MayPut(license, o, o + 6, 2) ==> Within()
    {
      hide Tiled, CellsOk;
      NkPutFlags(addr, o, BlockLen(o), cells[o], v);
      if Covers(license, o + 6, 2) { PutChanged(addr, o + 6, Le16(v), license); }
      Store(o, Put16(addr, o + 6, v), cells[o].(flags := v));
    }

    method NkSetName(o: nat, name: seq<byte>)
      requires HeapOk() && o in cells && cells[o].Nk? && |name| < 0x1_0000 && 81 + |name| <= BlockLen(o)
      modifies this`addr, this`cells
      ensures HeapOk() && cells == old(cells)[o := old(cells)[o].(name := name)] && KeepsBut(old(addr), addr, o)
      ensures old(Within()) && license.floor <= o ==> Within()
    {
      hide Tiled, CellsOk, U32, U16, Le16;
      var n := BlockLen(o);
      NkPutName(addr, o, n, cells[o], name);
      Store(o, Put(Put16(addr, o + 76, |name|), o + 80, name + [0]), cells[o].(name := name));
    }

    /** Reads the zeroed block just allocated as the empty record of its kind. */
    lemma FreshRecord(off: nat, id: seq<byte>, n: nat)
      requires HeapOk() && |id| == 2 && 8 <= n && off in cells && cells[off] == Blob(Fresh(id, n))
      ensures BlockLen(off) == n
      ensures id == ID_NK && 81 <= n ==> NkAt(addr, off, n, ZERO_NK)
      ensures id == ID_VK && 25 <= n ==> VkAt(addr, off, n, ZERO_VK)
      ensures forall c: nat :: id == ID_NUL && 4 + 4 * c <= n ==> ValListAt(addr, off, n, ValList(NoOffs(c)))
      ensures forall lh: bool, c: nat :: id == (if lh then ID_LH else ID_LF) && 8 + 8 * c <= n && c < 0x1_0000 ==>
                LfAt(Put16(addr, off + 6, c), off, n, Lf(lh, NoKeys(c)))
    {
      hide Tiled, CellsOk, U32, U16, NkAt, VkAt, LfAt, ValListAt;
      assert Holds(addr, off, BlockLen(off), cells[off]);
      FreshCleared(addr, off, n, id);
      if id == ID_NK && 81 <= n { ClearedNk(addr, off, n); }
      if id == ID_VK && 25 <= n { ClearedVk(addr, off, n); }
      forall c: nat | id == ID_NUL && 4 + 4 * c <= n
        ensures ValListAt(addr, off, n, ValList(NoOffs(c)))
      {
        ClearedValList(addr, off, n, c);
      }
      forall lh: bool, c: nat | id == (if lh then ID_LH else ID_LF) && 8 + 8 * c <= n && c < 0x1_0000
        ensures LfAt(Put16(addr, off + 6, c), off, n, Lf(lh, NoKeys(c)))
      {
        ClearedLf(addr, off, n, lh, c);
      }
    }

    /** An nk record with the given name; all other fields zero but the ASCII flag. */
    method NewNk(name: seq<byte>) returns (off: nat)
      requires HeapOk() && |name| < 0x1_0000
      modifies this`addr, this`bitmap, this`endpages, this`endblocks, this`cells
      ensures off == 0 <==> old(Refused(81 + |name|))
      ensures off == 0 ==> unchanged(this)
      ensures off != 0 ==> HeapOk() && Allocated(off, 81 + |name|)
      ensures off != 0 ==> cells == old(cells)[off := ZERO_NK.(flags := 0x0020, name := name)]
      ensures off != 0 && old(Within() && Roomy()) ==> Within() && Roomy() && license.floor <= off
    {
      hide Tiled, CellsOk, U32, U16, Le16, Round8, Place, Within;
      off := AllocateBlock(81 + |name|, ID_NK);
      if off == 0 { return; }
      RoundFacts(81 + |name|);
      FreshRecord(off, ID_NK, Round8(81 + |name|));
      Store(off, addr, ZERO_NK);
      NkSetFlags(off, 0x0020);
      NkSetName(off, name);
    }

    /** An lf or lh record with room for c keys, all zero. */
    method NewLf(lh: bool, c: nat) returns (off: nat)
      requires HeapOk() && 1 <= c < 0x1_0000
      modifies this`addr, this`bitmap, this`endpages, this`endblocks, this`cells
      ensures off == 0 <==> old(Refused(8 + 8 * c))
      ensures off == 0 ==> unchanged(this)
      ensures off != 0 ==> HeapOk() && Allocated(off, 8 + 8 * c) && cells == old(cells)[off := Lf(lh, NoKeys(c))]
      ensures off != 0 && old(Within() && Roomy()) ==> Within() && Roomy() && license.floor <= off
    {
      hide Tiled, CellsOk, U32, U16, Le16, Round8, Place, LfAt, Within;
      off := AllocateBlock(8 + 8 * c, if lh then ID_LH else ID_LF);
      if off == 0 { return; }
      RoundFacts(8 + 8 * c);
      FreshRecord(off, if lh then ID_LH else ID_LF, Round8(8 + 8 * c));
      assert LfAt(Put16(addr, off + 6, c), off, Round8(8 + 8 * c), Lf(lh, NoKeys(c)));
      Store(off, Put16(addr, off + 6, c), Lf(lh, NoKeys(c)));
    }

    /** A value list of c entries, all zero. */
    method NewValList(c: nat) returns (off: nat)
      requires HeapOk() && 1 <= c
      modifies this`addr, this`bitmap, this`endpages, this`endblocks, this`cells
      ensures off == 0 <==> old(Refused(4 + 4 * c))
      ensures off == 0 ==> unchanged(this)
      ensures off != 0 ==> HeapOk() && Allocated(off, 4 + 4 * c) && cells == old(cells)[off := ValList(NoOffs(c))]
      ensures off != 0 && old(Within() && Roomy()) ==> Within() && Roomy() && license.floor <= off
    {
      hide Tiled, CellsOk, U32, U16, Le16, Round8, Place, ValListAt, Within;
      off := AllocateBlock(4 + 4 * c, ID_NUL);
      if off == 0 { return; }
      RoundFacts(4 + 4 * c);
      FreshRecord(off, ID_NUL, Round8(4 + 4 * c));
      assert ValListAt(addr, off, Round8(4 + 4 * c), ValList(NoOffs(c)));
      Store(off, addr, ValList(NoOffs(c)));
    }

    /** A vk record whose data field is still zero. */
    method NewVk(key: seq<byte>, typ: u32, len: u32, flags: u16) returns (off: nat)
      requires HeapOk() && |key| < 0x1_0000
      modifies this`addr, this`bitmap, this`endpages, this`endblocks, this`cells
      ensures off == 0 <==> old(Refused(25 + |key|))
      ensures off == 0 ==> unchanged(this)
      ensures off != 0 ==> HeapOk() && Allocated(off, 25 + |key|)
      ensures off != 0 ==> cells == old(cells)[off := Vk(key, len, 0, typ, flags)]
      ensures off != 0 && old(Within() && Roomy()) ==> Within() && Roomy() && license.floor <= off
    {
      hide Tiled, CellsOk, U32, U16, Le16, Le32, Round8, Place, VkAt, Put, Put16, Put32, HeadOk, Fresh, Within;
      off := AllocateBlock(25 + |key|, ID_VK);
      if off == 0 { return; }
      RoundFacts(25 + |key|);
      var n := Round8(25 + |key|);
      FreshRecord(off, ID_VK, n);
      VkPutHead(addr, off, n, ZERO_VK, key, typ, len, flags);
      var b := Put(Put16(addr, off + 6, |key|), off + 24, key + [0]);
      Store(off, Put16(Put32(Put32(b, off + 16, typ), off + 8, len), off + 20, flags), Vk(key, len, 0, typ, flags));
    }

    /** A block without id holding d, padded with zeros. */
    method NewBlob(d: seq<byte>) returns (off: nat)
      requires HeapOk()
      modifies this`addr, this`bitmap, this`endpages, this`endblocks, this`cells
      ensures off == 0 <==> old(Refused(4 + |d|))
      ensures off == 0 ==> unchanged(this)
      ensures off != 0 ==> HeapOk() && Allocated(off, 4 + |d|)
      ensures off != 0 ==> off in cells && cells[off].Blob? && d <= cells[off].bytes
                           && cells == old(cells)[off := cells[off]]
      ensures off != 0 && old(Within() && Roomy()) ==> Within() && Roomy() && license.floor <= off
    {
      hide Tiled, CellsOk, U32, U16, Le16, Le32, Round8, Place, Within;
      off := AllocateBlock(4 + |d|, ID_NUL);
      if off == 0 { return; }
      RoundFacts(4 + |d|);
      var n := Round8(4 + |d|);
      FreshRecord(off, ID_NUL, n);
      var b := Put(addr, off + 4, d);
      var r := Blob(b[off + 4..off + n]);
      Store(off, b, r);
    }
  }
}
