/** The block allocator over whole runs: it only ever moves up, and never into a block that was there before. */
module Allocator {
  import opened Bytes
  import opened Bitmap
  import Records
  import opened Layout
  import opened Heap
  import opened Hives

  /** Where the blocks of a run of allocations go. Frees in between do not move the two ends. */
  function Offsets(ep: nat, eb: nat, lens: seq<nat>): (r: seq<nat>)
    ensures |r| == |lens|
    decreases |lens|
  {
    if lens == [] then [] else
      var p := Place(ep, eb, Round8(lens[0]));
      [p.0] + Offsets(p.1, p.2, lens[1..])
  }

  /** One step up: the block is aligned, inside the pages, and both ends stay aligned. */
  lemma PlaceFacts(ep: nat, eb: nat, len: nat)
    requires By8(ep) && By8(eb) && eb <= ep
    ensures var (off, ep', eb') := Place(ep, eb, Round8(len));
            By8(off) && By8(ep') && By8(eb') && eb <= off && off + Round8(len) == eb' <= ep' && ep <= ep'
            && (eb == 0 ==> ep + HBIN == off)
  {
    RoundFacts(len);
    PageFacts(Round8(len));
    hide Round8, PageBytes;
    Eights(ep, eb, Round8(len), PageBytes(Round8(len)));
  }

  lemma Eights(ep: nat, eb: nat, n: nat, page: nat)
    requires By8(ep) && By8(eb) && By8(n) && By4096(page)
    ensures By8(ep + HBIN) && By8(ep + page) && By8(ep + HBIN + n) && By8(eb + n)
  {
    assert page == 8 * (512 * (page / 4096));
  }

  lemma {:induction false} LaterAbove(ep: nat, eb: nat, lens: seq<nat>, j: nat)
    requires By8(ep) && By8(eb) && eb <= ep && j < |lens|
    ensures eb <= Offsets(ep, eb, lens)[j] && By8(Offsets(ep, eb, lens)[j]) && (eb == 0 ==> ep < Offsets(ep, eb, lens)[j])
    decreases |lens|
  {
    hide Place, Round8, By8;
    PlaceFacts(ep, eb, lens[0]);
    if j > 0 {
      var (off, ep', eb') := Place(ep, eb, Round8(lens[0]));
      LaterAbove(ep', eb', lens[1..], j - 1);
    }
  }

  /** Over any run offsets are 8-aligned and each block ends before the next begins. */
  lemma {:induction false} OffsetsRise(ep: nat, eb: nat, lens: seq<nat>, i: nat, j: nat)
    requires By8(ep) && By8(eb) && eb <= ep && i < j < |lens|
    ensures By8(Offsets(ep, eb, lens)[i]) && Offsets(ep, eb, lens)[i] + Round8(lens[i]) <= Offsets(ep, eb, lens)[j]
    decreases |lens|
  {
    hide Place, Round8, By8;
    PlaceFacts(ep, eb, lens[0]);
    var (off, ep', eb') := Place(ep, eb, Round8(lens[0]));
    if i == 0 {
      LaterAbove(ep', eb', lens[1..], j - 1);
    } else {
      OffsetsRise(ep', eb', lens[1..], i - 1, j - 1);
    }
  }

  /** The end of pages after the first k allocations. */
  function PagesAfter(ep: nat, eb: nat, lens: seq<nat>, k: nat): nat
    requires k <= |lens|
    decreases k
  {
    if k == 0 then ep else
      var p := Place(ep, eb, Round8(lens[0]));
      PagesAfter(p.1, p.2, lens[1..], k - 1)
  }

  /** No space is left between blocks but at the end of a page that cannot hold the next one; then the image grows by the
      fewest pages' worth that can. */
  lemma {:induction false} Compact(ep: nat, eb: nat, lens: seq<nat>, j: nat)
    requires By8(ep) && By8(eb) && eb <= ep && j + 1 < |lens|
    ensures var e, e', next := PagesAfter(ep, eb, lens, j + 1), PagesAfter(ep, eb, lens, j + 2), Offsets(ep, eb, lens)[j] + Round8(lens[j]);
            next <= e && if next + Round8(lens[j + 1]) <= e then Offsets(ep, eb, lens)[j + 1] == next && e' == e
            else Offsets(ep, eb, lens)[j + 1] == e + HBIN && e' > e && By4096(e' - e)
                 && forall m: nat :: By4096(m) && Round8(lens[j + 1]) + HBIN <= m ==> e' - e <= m
    decreases |lens|
  {
    hide Round8, By8, By4096, PageBytes;
    PlaceFacts(ep, eb, lens[0]);
    var (off, ep', eb') := Place(ep, eb, Round8(lens[0]));
    if j > 0 {
      hide Place;
      Compact(ep', eb', lens[1..], j - 1);
    } else {
      RoundFacts(lens[0]);
      var n := Round8(lens[1]);
      PageFacts(n);
      forall m: nat | By4096(m) && n + HBIN <= m
        ensures PageBytes(n) <= m
      {
        PageSmallest(n, m);
      }
      FirstOffset(ep', eb', lens[1..]);
      assert lens[1..][1..] == lens[2..] && PagesAfter(ep', eb', lens[1..], 1) == Place(ep', eb', n).1;
    }
  }

  /** Lengths that allocate_block does not refuse one after the other. */
  predicate AllFit(ep: nat, eb: nat, lens: seq<nat>)
    decreases |lens|
  {
    lens == [] || (var p := Place(ep, eb, Round8(lens[0]));
      4 <= lens[0] <= MAX_ALLOCATION && p.1 <= MAX_IMAGE && AllFit(p.1, p.2, lens[1..]))
  }

  /** Every block there is, used or freed, lies below the next allocation, but for the free rest it is cut from. */
  lemma AboveAll(a: seq<byte>, bm: seq<bv8>, ep: nat, eb: nat, n: nat, y: nat)
    requires Tiled(a, bm, ep, eb) && y in AllBlocks(a, PAGES, ep)
    ensures y + 8 <= ep <= |a|
    ensures var off := Place(ep, eb, n).0; y + Len(a, y) <= off || (y == off == eb && !Used(a, y))
  {
    hide Marked, By4, By4096, U32, U16, PagesTile, AllBlocks, PageBytes, By8;
    BlockIn(a, PAGES, ep, y);
    if eb in AllBlocks(a, PAGES, ep) {
      BlockIn(a, PAGES, ep, eb);
      if y < eb { Apart(a, PAGES, ep, y, eb); }
      if eb < y { Apart(a, PAGES, ep, eb, y); }
    }
  }

  /** A page added on demand is the smallest whole number of 4096 bytes that holds header and block. */
  lemma PageSmallest(n: nat, m: nat)
    requires By4096(m) && n + HBIN <= m
    ensures By4096(PageBytes(n)) && n + HBIN <= PageBytes(n) <= m
  {
    PageFacts(n);
    hide PageBytes;
    var k, j := m / 4096, PageBytes(n) / 4096;
    assert m == 4096 * k && PageBytes(n) == 4096 * j;
  }

  lemma EndsAligned(h: Hive)
    requires h.HeapOk()
    ensures By8(h.endpages) && By8(h.endblocks) && h.endblocks <= h.endpages
  {
    hide Tiled, CellsOk, HeadOk, By8, By4096;
    TailFacts(h.addr, h.bitmap, h.endpages, h.endblocks);
  }

  /** Blocks of the given lengths, each above the one before, all 8-aligned. */
  ghost predicate Rising(offs: seq<nat>, lens: seq<nat>)
    requires |offs| == |lens|
  {
    (forall i :: 0 <= i < |offs| ==> By8(offs[i]))
    && forall i, j :: 0 <= i < j < |offs| ==> offs[i] + Round8(lens[i]) <= offs[j]
  }

  lemma RunRises(h: Hive, lens: seq<nat>)
    requires h.HeapOk()
    ensures Rising(Offsets(h.endpages, h.endblocks, lens), lens)
  {
    hide Heap.Tiled, Heap.CellsOk, Hive.HeapOk, Hive.Within, Offsets, By8, Round8;
    EndsAligned(h);
    var offs := Offsets(h.endpages, h.endblocks, lens);
    forall i | 0 <= i < |offs|
      ensures By8(offs[i])
    {
      LaterAbove(h.endpages, h.endblocks, lens, i);
    }
    forall i, j | 0 <= i < j < |offs|
      ensures offs[i] + Round8(lens[i]) <= offs[j]
    {
      OffsetsRise(h.endpages, h.endblocks, lens, i, j);
    }
  }

  /** A call of a run: a block of len bytes, or a used block freed. */
  datatype Call = Allocate(len: nat) | Free(off: nat)

  /** The lengths allocated by a run. */
  function Lens(calls: seq<Call>): seq<nat>
    decreases |calls|
  {
    if calls == [] then []
    else (if calls[0].Allocate? then [calls[0].len] else []) + Lens(calls[1..])
  }

  /** Every block of the image, used or freed, ends below all of offs, but for the free rest they are cut from. */
  ghost predicate ClearOf(a: seq<byte>, ep: nat, eb: nat, offs: seq<nat>)
    requires ep <= |a| && PagesTile(a, PAGES, ep)
  {
    forall y, i :: y in AllBlocks(a, PAGES, ep) && 0 <= i < |offs| ==>
      y + 8 <= ep && (y + Len(a, y) <= offs[i] || (y == eb && !Used(a, y)))
  }

  lemma BlockClear(a: seq<byte>, bm: seq<bv8>, ep: nat, eb: nat, lens: seq<nat>, y: nat, i: nat)
    requires Tiled(a, bm, ep, eb) && y in AllBlocks(a, PAGES, ep) && i < |lens|
    ensures y + 8 <= ep && (y + Len(a, y) <= Offsets(ep, eb, lens)[i] || (y == eb && !Used(a, y)))
  {
    hide Tiled, By8, By4096, U32, U16, AllBlocks, Round8, Place, Offsets;
    TailFacts(a, bm, ep, eb);
    AboveAll(a, bm, ep, eb, Round8(lens[0]), y);
    FirstOffset(ep, eb, lens);
    if i > 0 { OffsetsRise(ep, eb, lens, 0, i); }
  }

  lemma RunClear(h: Hive, lens: seq<nat>)
    requires h.HeapOk()
    ensures h.endpages <= |h.addr| && PagesTile(h.addr, PAGES, h.endpages)
    ensures ClearOf(h.addr, h.endpages, h.endblocks, Offsets(h.endpages, h.endblocks, lens))
  {
    hide CellsOk, Marked, TailOk, PagesTile, AllBlocks, HeadOk, Offsets, Used, Len;
    forall y, i | y in AllBlocks(h.addr, PAGES, h.endpages) && 0 <= i < |Offsets(h.endpages, h.endblocks, lens)|
      ensures y + 8 <= h.endpages
              && (y + Len(h.addr, y) <= Offsets(h.endpages, h.endblocks, lens)[i] || (y == h.endblocks && !Used(h.addr, y)))
    {
      BlockClear(h.addr, h.bitmap, h.endpages, h.endblocks, lens, y, i);
    }
    assert ClearOf(h.addr, h.endpages, h.endblocks, Offsets(h.endpages, h.endblocks, lens));
  }

  lemma NoCells(h: Hive, offs: seq<nat>)
    requires h.HeapOk() && h.endpages <= |h.addr| && PagesTile(h.addr, PAGES, h.endpages)
    requires ClearOf(h.addr, h.endpages, h.endblocks, offs)
    ensures forall i :: 0 <= i < |offs| ==> offs[i] !in h.cells
  {
    hide Marked, TailOk, HeadOk, AllBlocks, PagesTile, U32, U16, Records.Holds;
    forall y | y in h.cells
      ensures y !in offs
    {
      assert CellAt(h.addr, h.endpages, y, h.cells[y]);
      BlockIn(h.addr, PAGES, h.endpages, y);
    }
  }

  lemma FirstOffset(ep: nat, eb: nat, lens: seq<nat>)
    requires lens != []
    ensures var p := Place(ep, eb, Round8(lens[0])); Offsets(ep, eb, lens) == [p.0] + Offsets(p.1, p.2, lens[1..])
  {
    hide Place, Round8;
  }

  /** None of the offsets was marked before the run. */
  lemma NotMarked(h: Hive, offs: seq<nat>)
    requires h.HeapOk() && h.endpages <= |h.addr| && PagesTile(h.addr, PAGES, h.endpages)
    requires ClearOf(h.addr, h.endpages, h.endblocks, offs)
    ensures forall i :: 0 <= i < |offs| ==> offs[i] !in Marks(h.bitmap)
  {
    hide TailOk, HeadOk, AllBlocks, PagesTile, U32, U16, CellsOk, Tst, Used;
    forall y | y in Marks(h.bitmap)
      ensures y !in offs
    {
      assert By4(y) && UsedAt(h.addr, h.endpages, y);
      BlockIn(h.addr, PAGES, h.endpages, y);
    }
  }

  /** The blocks freed by a run. */
  ghost function Freed(calls: seq<Call>): set<nat> { set c | c in calls && c.Free? :: c.off }

  /** Marked are the blocks marked before and the new ones, but for those freed since. */
  ghost predicate Left(m0: set<nat>, m: set<nat>, offs: seq<nat>, freed: set<nat>) {
    m == m0 + (set x | x in offs) - freed && freed <= m0 + (set x | x in offs)
  }

  lemma LeftAll(m: set<nat>, calls: seq<Call>)
    ensures Left(m, m, [], Freed(calls[..0]))
  {
  }

  lemma LeftMore(m0: set<nat>, m: set<nat>, offs: seq<nat>, calls: seq<Call>, i: nat, off: nat)
    requires i < |calls| && Left(m0, m, offs, Freed(calls[..i]))
    ensures calls[i].Allocate? && off !in m0 && off !in offs ==> Left(m0, m + {off}, offs + [off], Freed(calls[..i + 1]))
    ensures calls[i] == Free(off) && off in m ==> Left(m0, m - {off}, offs, Freed(calls[..i + 1]))
  {
    assert calls[..i + 1] == calls[..i] + [calls[i]];
    assert Freed(calls[..i + 1]) == Freed(calls[..i]) + (if calls[i].Free? then {calls[i].off} else {});
  }

  /** A new block lies at or above the end of the blocks. */
  lemma NewAbove(h: Hive, len: nat)
    requires h.HeapOk()
    ensures var p := Place(h.endpages, h.endblocks, Round8(len)); h.endblocks <= p.0 && p.0 + Round8(len) == p.2
  {
    hide Heap.Tiled, Heap.CellsOk, Hive.HeapOk, Place, Round8, By8;
    EndsAligned(h);
    PlaceFacts(h.endpages, h.endblocks, len);
  }

  /** A run of allocations and frees on the hive. Frees need no more than what mark_block_unused asserts. The offsets
      go where Offsets says: 8-aligned, each block above the one before it whether freed since or not, and above every
      block there was before the run. */
  method RunCalls(h: Hive, calls: seq<Call>, id: seq<byte>) returns (ok: bool, offs: seq<nat>)
    requires h.HeapOk() && |id| == 2 && h.writable
    modifies h`addr, h`bitmap, h`endpages, h`endblocks, h`cells
    ensures h.HeapOk() && (ok ==> offs == Offsets(old(h.endpages), old(h.endblocks), Lens(calls)))
    ensures ok ==> Rising(offs, Lens(calls))
    ensures ok ==> old(h.endpages) <= |old(h.addr)| && PagesTile(old(h.addr), PAGES, old(h.endpages))
                   && ClearOf(old(h.addr), old(h.endpages), old(h.endblocks), offs)
    ensures ok ==> forall i :: 0 <= i < |offs| ==> offs[i] !in old(h.cells)
    ensures ok ==> Left(Marks(old(h.bitmap)), Marks(h.bitmap), offs, Freed(calls))
    ensures ok ==> AllFit(old(h.endpages), old(h.endblocks), Lens(calls))
    ensures AllFit(old(h.endpages), old(h.endblocks), Lens(calls)) && (forall i :: 0 <= i < |calls| ==> calls[i].Allocate?) ==> ok
  {
    hide Heap.Tiled, Heap.CellsOk, Hive.HeapOk, Hive.Within, Place, Round8, Rising, ClearOf, Marks, PagesTile,
      Offsets, Lens, Left, Freed;
    ghost var ep, eb, m0 := h.endpages, h.endblocks, Marks(h.bitmap);
    RunRises(h, Lens(calls));
    RunClear(h, Lens(calls));
    NoCells(h, Offsets(ep, eb, Lens(calls)));
    NotMarked(h, Offsets(ep, eb, Lens(calls)));
    LeftAll(m0, calls);
    offs := [];
    NoCalls(h, calls);
    for i := 0 to |calls|
      invariant h.HeapOk() && offs + Offsets(h.endpages, h.endblocks, Lens(calls[i..])) == Offsets(ep, eb, Lens(calls))
      invariant Left(m0, Marks(h.bitmap), offs, Freed(calls[..i])) && forall x :: x in offs ==> x < h.endblocks
      invariant AllFit(ep, eb, Lens(calls)) == AllFit(h.endpages, h.endblocks, Lens(calls[i..]))
    {
      LensStep(calls, i);
      match calls[i] {
        case Allocate(len) =>
          FirstOffset(h.endpages, h.endblocks, Lens(calls[i..]));
          NewAbove(h, len);
          ghost var m := Marks(h.bitmap);
          var off := h.AllocateBlock(len, id);
          if off == 0 {
            return false, offs;
          }
          ghost var rest := Offsets(h.endpages, h.endblocks, Lens(calls[i + 1..]));
          assert offs + ([off] + rest) == offs + [off] + rest;
          assert off == Offsets(ep, eb, Lens(calls))[|offs|];
          LeftMore(m0, m, offs, calls, i, off);
          offs := offs + [off];
        case Free(off) =>
          if !h.IsValidBlock(off) {
            return false, offs;
          }
          h.MarkedBlock(off);
          LeftMore(m0, Marks(h.bitmap), offs, calls, i, off);
          h.MarkBlockUnused(off);
      }
    }
    NoCalls(h, calls);
    assert calls[..|calls|] == calls;
    return true, offs;
  }

  lemma NoCalls(h: Hive, calls: seq<Call>)
    ensures calls[0..] == calls && Lens(calls[|calls|..]) == [] && Offsets(h.endpages, h.endblocks, []) == []
  {
  }

  lemma LensStep(calls: seq<Call>, i: nat)
    requires i < |calls|
    ensures calls[i].Free? ==> Lens(calls[i..]) == Lens(calls[i + 1..])
    ensures calls[i].Allocate? ==> Lens(calls[i..]) != [] && Lens(calls[i..])[0] == calls[i].len && Lens(calls[i..])[1..] == Lens(calls[i + 1..])
  {
    assert calls[i..][1..] == calls[i + 1..];
  }
}
