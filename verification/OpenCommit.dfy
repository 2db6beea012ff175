/** hivex_open on the bytes of a file, hivex_commit, and why one undoes the other. */
module OpenCommit {
  import opened Bytes
  import opened Bitmap
  import opened Layout
  import opened Records
  import opened Registry
  import opened Heap
  import opened Hives
  import opened Readers

  // ---------- the header block

  /** Exclusive or, bit by bit. */
  function Xor(x: nat, y: nat): (r: nat)
    decreases x + y
  {
    if x == 0 && y == 0 then 0 else 2 * Xor(x / 2, y / 2) + (if x % 2 == y % 2 then 0 else 1)
  }

  lemma {:induction false} XorBound(x: nat, y: nat, m: nat)
    requires x < Pow2(m) && y < Pow2(m)
    ensures Xor(x, y) < Pow2(m)
    decreases m
  {
    if m > 0 && !(x == 0 && y == 0) { XorBound(x / 2, y / 2, m - 1); }
  }

  function Pow2(m: nat): (r: nat)
    ensures r >= 1
  {
    if m == 0 then 1 else 2 * Pow2(m - 1)
  }

  /** sum ^ v on 32 bits. */
  function Mix(x: u32, v: u32): u32 {
    assert Pow2(32) == 0x1_0000_0000 by { Pow32(); }
    XorBound(x, v, 32);
    Xor(x, v)
  }

  lemma Pow32()
    ensures Pow2(32) == 0x1_0000_0000
  {
    assert Pow2(8) == 256;
    assert Pow2(16) == 256 * Pow2(8);
    assert Pow2(24) == 256 * Pow2(16);
    assert Pow2(32) == 256 * Pow2(24);
  }

  /** Exclusive or of the first k little-endian words. */
  function XorSum(a: seq<byte>, k: nat): u32
    requires 4 * k <= |a|
  {
    if k == 0 then 0 else Mix(XorSum(a, k - 1), U32(a, 4 * (k - 1)))
  }

  /** header_checksum: the words before offset 0x1fc. */
  method HeaderChecksum(a: seq<byte>) returns (sum: u32)
    requires 0x200 <= |a|
    ensures sum == XorSum(a, 127)
    ensures forall k :: 0 <= k < 32 ==> (BitAt(sum, k) <==> WordsWith(a, 127, k) % 2 == 1)
  {
    hide U32, U16, Mix;
    sum := 0;
    for i := 0 to 127
      invariant sum == XorSum(a, i)
    {
      sum := Mix(sum, U32(a, 4 * i));
    }
    forall k | 0 <= k < 32
      ensures BitAt(sum, k) <==> WordsWith(a, 127, k) % 2 == 1
    {
      Parity(a, 127, k);
    }
  }

  // ---------- what the checksum says

  /** Bit k of a number. */
  predicate BitAt(x: nat, k: nat) { x / Pow2(k) % 2 == 1 }

  /** How many of the first n words have bit k set. */
  function WordsWith(a: seq<byte>, n: nat, k: nat): nat
    requires 4 * n <= |a|
  {
    if n == 0 then 0 else WordsWith(a, n - 1, k) + (if BitAt(U32(a, 4 * (n - 1)), k) then 1 else 0)
  }

  lemma Halve(x: nat, k: nat)
    ensures BitAt(x, k + 1) <==> BitAt(x / 2, k)
  {
    DivDiv(x, Pow2(k));
  }

  lemma DivDiv(x: nat, p: nat)
    requires p >= 1
    ensures x / (2 * p) == x / 2 / p
  {
    var y, r := x / 2, x % 2;
    var q, t := y / p, y % p;
    assert y == q * p + t && x == 2 * y + r;
    assert x == (2 * p) * q + (2 * t + r) by { assert 2 * (q * p) == (2 * p) * q; }
    Quotient(x, 2 * p, q, 2 * t + r);
  }

  lemma Quotient(x: nat, d: nat, q: nat, r: nat)
    requires d >= 1 && x == d * q + r && r < d
    ensures x / d == q
  {
    var q', r' := x / d, x % d;
    assert x == d * q' + r';
    if q' < q { Times(d, q' + 1, q); } else if q < q' { Times(d, q + 1, q'); }
  }

  lemma Times(d: nat, a: nat, b: nat)
    requires a <= b
    ensures d * a <= d * b && (a >= 1 ==> d * a == d * (a - 1) + d)
  {
  }

  /** Bits of the exclusive or: set where exactly one is. */
  lemma {:induction false} XorBit(x: nat, y: nat, k: nat)
    ensures BitAt(Xor(x, y), k) <==> BitAt(x, k) != BitAt(y, k)
    decreases k
  {
    hide BitAt, Xor;
    XorHalf(x, y);
    if k == 0 {
      LowBit(x);
      LowBit(y);
      LowBit(Xor(x, y));
    } else {
      Halve(Xor(x, y), k - 1);
      Halve(x, k - 1);
      Halve(y, k - 1);
      XorBit(x / 2, y / 2, k - 1);
    }
  }

  lemma LowBit(x: nat)
    ensures BitAt(x, 0) <==> x % 2 == 1
  {
    assert Pow2(0) == 1;
  }

  lemma ZeroBit(k: nat)
    ensures !BitAt(0, k)
  {
  }

  lemma {:induction false} Parity(a: seq<byte>, n: nat, k: nat)
    requires 4 * n <= |a|
    ensures BitAt(XorSum(a, n), k) <==> WordsWith(a, n, k) % 2 == 1
  {
    hide U32, U16, BitAt, Xor;
    if n == 0 {
      ZeroBit(k);
    } else {
      Parity(a, n - 1, k);
      XorBit(XorSum(a, n - 1), U32(a, 4 * (n - 1)), k);
    }
  }

  /** Exclusive or with one number tells the others apart. */
  lemma {:induction false} XorTells(x: nat, y: nat, z: nat)
    ensures (Xor(x, y) == Xor(x, z) ==> y == z) && (Xor(y, x) == Xor(z, x) ==> y == z)
    decreases x + y + z
  {
    if x + y + z > 0 {
      XorTells(x / 2, y / 2, z / 2);
      XorHalf(x, y);
      XorHalf(x, z);
      XorHalf(y, x);
      XorHalf(z, x);
    }
  }

  lemma XorHalf(x: nat, y: nat)
    ensures Xor(x, y) / 2 == Xor(x / 2, y / 2) && (Xor(x, y) % 2 == 0 <==> x % 2 == y % 2)
  {
  }

  /** Images whose first 127 words agree but for one have different checksums. */
  lemma {:induction false} OneWordTells(a: seq<byte>, b: seq<byte>, n: nat, w: nat)
    requires 4 * n <= |a| && 4 * n <= |b| && w < n && U32(a, 4 * w) != U32(b, 4 * w)
    requires forall j :: 0 <= j < n && j != w ==> U32(a, 4 * j) == U32(b, 4 * j)
    ensures XorSum(a, n) != XorSum(b, n)
  {
    hide U32, U16, Xor;
    if w == n - 1 {
      SumsSame(a, b, n - 1);
      XorTells(XorSum(a, n - 1), U32(a, 4 * w), U32(b, 4 * w));
    } else {
      OneWordTells(a, b, n - 1, w);
      XorTells(U32(a, 4 * (n - 1)), XorSum(a, n - 1), XorSum(b, n - 1));
    }
  }

  lemma {:induction false} SumsSame(a: seq<byte>, b: seq<byte>, n: nat)
    requires 4 * n <= |a| && 4 * n <= |b| && forall j :: 0 <= j < n ==> U32(a, 4 * j) == U32(b, 4 * j)
    ensures XorSum(a, n) == XorSum(b, n)
  {
    hide U32, U16, Mix;
    if n > 0 { SumsSame(a, b, n - 1); }
  }

  lemma {:induction false} XorSumSame(a: seq<byte>, b: seq<byte>, k: nat)
    requires 4 * k <= |a| && 4 * k <= |b| && Same(a, b, 0, 4 * k)
    ensures XorSum(a, k) == XorSum(b, k)
  {
    hide U32, U16, Mix;
    if k > 0 {
      XorSumSame(a, b, k - 1);
      SameWord(a, b, 4 * (k - 1));
    }
  }

  lemma SameWord(a: seq<byte>, b: seq<byte>, o: nat)
    requires o + 4 <= |a| && o + 4 <= |b| && Same(a, b, o, o + 4)
    ensures U32(a, o) == U32(b, o)
  {
  }

  /** What hivex_open checks in the header. */
  ghost predicate HeaderOk(a: seq<byte>) {
    0x1000 <= |a| && IsRegf(a) && U32(a, 20) == 1 && U32(a, 0x1fc) == XorSum(a, 127)
  }

  // ---------- the scan of pages and blocks

  /** The used ones among some blocks. */
  ghost function UsedAmong(a: seq<byte>, blocks: set<nat>): set<nat> {
    set x | x in blocks && x + 4 <= |a| && Used(a, x)
  }

  /** Block lengths that lead from lo to hi or past it: each inside the image, a multiple of four, at least eight. */
  ghost predicate BlocksLead(a: seq<byte>, lo: nat, hi: nat)
    decreases hi - lo
  {
    lo >= hi || (lo + 4 <= |a| && 4 < Len(a, lo) && By4(Len(a, lo)) && BlocksLead(a, lo + Len(a, lo), hi))
  }

  /** The blocks those lengths lead through. */
  ghost function BlocksMet(a: seq<byte>, lo: nat, hi: nat): set<nat>
    requires BlocksLead(a, lo, hi)
    decreases hi - lo
  {
    if lo >= hi then {} else {lo} + BlocksMet(a, lo + Len(a, lo), hi)
  }

  /** A page whose blocks lead to its end. */
  ghost predicate PageLeads(a: seq<byte>, lo: nat) {
    lo + HBIN <= |a| && IsHbin(a, lo) && HBIN < PageSize(a, lo) && By4096(PageSize(a, lo))
    && BlocksLead(a, lo + HBIN, lo + PageSize(a, lo))
  }

  /** Page sizes that lead from lo to the end of pages, to the end of the image, or past one of them. */
  ghost predicate PagesLead(a: seq<byte>, lo: nat, ep: nat)
    decreases |a| - lo
  {
    lo >= |a| || lo >= ep || (PageLeads(a, lo) && PagesLead(a, lo + PageSize(a, lo), ep))
  }

  ghost function PagesMet(a: seq<byte>, lo: nat, ep: nat): set<nat>
    requires PagesLead(a, lo, ep)
    decreases |a| - lo
  {
    if lo >= |a| || lo >= ep then {} else
      BlocksMet(a, lo + HBIN, lo + PageSize(a, lo)) + PagesMet(a, lo + PageSize(a, lo), ep)
  }

  /** Blocks that tile lead exactly to the end. */
  lemma {:induction false} BlocksTiled(a: seq<byte>, lo: nat, hi: nat)
    requires hi <= |a| && BlocksTile(a, lo, hi)
    ensures BlocksLead(a, lo, hi) && BlocksMet(a, lo, hi) == Blocks(a, lo, hi)
    decreases hi - lo
  {
    hide U32, U16, Used, Len, By4;
    if lo < hi { BlocksTiled(a, lo + Len(a, lo), hi); }
  }

  /** Pages that tile lead exactly to the end of pages, through all their blocks. */
  lemma {:induction false} PagesTiled(a: seq<byte>, lo: nat, ep: nat)
    requires ep <= |a| && PagesTile(a, lo, ep)
    ensures PagesLead(a, lo, ep) && PagesMet(a, lo, ep) == AllBlocks(a, lo, ep)
    decreases ep - lo
  {
    hide U32, U16, IsHbin, BlocksTile, BlocksLead, Blocks, BlocksMet, By4096;
    if lo < ep {
      BlocksTiled(a, lo + HBIN, lo + PageSize(a, lo));
      PagesTiled(a, lo + PageSize(a, lo), ep);
    }
  }

  /** What the scan knows: the bitmap so far, and whether the root block was met and was free or no nk block. */
  datatype Found = Found(bitmap: seq<bv8>, seenRoot: bool, badRoot: bool)

  /** A used block whose id lies in the image. */
  ghost predicate GoodRoot(a: seq<byte>, root: nat) {
    root + 6 <= |a| && Used(a, root) && IsId(a, root, 'n', 'k')
  }

  /** If the root is among these blocks and used, its id can be read. */
  ghost predicate RootFits(a: seq<byte>, root: nat, done: set<nat>) {
    root in done && root + 4 <= |a| && Used(a, root) ==> root + 6 <= |a|
  }

  /** The state of the scan once the blocks in `done` have been read. */
  ghost predicate Scanned(a: seq<byte>, root: nat, done: set<nat>, f: Found) {
    |f.bitmap| == 1 + |a| / 32 && Marks(f.bitmap) == UsedAmong(a, done) && f.seenRoot == (root in done)
    && RootFits(a, root, done) && (f.badRoot <==> root in done && !GoodRoot(a, root))
  }

  /** The blocks of one page. */
  method ScanPage(a: seq<byte>, off: nat, size: nat, root: nat, f0: Found, ghost done0: set<nat>) returns (r: Result<Found>)
    requires HBIN < size && off % 4 == 0 && Scanned(a, root, done0, f0)
    ensures BlocksLead(a, off + HBIN, off + size) ==>
              var met := done0 + BlocksMet(a, off + HBIN, off + size);
              r.Ok? == RootFits(a, root, met) && (r.Ok? ==> Scanned(a, root, met, r.value))
    ensures !BlocksLead(a, off + HBIN, off + size) ==> r.Err?
    ensures r.Err? ==> r.errno == EFAULT || (r.errno == ENOTSUP && !BlocksLead(a, off + HBIN, off + size))
  {
    hide U32, U16, Used, Len, Marks, Set, By4, GoodRoot, UsedAmong;
    var f := f0;
    var blkoff: nat := off + HBIN;
    ghost var done: set<nat> := done0;
    while blkoff < off + size
      invariant blkoff % 4 == 0 && Scanned(a, root, done, f)
      invariant BlocksLead(a, blkoff, off + size) == BlocksLead(a, off + HBIN, off + size)
      invariant BlocksLead(a, blkoff, off + size) ==>
                  done + BlocksMet(a, blkoff, off + size) == done0 + BlocksMet(a, off + HBIN, off + size)
      decreases off + size - blkoff
    {
      if blkoff + 4 > |a| {
        return Err(EFAULT);
      }
      var segLen := Len(a, blkoff);
      ByFour(segLen);
      if segLen <= 4 || segLen % 4 != 0 {
        return Err(ENOTSUP);
      }
      var f' := ScanBlock(a, blkoff, root, f, done);
      if f'.Err? {
        return Err(EFAULT);
      }
      f := f'.value;
      done := done + {blkoff};
      blkoff := blkoff + segLen;
    }
    assert done + {} == done;
    return Ok(f);
  }

  /** One block: is it the root, is it used. */
  method ScanBlock(a: seq<byte>, blkoff: nat, root: nat, f: Found, ghost done: set<nat>) returns (r: Result<Found>)
    requires blkoff + 4 <= |a| && blkoff % 4 == 0 && Scanned(a, root, done, f)
    ensures r.Ok? == RootFits(a, root, done + {blkoff}) && (r.Err? ==> r.errno == EFAULT)
    ensures r.Ok? ==> Scanned(a, root, done + {blkoff}, r.value)
  {
    hide U32, U16, Used, Marks, Set;
    var used, isRoot := Used(a, blkoff), blkoff == root;
    var seen, bad, bm := f.seenRoot || isRoot, f.badRoot || (isRoot && !used), f.bitmap;
    if used {
      if isRoot && blkoff + 6 > |a| {
        return Err(EFAULT);
      }
      if isRoot && !IsId(a, blkoff, 'n', 'k') {
        bad := true;
      }
      MarksAdded(bm, blkoff);
      bm := Set(bm, blkoff);
    }
    assert UsedAmong(a, done + {blkoff}) == UsedAmong(a, done) + (if used then {blkoff} else {});
    return Ok(Found(bm, seen, bad));
  }

  /** The pages up to the end of pages, in any image: the scan succeeds exactly when page sizes and block lengths lead
      through them. */
  method ScanPages(a: seq<byte>, root: nat, endpages: nat) returns (r: Result<Found>)
    requires 0x1000 <= |a|
    ensures PagesLead(a, PAGES, endpages) ==>
              var met := PagesMet(a, PAGES, endpages);
              r.Ok? == RootFits(a, root, met) && (r.Ok? ==> Scanned(a, root, met, r.value))
    ensures !PagesLead(a, PAGES, endpages) ==> r.Err?
    ensures r.Err? ==> r.errno == EFAULT || (r.errno == ENOTSUP && !PagesLead(a, PAGES, endpages))
  {
    hide U32, U16, Used, By4, IsHbin, Marks, BlocksLead, BlocksMet, By4096, Scanned, UsedAmong;
    var f := Found(Blank(1 + |a| / 32), false, false);
    NothingScanned(a, root);
    ghost var done: set<nat> := {};
    var off: nat := PAGES;
    AlignedNext(0, PAGES);
    while off < |a|
      invariant By4(off) && Scanned(a, root, done, f) && RootFits(a, root, done)
      invariant PagesLead(a, off, endpages) == PagesLead(a, PAGES, endpages)
      invariant PagesLead(a, off, endpages) ==> done + PagesMet(a, off, endpages) == PagesMet(a, PAGES, endpages)
      decreases |a| - off
    {
      if off >= endpages {
        break;
      }
      if off + HBIN > |a| {
        return Err(EFAULT);
      }
      if !IsHbin(a, off) {
        return Err(ENOTSUP);
      }
      var size := PageSize(a, off);
      WholePage(size);
      if size <= HBIN || size % 4096 != 0 {
        return Err(ENOTSUP);
      }
      AlignedNext(off, size);
      var f' := ScanPage(a, off, size, root, f, done);
      if f'.Err? {
        return Err(f'.errno);
      }
      f := f'.value;
      done := done + BlocksMet(a, off + HBIN, off + size);
      FitsStill(a, root, done, f);
      off := off + size;
    }
    return Ok(f);
  }

  lemma FitsStill(a: seq<byte>, root: nat, done: set<nat>, f: Found)
    requires Scanned(a, root, done, f)
    ensures RootFits(a, root, done)
  {
  }

  lemma NothingScanned(a: seq<byte>, root: nat)
    ensures Scanned(a, root, {}, Found(Blank(1 + |a| / 32), false, false))
  {
    var bm := Blank(1 + |a| / 32);
    forall x | 0 <= x < 32 * |bm| && x % 4 == 0
      ensures !Tst(bm, x)
    {
      assert !BitOn(0, x / 4 % 8);
    }
  }

  lemma WholePage(size: nat)
    ensures By4096(size) <==> size % 4096 == 0
  {
  }

  lemma AlignedNext(off: nat, size: nat)
    requires (By4(off) || off == 0) && size % 4096 == 0
    ensures off % 4 == 0 && By4(off + size)
  {
    var k, j := size / 4096, off / 4;
    assert off == 4 * j && size == 4096 * k;
    assert off + size == 4 * (j + 1024 * k);
  }

  /** What hivex_open finds: the bitmap and the two header fields. */
  datatype Opened = Opened(bitmap: seq<bv8>, rootoffs: nat, endpages: nat)

  /** The images hivex_open accepts: header right, page sizes and block lengths lead to the end of pages, and the root is a
      used nk block among the blocks met. */
  ghost predicate Openable(a: seq<byte>) {
    HeaderOk(a) && PagesLead(a, PAGES, EndField(a)) && RootField(a) in PagesMet(a, PAGES, EndField(a))
    && GoodRoot(a, RootField(a))
  }

  /** An image that hivex_commit writes: header right, pages and blocks tile, root is a used nk block. */
  ghost predicate GoodImage(a: seq<byte>) {
    HeaderOk(a) && EndField(a) <= |a| && PagesTile(a, PAGES, EndField(a))
    && UsedAt(a, EndField(a), RootField(a)) && IsId(a, RootField(a), 'n', 'k')
  }

  /** Images that tile: accepted exactly when good, and what is met is all their blocks. */
  lemma GoodOpens(a: seq<byte>)
    requires HeaderOk(a) && EndField(a) <= |a| && PagesTile(a, PAGES, EndField(a))
    ensures Openable(a) <==> GoodImage(a)
    ensures PagesLead(a, PAGES, EndField(a)) && PagesMet(a, PAGES, EndField(a)) == AllBlocks(a, PAGES, EndField(a))
  {
    hide U32, U16, Used, PagesTile, AllBlocks, PagesLead, PagesMet, XorSum;
    PagesTiled(a, PAGES, EndField(a));
    if RootField(a) in AllBlocks(a, PAGES, EndField(a)) {
      BlockIn(a, PAGES, EndField(a), RootField(a));
    }
  }

  /** hivex_open: header checks, then the scan that builds the bitmap. */
  method Open(a: seq<byte>) returns (r: Result<Opened>)
    ensures r.Ok? <==> Openable(a)
    ensures r.Ok? ==> r.value.rootoffs == RootField(a) && r.value.endpages == EndField(a)
                      && |r.value.bitmap| == 1 + |a| / 32
                      && Marks(r.value.bitmap) == UsedAmong(a, PagesMet(a, PAGES, EndField(a)))
    ensures 0x1000 <= |a| && !(IsRegf(a) && U32(a, 20) == 1) ==> r == Err(ENOTSUP)
    ensures r == Err(EINVAL) <==> 0x1000 <= |a| && IsRegf(a) && U32(a, 20) == 1 && U32(a, 0x1fc) != XorSum(a, 127)
    ensures |a| < 0x1000 ==> r == Err(EFAULT)
    ensures r.Err? ==> r.errno in {EFAULT, ENOTSUP, EINVAL}
    ensures (HeaderOk(a) && PagesLead(a, PAGES, EndField(a)) && !Openable(a)
             && RootFits(a, RootField(a), PagesMet(a, PAGES, EndField(a)))) ==> r == Err(ENOTSUP)
  {
    hide U32, U16, Used, Marks, PagesLead, PagesMet, XorSum;
    if |a| < 0x1000 {
      return Err(EFAULT);
    }
    if !IsRegf(a) {
      return Err(ENOTSUP);
    }
    if U32(a, 20) != 1 {
      return Err(ENOTSUP);
    }
    var sum := HeaderChecksum(a);
    if sum != U32(a, 0x1fc) {
      return Err(EINVAL);
    }
    var rootoffs, endpages := RootField(a), EndField(a);
    var scan := ScanPages(a, rootoffs, endpages);
    if scan.Err? {
      return Err(scan.errno);
    }
    var f := scan.value;
    if !f.seenRoot {
      return Err(ENOTSUP);
    }
    if f.badRoot {
      return Err(ENOTSUP);
    }
    return Ok(Opened(f.bitmap, rootoffs, endpages));
  }

  /** Four bytes that read as the same number are the same. */
  lemma WordTells(a: seq<byte>, b: seq<byte>, o: nat)
    requires o + 4 <= |a| && o + 4 <= |b| && U32(a, o) == U32(b, o)
    ensures Same(a, b, o, o + 4)
  {
    Le32U32(a, o);
    Le32U32(b, o);
    forall i | o <= i < o + 4
      ensures a[i] == b[i]
    {
      assert a[i] == a[o..o + 4][i - o] && b[i] == b[o..o + 4][i - o];
    }
  }

  /** Opening an image that differs from an accepted one in a single word of the summed header, in one bit or more:
      refused, and for the checksum unless magic or version is wrong. */
  method OpenChanged(a: seq<byte>, b: seq<byte>, w: nat) returns (r: Result<Opened>)
    requires HeaderOk(a) && |b| == |a| && w < 127 && b != a && Same(a, b, 0, 4 * w) && Same(a, b, 4 * w + 4, |a|)
    ensures r == Err(if IsRegf(b) && U32(b, 20) == 1 then EINVAL else ENOTSUP)
  {
    hide U32, U16, XorSum;
    ChangeTells(a, b, w);
    r := Open(b);
  }

  lemma ChangeTells(a: seq<byte>, b: seq<byte>, w: nat)
    requires HeaderOk(a) && |b| == |a| && w < 127 && b != a && Same(a, b, 0, 4 * w) && Same(a, b, 4 * w + 4, |a|)
    ensures U32(b, 0x1fc) != XorSum(b, 127)
  {
    hide U32, U16, XorSum;
    if U32(a, 4 * w) == U32(b, 4 * w) { WordTells(a, b, 4 * w); }
    forall j | 0 <= j < 127 && j != w
      ensures U32(a, 4 * j) == U32(b, 4 * j)
    {
      SameWord(a, b, 4 * j);
    }
    SameWord(a, b, 0x1fc);
    OneWordTells(a, b, 127, w);
  }

  // ---------- commit

  /** The image with the header fields a commit updates. */
  function Committed(a: seq<byte>, endpages: nat): (b: seq<byte>)
    requires 0x1000 <= |a| && 0x1000 <= endpages < 0x1_0000_0000
    ensures |b| == |a|
  {
    var seq1 := (U32(a, 4) + 1) % 0x1_0000_0000;
    var c := Put32(Put32(Put32(a, 4, seq1), 8, seq1), 40, endpages - 0x1000);
    Put32(c, 0x1fc, XorSum(c, 127))
  }

  /** A commit changes four header words and makes the checksum right. */
  lemma CommittedHeader(a: seq<byte>, endpages: nat, root: nat)
    requires HeadOk(a, root) && 0x1000 <= endpages < 0x1_0000_0000
    ensures var b := Committed(a, endpages);
            HeaderOk(b) && RootField(b) == root && EndField(b) == endpages && HeadOk(b, root) && Same(a, b, 0x1000, |a|)
  {
    hide U32, U16, Le32, XorSum;
    var seq1 := (U32(a, 4) + 1) % 0x1_0000_0000;
    var c := Put32(Put32(Put32(a, 4, seq1), 8, seq1), 40, endpages - 0x1000);
    var b := Put32(c, 0x1fc, XorSum(c, 127));
    XorSumSame(b, c, 127);
  }

  /** The pages do not see the header. */
  lemma HeaderApart(a: seq<byte>, b: seq<byte>, bm: seq<bv8>, ep: nat, eb: nat, cells: Cells)
    requires Tiled(a, bm, ep, eb) && CellsOk(a, ep, cells) && |b| == |a| && Same(a, b, 0x1000, |a|)
    ensures Tiled(b, bm, ep, eb) && CellsOk(b, ep, cells) && AllBlocks(b, PAGES, ep) == AllBlocks(a, PAGES, ep)
    ensures forall y :: y in AllBlocks(a, PAGES, ep) ==> UsedAt(b, ep, y) == UsedAt(a, ep, y)
  {
    hide Holds, Tst, By4, By4096, By8, U32, U16, IsHbin;
    PagesSame(a, b, PAGES, ep);
    forall y | y in AllBlocks(a, PAGES, ep)
      ensures UsedAt(b, ep, y) == UsedAt(a, ep, y) && y + 8 <= ep && Len(b, y) == Len(a, y) <= ep - y
      ensures Same(a, b, y, y + Len(a, y)) && Used(b, y) == Used(a, y)
    {
      BlockIn(a, PAGES, ep, y);
      SameHeader(a, b, y);
    }
    forall y | y in cells
      ensures CellAt(b, ep, y, cells[y])
    {
      assert CellAt(a, ep, y, cells[y]);
      HoldsSame(a, b, y, Len(a, y), cells[y]);
    }
  }

  /** hivex_commit: sequence numbers, end of pages and checksum, then the whole image is written out. */
  method Commit(h: Hive, flags: int) returns (r: Result<seq<byte>>)
    requires h.Valid()
    modifies h`addr
    ensures r == if flags != 0 then Err(EINVAL) else if !h.writable then Err(EROFS) else Ok(h.addr)
    ensures h.Valid() && (r.Err? ==> h.addr == old(h.addr))
    ensures r.Ok? ==> |h.addr| == |old(h.addr)| && Same(old(h.addr), h.addr, 0x1000, |h.addr|)
    ensures r.Ok? ==> GoodImage(h.addr) && RootField(h.addr) == h.rootoffs && EndField(h.addr) == h.endpages
    ensures r.Ok? ==> |old(h.addr)| >= 0x1000 && Stamped(old(h.addr), h.addr)
  {
    hide TreeOk, U32, U16, Tiled, CellsOk, HeadOk, GoodImage, Committed, Stamped;
    if flags != 0 {
      return Err(EINVAL);
    }
    if !h.writable {
      return Err(EROFS);
    }
    HeaderBounds(h);
    ghost var a := h.addr;
    StampHeader(h);
    CommittedStamp(a, h.endpages);
    CommitKeeps(a, h);
    return Ok(h.addr);
  }

  /** Both sequence numbers are the old first one plus one; of the header only they, end of pages and checksum change. */
  ghost predicate Stamped(a: seq<byte>, b: seq<byte>)
    requires 0x1000 <= |a|
  {
    |b| == |a| && U32(b, 4) == U32(b, 8) == (U32(a, 4) + 1) % 0x1_0000_0000
    && forall i :: 0 <= i < |a| && !(4 <= i < 12) && !(40 <= i < 44) && !(0x1fc <= i < 0x200) ==> b[i] == a[i]
  }

  lemma CommittedStamp(a: seq<byte>, endpages: nat)
    requires 0x1000 <= |a| && 0x1000 <= endpages < 0x1_0000_0000
    ensures Stamped(a, Committed(a, endpages))
  {
    hide U32, U16, Le32, XorSum;
  }

  /** The header words of a commit: two sequence numbers, end of pages, checksum. */
  method StampHeader(h: Hive)
    requires 0x1000 <= |h.addr| && 0x1000 <= h.endpages < 0x1_0000_0000
    modifies h`addr
    ensures h.addr == Committed(old(h.addr), h.endpages)
  {
    hide U32, U16, Le32, XorSum;
    var sequence := (U32(h.addr, 4) + 1) % 0x1_0000_0000;
    h.addr := Put32(h.addr, 4, sequence);
    h.addr := Put32(h.addr, 8, sequence);
    h.addr := Put32(h.addr, 40, h.endpages - 0x1000);
    var sum := HeaderChecksum(h.addr);
    h.addr := Put32(h.addr, 0x1fc, sum);
  }

  /** The stamped image is still a valid hive, and a good image. */
  lemma CommitKeeps(a: seq<byte>, h: Hive)
    requires 0x1000 <= |a| && 0x1000 <= h.endpages < 0x1_0000_0000
    requires h.addr == Committed(a, h.endpages) && TreeOk(h.cells, h.t, h.rootoffs)
    requires Tiled(a, h.bitmap, h.endpages, h.endblocks) && CellsOk(a, h.endpages, h.cells) && HeadOk(a, h.rootoffs)
    ensures h.Valid() && GoodImage(h.addr) && RootField(h.addr) == h.rootoffs && EndField(h.addr) == h.endpages
    ensures Same(a, h.addr, 0x1000, |a|)
  {
    hide TreeOk, U32, U16, Tiled, CellsOk, HeadOk, HeaderOk, GoodImage, Committed;
    CommittedHeader(a, h.endpages, h.rootoffs);
    HeaderApart(a, h.addr, h.bitmap, h.endpages, h.endblocks, h.cells);
    RootStays(h);
  }

  lemma HeaderBounds(h: Hive)
    requires h.HeapOk()
    ensures 0x1000 <= |h.addr| && 0x1000 <= h.endpages <= |h.addr| <= Heap.MAX_IMAGE
  {
    hide PagesTile, CellsOk;
  }

  /** The root of a valid hive is a used nk block of the image. */
  lemma RootStays(h: Hive)
    requires h.Valid() && HeaderOk(h.addr) && RootField(h.addr) == h.rootoffs && EndField(h.addr) == h.endpages
    ensures GoodImage(h.addr)
  {
    hide U32, U16, HeaderOk, RolesOk, RingOk, CountsOk, NodeOk, Marked, TailOk, AllBlocks, HeadOk;
    assert h.rootoffs in h.t.reg;
    NkRole(h.cells, h.t, h.rootoffs);
    assert CellAt(h.addr, h.endpages, h.rootoffs, h.cells[h.rootoffs]);
  }

  /** The rescan of a committed image finds exactly the bits the handle had. */
  lemma SameBitmap(a: seq<byte>, bm: seq<bv8>, bm': seq<bv8>, ep: nat)
    requires ep <= |a| && PagesTile(a, PAGES, ep) && Marked(a, bm, ep) && |bm'| == 1 + |a| / 32
    requires Marks(bm') == UsedAmong(a, AllBlocks(a, PAGES, ep))
    ensures bm' == bm
  {
    hide Tst, Used, U32, U16, PagesTile;
    forall p | 0 <= p < 32 * |bm| && p % 4 == 0
      ensures Tst(bm, p) == Tst(bm', p)
    {
      assert By4(p);
      assert Tst(bm, p) <==> UsedAt(a, ep, p);
      assert Tst(bm', p) <==> p in Marks(bm');
      if p in AllBlocks(a, PAGES, ep) { hide AllBlocks; BlockIn(a, PAGES, ep, p); }
    }
    SameMarks(bm, bm');
  }

  /** Commit, then open what was written: the same bitmap, root and end of pages, and so the same tree. */
  method CommitThenOpen(h: Hive, w: bool) returns (r: Result<Hive>)
    requires h.Valid() && h.writable
    modifies h`addr
    ensures h.Valid() && r.Ok? && fresh(r.value) && r.value.Valid()
    ensures r.value.addr == h.addr && r.value.bitmap == h.bitmap && r.value.rootoffs == h.rootoffs && r.value.endpages == h.endpages
    ensures r.value.t == h.t && r.value.cells == h.cells && r.value.writable == w
  {
    hide TreeOk, U32, U16, Tiled, CellsOk, HeadOk, HeaderOk, PagesTile, XorSum, GoodImage, Openable, Marks, UsedAmong;
    var written := Commit(h, 0);
    var image := written.value;
    CommittedOpens(image);
    var scan := Open(image);
    var o := scan.value;
    assert o.bitmap == h.bitmap by { Rescanned(h, o.bitmap); }
    var h2 := new Hive(image, o.bitmap, o.rootoffs, o.endpages, w, h.cells, h.t);
    assert h2.HeapOk() by { FreshTail(h, h2); }
    return Ok(h2);
  }

  lemma CommittedOpens(a: seq<byte>)
    requires GoodImage(a)
    ensures Openable(a) && 0x1000 <= |a| && EndField(a) <= |a| && PagesTile(a, PAGES, EndField(a))
    ensures PagesLead(a, PAGES, EndField(a)) && PagesMet(a, PAGES, EndField(a)) == AllBlocks(a, PAGES, EndField(a))
  {
    hide U32, U16, XorSum, PagesTile, AllBlocks, PagesLead, PagesMet, GoodRoot, UsedAt, Openable;
    GoodOpens(a);
  }

  lemma Rescanned(h: Hive, bm: seq<bv8>)
    requires h.HeapOk() && GoodImage(h.addr) && EndField(h.addr) == h.endpages && |bm| == 1 + |h.addr| / 32
    requires Marks(bm) == UsedAmong(h.addr, AllBlocks(h.addr, PAGES, EndField(h.addr)))
    ensures bm == h.bitmap
  {
    hide CellsOk, Marked, TailOk, HeadOk, HeaderOk, U32, U16, Marks, UsedAmong, AllBlocks;
    SameBitmap(h.addr, h.bitmap, bm, h.endpages);
  }

  lemma FreshTail(h: Hive, h2: Hive)
    requires h.HeapOk() && h2.addr == h.addr && h2.bitmap == h.bitmap && h2.rootoffs == h.rootoffs && h2.endpages == h.endpages
    requires h2.endblocks == 0 && h2.cells == h.cells
    ensures h2.HeapOk()
  {
    hide CellsOk, Marked, HeadOk, PagesTile;
  }
}
