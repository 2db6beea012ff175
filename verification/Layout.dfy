/** How a hive image is tiled: hbin pages tile [0x1000, endpages), blocks tile every page. */
module Layout {
  import opened Bytes

  const PAGES := 0x1000   // offset of the first hbin page
  const HBIN := 0x20      // size of an hbin page header

  /** A block's seg_len is stored negative when the block is used. */
  predicate Used(a: seq<byte>, o: nat)
    requires o + 4 <= |a|
  {
    U32(a, o) >= 0x8000_0000
  }

  function Len(a: seq<byte>, o: nat): nat
    requires o + 4 <= |a|
  {
    if Used(a, o) then 0x1_0000_0000 - U32(a, o) else U32(a, o)
  }

  /** Sizes and offsets that are multiples of 4, and page sizes of 4096. */
  predicate By4(n: nat) { n % 4 == 0 }
  predicate By4096(n: nat) { n % 4096 == 0 }

  lemma ByFour(n: nat)
    ensures By4(n) <==> n % 4 == 0
  {
  }

  lemma By4Sum(m: nat, n: nat)
    requires By4(m)
    ensures By4(m + n) <==> By4(n)
  {
  }

  lemma Remainder(x: nat, q: nat, r: nat)
    requires x == 4096 * q + r && r < 4096
    ensures x % 4096 == r
  {
  }

  lemma SumRemainder(m: nat, n: nat)
    requires m % 4096 == 0
    ensures (m + n) % 4096 == n % 4096
  {
    var k, q, r := m / 4096, n / 4096, n % 4096;
    assert m == 4096 * k && n == 4096 * q + r;
    Remainder(m + n, k + q, r);
  }

  lemma Quarters(m: nat)
    requires m % 4096 == 0
    ensures By4(m) && By4(m + HBIN)
  {
    var k := m / 4096;
    assert m == 4 * (1024 * k) && m + HBIN == 4 * (1024 * k + 8);
  }

  lemma By4096Sum(m: nat, n: nat)
    requires By4096(m)
    ensures (By4096(m + n) <==> By4096(n)) && By4(m) && By4(m + HBIN)
  {
    SumRemainder(m, n);
    Quarters(m);
    hide By4;
  }

  ghost predicate BlocksTile(a: seq<byte>, lo: nat, hi: nat)
    requires hi <= |a|
    decreases hi - lo
  {
    lo == hi
    || (lo + 8 <= hi && 8 <= Len(a, lo) <= hi - lo && By4(Len(a, lo)) && BlocksTile(a, lo + Len(a, lo), hi))
  }

  /** The offsets at which the blocks tiling [lo, hi) start. */
  ghost function Blocks(a: seq<byte>, lo: nat, hi: nat): set<nat>
    requires hi <= |a| && BlocksTile(a, lo, hi)
    decreases hi - lo
  {
    if lo == hi then {} else {lo} + Blocks(a, lo + Len(a, lo), hi)
  }

  function PageSize(a: seq<byte>, p: nat): nat
    requires p + HBIN <= |a|
  {
    U32(a, p + 8)
  }

  predicate IsHbin(a: seq<byte>, p: nat)
    requires p + HBIN <= |a|
  {
    a[p] == 'h' as int && a[p + 1] == 'b' as int && a[p + 2] == 'i' as int && a[p + 3] == 'n' as int
  }

  ghost predicate PageAt(a: seq<byte>, p: nat, hi: nat)
    requires hi <= |a|
  {
    p + HBIN <= hi && IsHbin(a, p) && HBIN < PageSize(a, p) <= hi - p && By4096(PageSize(a, p))
    && BlocksTile(a, p + HBIN, p + PageSize(a, p))
  }

  ghost predicate PagesTile(a: seq<byte>, lo: nat, hi: nat)
    requires hi <= |a|
    decreases hi - lo
  {
    lo == hi || (PageAt(a, lo, hi) && PagesTile(a, lo + PageSize(a, lo), hi))
  }

  /** The offsets at which the blocks of all pages in [lo, hi) start. */
  ghost function AllBlocks(a: seq<byte>, lo: nat, hi: nat): set<nat>
    requires hi <= |a| && PagesTile(a, lo, hi)
    decreases hi - lo
  {
    if lo == hi then {} else
      Blocks(a, lo + HBIN, lo + PageSize(a, lo)) + AllBlocks(a, lo + PageSize(a, lo), hi)
  }

  // ---------- blocks inside one page

  lemma {:induction false} BlockFacts(a: seq<byte>, lo: nat, hi: nat, x: nat)
    requires hi <= |a| && BlocksTile(a, lo, hi) && x in Blocks(a, lo, hi)
    ensures lo <= x && x + 8 <= hi && 8 <= Len(a, x) <= hi - x && By4(Len(a, x)) && (By4(lo) ==> By4(x))
    decreases hi - lo
  {
    hide U32, U16, Used, By4, By4096, IsHbin;
    if x != lo {
      if By4(lo) { By4Sum(lo, Len(a, lo)); }
      BlockFacts(a, lo + Len(a, lo), hi, x);
    }
  }

  lemma {:induction false} BlocksApart(a: seq<byte>, lo: nat, hi: nat, x: nat, y: nat)
    requires hi <= |a| && BlocksTile(a, lo, hi) && x in Blocks(a, lo, hi) && y in Blocks(a, lo, hi) && x < y
    ensures x + 8 <= hi && x + Len(a, x) <= y
    decreases hi - lo
  {
    hide U32, U16, Used, By4, By4096, IsHbin;
    BlockFacts(a, lo, hi, x);
    var next := lo + Len(a, lo);
    if x == lo {
      BlockFacts(a, next, hi, y);
    } else {
      BlockFacts(a, next, hi, x);
      BlocksApart(a, next, hi, x, y);
    }
  }

  /** Equal lengths at every start give the same tiling. */
  lemma {:induction false} BlocksFrame(a: seq<byte>, b: seq<byte>, lo: nat, hi: nat)
    requires hi <= |a| && hi <= |b| && BlocksTile(a, lo, hi)
    requires forall x :: x in Blocks(a, lo, hi) && x + 8 <= hi ==> Len(b, x) == Len(a, x)
    ensures BlocksTile(b, lo, hi) && Blocks(b, lo, hi) == Blocks(a, lo, hi)
    decreases hi - lo
  {
    hide U32, U16, Used, By4, By4096, IsHbin;
    if lo != hi { BlocksFrame(a, b, lo + Len(a, lo), hi); }
  }

  /** Cutting block x after k bytes adds exactly one start. */
  lemma {:induction false} BlocksCut(a: seq<byte>, b: seq<byte>, lo: nat, hi: nat, x: nat, k: nat)
    requires hi <= |a| && hi <= |b| && BlocksTile(a, lo, hi) && x in Blocks(a, lo, hi)
    requires x + 8 <= hi && 8 <= k && k + 8 <= Len(a, x) && By4(k) && x + k + 4 <= hi
    requires Len(b, x) == k && Len(b, x + k) == Len(a, x) - k
    requires forall y :: y in Blocks(a, lo, hi) && y + 8 <= hi && y != x ==> Len(b, y) == Len(a, y)
    ensures BlocksTile(b, lo, hi) && Blocks(b, lo, hi) == Blocks(a, lo, hi) + {x + k}
    decreases hi - lo
  {
    hide U32, U16, Used, By4, By4096, IsHbin;
    var next := lo + Len(a, lo);
    if x == lo {
      forall y | y in Blocks(a, next, hi)
        ensures y >= next
      {
        BlockFacts(a, next, hi, y);
      }
      BlocksFrame(a, b, next, hi);
      By4Sum(k, Len(a, x) - k);
      assert BlocksTile(b, x + k, hi);
      assert Blocks(b, x + k, hi) == {x + k} + Blocks(b, next, hi);
    } else {
      BlocksCut(a, b, next, hi, x, k);
    }
  }

  // ---------- blocks of the whole image

  lemma {:induction false} BlockIn(a: seq<byte>, lo: nat, hi: nat, x: nat)
    requires hi <= |a| && PagesTile(a, lo, hi) && x in AllBlocks(a, lo, hi)
    ensures lo + HBIN <= x && x + 8 <= hi && 8 <= Len(a, x) <= hi - x && By4(Len(a, x))
    ensures By4096(lo) ==> By4(x)
    decreases hi - lo
  {
    hide U32, U16, Used, By4, By4096, IsHbin;
    var next := lo + PageSize(a, lo);
    if By4096(lo) {
      By4096Sum(lo, PageSize(a, lo));
    }
    if x in Blocks(a, lo + HBIN, next) {
      BlockFacts(a, lo + HBIN, next, x);
    } else {
      BlockIn(a, next, hi, x);
    }
  }

  /** Two blocks of a tiled image never overlap. */
  lemma {:induction false} Apart(a: seq<byte>, lo: nat, hi: nat, x: nat, y: nat)
    requires hi <= |a| && PagesTile(a, lo, hi) && x in AllBlocks(a, lo, hi) && y in AllBlocks(a, lo, hi) && x < y
    ensures x + 8 <= hi && x + Len(a, x) <= y
    decreases hi - lo
  {
    hide U32, U16, Used, By4, By4096, IsHbin;
    var next := lo + PageSize(a, lo);
    var here := Blocks(a, lo + HBIN, next);
    if x in here { BlockFacts(a, lo + HBIN, next, x); } else { BlockIn(a, next, hi, x); }
    if y in here { BlockFacts(a, lo + HBIN, next, y); } else { BlockIn(a, next, hi, y); }
    if x in here && y in here {
      BlocksApart(a, lo + HBIN, next, x, y);
    } else if x !in here {
      Apart(a, next, hi, x, y);
    }
  }

  lemma HeaderKept(a: seq<byte>, b: seq<byte>, p: nat)
    requires p + HBIN <= |a| && p + HBIN <= |b| && Same(a, b, p, p + HBIN)
    ensures PageSize(b, p) == PageSize(a, p) && IsHbin(b, p) == IsHbin(a, p)
  {
  }

  lemma {:induction false} PagesSame(a: seq<byte>, b: seq<byte>, lo: nat, hi: nat)
    requires hi <= |a| && hi <= |b| && PagesTile(a, lo, hi) && Same(a, b, lo, hi)
    ensures PagesTile(b, lo, hi) && AllBlocks(b, lo, hi) == AllBlocks(a, lo, hi)
    decreases hi - lo
  {
    hide U32, U16, Used, By4, By4096, IsHbin;
    if lo != hi {
      var next := lo + PageSize(a, lo);
      HeaderKept(a, b, lo);
      OthersKept(a, b, lo + HBIN, next, next);
      BlocksFrame(a, b, lo + HBIN, next);
      PagesSame(a, b, next, hi);
    }
  }

  /** b differs from a only inside the block at x. */
  ghost predicate OnlyAt(a: seq<byte>, b: seq<byte>, lo: nat, hi: nat, x: nat)
    requires hi <= |a| && hi <= |b|
  {
    lo <= x && x + 4 <= hi && x + Len(a, x) <= hi && Same(a, b, lo, x) && Same(a, b, x + Len(a, x), hi)
  }

  /** Writing inside one block without changing its length keeps every page and block. */
  lemma {:induction false} PagesWrite(a: seq<byte>, b: seq<byte>, lo: nat, hi: nat, x: nat)
    requires hi <= |a| && hi <= |b| && PagesTile(a, lo, hi) && x in AllBlocks(a, lo, hi) && x + 8 <= hi
    requires OnlyAt(a, b, lo, hi, x) && Len(b, x) == Len(a, x)
    ensures PagesTile(b, lo, hi) && AllBlocks(b, lo, hi) == AllBlocks(a, lo, hi)
    decreases hi - lo
  {
    hide U32, U16, Used, By4, By4096, IsHbin;
    var next := lo + PageSize(a, lo);
    if x in Blocks(a, lo + HBIN, next) {
      BlockFacts(a, lo + HBIN, next, x);
      HeaderKept(a, b, lo);
      OthersKept(a, b, lo + HBIN, next, x);
      BlocksFrame(a, b, lo + HBIN, next);
      PagesSame(a, b, next, hi);
    } else {
      BlockIn(a, next, hi, x);
      HeaderKept(a, b, lo);
      OthersKept(a, b, lo + HBIN, next, x);
      BlocksFrame(a, b, lo + HBIN, next);
      PagesWrite(a, b, next, hi, x);
    }
  }

  lemma OthersKept(a: seq<byte>, b: seq<byte>, lo: nat, hi: nat, x: nat)
    requires hi <= |a| && hi <= |b| && BlocksTile(a, lo, hi)
    requires if x < hi then x in Blocks(a, lo, hi) && OnlyAt(a, b, lo, hi, x) else Same(a, b, lo, hi)
    ensures forall y :: y in Blocks(a, lo, hi) ==> y + 8 <= hi && (y != x ==> Len(b, y) == Len(a, y))
  {
    hide By4, By4096;
    forall y | y in Blocks(a, lo, hi)
      ensures y + 8 <= hi && (y != x ==> Len(b, y) == Len(a, y))
    {
      BlockFacts(a, lo, hi, y);
      if y < x && x < hi { BlocksApart(a, lo, hi, y, x); }
      if x < y { BlocksApart(a, lo, hi, x, y); }
    }
  }

  /** Cutting one block in two inside its page. */
  lemma {:induction false} PagesCut(a: seq<byte>, b: seq<byte>, lo: nat, hi: nat, x: nat, k: nat)
    requires hi <= |a| && hi <= |b| && PagesTile(a, lo, hi) && x in AllBlocks(a, lo, hi) && x + 8 <= hi
    requires 8 <= k && k + 8 <= Len(a, x) && By4(k) && x + k + 4 <= hi
    requires OnlyAt(a, b, lo, hi, x) && Len(b, x) == k && Len(b, x + k) == Len(a, x) - k
    ensures PagesTile(b, lo, hi) && AllBlocks(b, lo, hi) == AllBlocks(a, lo, hi) + {x + k}
    decreases hi - lo
  {
    hide U32, U16, Used, By4, By4096, IsHbin;
    var next := lo + PageSize(a, lo);
    if x in Blocks(a, lo + HBIN, next) {
      BlockFacts(a, lo + HBIN, next, x);
      HeaderKept(a, b, lo);
      OthersKept(a, b, lo + HBIN, next, x);
      BlocksCut(a, b, lo + HBIN, next, x, k);
      PagesSame(a, b, next, hi);
    } else {
      BlockIn(a, next, hi, x);
      HeaderKept(a, b, lo);
      OthersKept(a, b, lo + HBIN, next, x);
      BlocksFrame(a, b, lo + HBIN, next);
      PagesCut(a, b, next, hi, x, k);
    }
  }

  /** A page put right after the last one. */
  lemma {:induction false} PagesAppend(a: seq<byte>, lo: nat, mid: nat, hi: nat)
    requires mid <= hi <= |a| && PagesTile(a, lo, mid) && PageAt(a, mid, hi) && mid + PageSize(a, mid) == hi
    ensures PagesTile(a, lo, hi)
    ensures AllBlocks(a, lo, hi) == AllBlocks(a, lo, mid) + Blocks(a, mid + HBIN, hi)
    decreases hi - lo
  {
    hide U32, U16, Used, By4, By4096, IsHbin;
    if lo == mid {
      assert PagesTile(a, hi, hi);
    } else {
      PagesAppend(a, lo + PageSize(a, lo), mid, hi);
    }
  }

  lemma {:induction false} PagesAligned(a: seq<byte>, lo: nat, hi: nat)
    requires hi <= |a| && PagesTile(a, lo, hi) && By4096(lo)
    ensures By4096(hi) && lo <= hi
    decreases hi - lo
  {
    hide U32, U16, Used, By4, By4096, IsHbin;
    if lo != hi {
      By4096Sum(lo, PageSize(a, lo));
      PagesAligned(a, lo + PageSize(a, lo), hi);
    }
  }
}
