/** A hive with nothing but a root key, as in images/minimal: the smallest one that all operations work on. */
module Minimal {
  import opened Bytes
  import opened Bitmap
  import opened Layout
  import opened Records
  import opened Heap
  import opened Hives
  import opened Registry

  const ROOT := 0x1020
  const ID_SK: seq<byte> := ['s' as int, 'k' as int]

  /** The regf header: magic, major version 1, root offset. */
  function Header(): (a: seq<byte>)
    ensures |a| == 0x1000 && HeadOk(a, ROOT)
  {
    hide U16, Le32;
    var a := Put(Zeros(0x1000), 0, ['r' as int, 'e' as int, 'g' as int, 'f' as int]);
    Put32(Put32(a, 20, 1), 36, ROOT - 0x1000)
  }

  lemma NothingUsed(a: seq<byte>)
    requires |a| == 0x1000
    ensures Tiled(a, Blank(1 + |a| / 32), PAGES, 0) && CellsOk(a, PAGES, map[])
  {
    hide U16, U32;
    var bm := Blank(1 + |a| / 32);
    assert AllBlocks(a, PAGES, PAGES) == {};
    forall x | 0 <= x < 32 * |bm| && By4(x)
      ensures !Tst(bm, x)
    {
      assert !BitOn(0, x / 4 % 8);
    }
  }

  lemma ClearedSk(a: seq<byte>, o: nat, n: nat)
    requires o + n <= |a| && 24 <= n && Cleared(a, o, n, 's' as int, 'k' as int)
    ensures SkAt(a, o, n, Sk(0, 0, 0))
  {
  }

  /** An sk record that is a ring of its own, with one user. */
  method OwnSk(h: Hive) returns (sk: nat)
    requires h.HeapOk() && h.writable && h.endpages <= 0x8000
    modifies h`addr, h`bitmap, h`endpages, h`endblocks, h`cells
    ensures h.endpages <= 0x10000
    ensures h.HeapOk() && sk !in old(h.cells) && 0x1000 <= sk < NONE
    ensures h.cells == old(h.cells)[sk := Sk(sk - 0x1000, sk - 0x1000, 1)]
  {
    hide Tiled, CellsOk, Hive.HeapOk, Hive.Within, SkAt, U32, U16, Cleared, Place, Round8;
    PlaceBound(h.endpages, h.endblocks, 24);
    sk := h.AllocateBlock(24, ID_SK);
    h.CellValid(sk);
    SkFresh(h, sk);
    h.Store(sk, h.addr, Sk(0, 0, 0));
    h.SkSetNext(sk, sk - 0x1000);
    h.SkSetPrev(sk, sk - 0x1000);
    h.SkSetRefcount(sk, 1);
  }

  lemma SkFresh(h: Hive, sk: nat)
    requires h.HeapOk() && sk in h.cells && h.cells[sk] == Blob(Fresh(ID_SK, Round8(24)))
    ensures Holds(h.addr, sk, h.BlockLen(sk), Sk(0, 0, 0)) && KeepsBut(h.addr, h.addr, sk)
  {
    hide Tiled, CellsOk, U32, U16, SkAt, Cleared;
    var n := h.BlockLen(sk);
    h.FreshRecord(sk, ID_SK, 24);
    assert Holds(h.addr, sk, n, h.cells[sk]);
    FreshCleared(h.addr, sk, 24, ID_SK);
    ClearedSk(h.addr, sk, n);
  }

  ghost function RootNode(name: seq<byte>, sk: nat): Info { Info(name, 0x1000, 0, [], [], sk) }

  ghost function OneNode(name: seq<byte>, sk: nat): Tree {
    Tree(map[ROOT := RootNode(name, sk)], map[ROOT := NkOf(ROOT), sk := SkOf], [sk])
  }

  /** The two records. */
  ghost predicate TwoRecords(c: Cells, name: seq<byte>, sk: nat) {
    0x1000 <= sk < NONE && sk != ROOT && c.Keys == {ROOT, sk} && c[sk] == Sk(sk - 0x1000, sk - 0x1000, 1)
    && c[ROOT] == Nk(0x0020, 0, 0, 0, 0, 0, 0, 0, 0, sk - 0x1000, NONE, 0, 0, 0, name)
  }

  lemma OneNodeOk(c: Cells, name: seq<byte>, sk: nat)
    requires TwoRecords(c, name, sk)
    ensures TreeOk(c, OneNode(name, sk), ROOT)
  {
    hide RolesOk, RingOk, CountsOk;
    var t := OneNode(name, sk);
    RootRoles(c, name, sk);
    RootRing(c, name, sk);
    assert NodeOk(c, t.owner, ROOT, t.reg[ROOT]);
  }

  lemma RootRoles(c: Cells, name: seq<byte>, sk: nat)
    requires TwoRecords(c, name, sk)
    ensures RolesOk(c, OneNode(name, sk))
  {
  }

  lemma RootRing(c: Cells, name: seq<byte>, sk: nat)
    requires TwoRecords(c, name, sk)
    ensures RingOk(c, OneNode(name, sk)) && CountsOk(c, OneNode(name, sk))
  {
    var t := OneNode(name, sk);
    assert Users(t.reg, sk) == {ROOT};
    assert LinkedAt(c, t.owner, t.ring, 0);
  }

  /** A header and no pages. */
  method NoPages() returns (h: Hive)
    ensures fresh(h) && h.HeapOk() && h.writable && h.rootoffs == ROOT && h.endpages == PAGES && h.endblocks == 0 && h.cells == map[]
  {
    hide Tiled, CellsOk, HeadOk;
    var a := Header();
    NothingUsed(a);
    h := new Hive(a, Blank(1 + |a| / 32), ROOT, PAGES, true, map[], Tree(map[], map[], []));
    Together(h);
  }

  lemma FirstPlace(len: nat)
    ensures Place(PAGES, 0, Round8(len)).0 == ROOT
    ensures len <= 0x2000 ==> Place(PAGES, 0, Round8(len)).1 <= 0x8000
  {
    PlaceBound(PAGES, 0, len);
  }

  method SetRoot(h: Hive, sk: nat, ghost name: seq<byte>)
    requires h.HeapOk() && 0x1000 <= sk < NONE && sk != ROOT && |name| < 0x1000
    requires h.cells.Keys == {ROOT, sk} && h.cells[ROOT] == ZERO_NK.(flags := 0x0020, name := name)
    requires h.cells[sk] == Sk(sk - 0x1000, sk - 0x1000, 1)
    modifies h`addr, h`cells
    ensures h.HeapOk() && TwoRecords(h.cells, name, sk)
  {
    hide Tiled, CellsOk, Hive.HeapOk, Hive.Within;
    h.NkSet(ROOT, SkOffs, sk - 0x1000);
    h.NkSet(ROOT, Classname, NONE);
  }

  /** A valid, writable hive: a root key with its security record and room to grow. */
  method MinimalHive(name: seq<byte>) returns (h: Hive)
    requires |name| < 0x1000
    ensures fresh(h) && h.Valid() && h.writable && h.endpages <= 0x10000
    ensures exists sk :: sk != 0 && h.t == OneNode(name, sk)
  {
    hide Tiled, CellsOk, Hive.HeapOk, Hive.Within, TreeOk, HeadOk, Round8, Place, OneNode;
    h := NoPages();
    FirstPlace(81 + |name|);
    var root := h.NewNk(name);
    assert root == ROOT && h.endpages <= 0x8000;
    var sk := OwnSk(h);
    SetRoot(h, sk, name);
    OneNodeOk(h.cells, name, sk);
    h.t := OneNode(name, sk);
  }

  lemma Together(h: Hive)
    requires Tiled(h.addr, h.bitmap, h.endpages, h.endblocks) && CellsOk(h.addr, h.endpages, h.cells) && HeadOk(h.addr, h.rootoffs)
    ensures h.HeapOk()
  {
    hide Tiled, CellsOk, HeadOk;
  }
}
