/** Adding a child node: its nk record, its security record, and its place in the sorted lists. */
module Subkeys {
  import opened Bytes
  import opened Records
  import opened Registry
  import opened Heap
  import opened Hives
  import opened Readers
  import opened Names
  import opened Values

  // ---------- list entries

  /** c_toupper of a char, which is signed. */
  function Upper(b: byte): int { if 'a' as int <= b <= 'z' as int then b - 32 else if b >= 0x80 then b - 0x100 else b }

  /** The hash of an lh key. */
  function LhHash(name: seq<byte>): u32 {
    if name == [] then 0 else (LhHash(name[..|name| - 1]) * 37 + Upper(name[|name| - 1])) % 0x1_0000_0000
  }

  /** calc_hash: the first four characters for lf, a multiplicative hash for lh. */
  method CalcHash(lh: bool, name: seq<byte>) returns (v: u32)
    ensures v == if lh then LhHash(name) else Pack(name[..if |name| < 4 then |name| else 4])
    ensures HashIs(lh, name, v)
  {
    hide Pack, Upper, HashIs;
    Hashed(lh, name);
    if !lh {
      return Pack(name[..if |name| < 4 then |name| else 4]);
    }
    v := 0;
    for i := 0 to |name|
      invariant v == LhHash(name[..i])
    {
      assert name[..i + 1][..i] == name[..i];
      v := (v * 37 + Upper(name[i])) % 0x1_0000_0000;
    }
    assert name[..|name|] == name;
  }

  // ---------- what the lh hash computes

  function Pow37(k: nat): nat { if k == 0 then 1 else 37 * Pow37(k - 1) }

  /** The sum of the characters, letters in upper case and bytes from 128 on negative, each times a power of 37. */
  function Weighted(name: seq<byte>): int {
    if name == [] then 0 else
      (if 97 <= name[0] <= 122 then name[0] as int - 32 else if name[0] >= 128 then name[0] as int - 256 else name[0] as int)
      * Pow37(|name| - 1) + Weighted(name[1..])
  }

  lemma {:induction false} WeightedSnoc(name: seq<byte>, c: byte)
    ensures Weighted(name + [c]) == Weighted(name) * 37 + Upper(c)
    decreases |name|
  {
    var all := name + [c];
    if name == [] {
      assert all[1..] == [];
      assert Pow37(0) == 1;
    } else {
      assert all[0] == name[0] && all[1..] == name[1..] + [c];
      WeightedSnoc(name[1..], c);
      Powers(Upper(name[0]), |name| - 1, Weighted(name[1..]), Upper(c));
    }
  }

  lemma Powers(x: int, k: nat, w: int, c: int)
    ensures x * Pow37(k + 1) + (w * 37 + c) == (x * Pow37(k) + w) * 37 + c
  {
    var p := Pow37(k);
    assert Pow37(k + 1) == 37 * p;
    assert x * (37 * p) == 37 * (x * p);
  }

  lemma ModStep(w: int, c: int)
    ensures (w % 0x1_0000_0000 * 37 + c) % 0x1_0000_0000 == (w * 37 + c) % 0x1_0000_0000
  {
    var q, r := w / 0x1_0000_0000, w % 0x1_0000_0000;
    assert w == 0x1_0000_0000 * q + r;
    assert w * 37 + c == 0x1_0000_0000 * (q * 37) + (r * 37 + c);
    ModShift(q * 37, r * 37 + c);
  }

  lemma ModShift(k: int, x: int)
    ensures (0x1_0000_0000 * k + x) % 0x1_0000_0000 == x % 0x1_0000_0000
  {
    var q, r := x / 0x1_0000_0000, x % 0x1_0000_0000;
    assert 0x1_0000_0000 * k + x == 0x1_0000_0000 * (k + q) + r;
  }

  /** The lh hash is that sum modulo 2^32. */
  lemma {:induction false} LhHashIs(name: seq<byte>)
    ensures LhHash(name) == Weighted(name) % 0x1_0000_0000
    decreases |name|
  {
    hide Upper;
    if name != [] {
      var k := |name| - 1;
      LhHashIs(name[..k]);
      assert name == name[..k] + [name[k]];
      WeightedSnoc(name[..k], name[k]);
      ModStep(Weighted(name[..k]), Upper(name[k]));
    }
  }

  /** ... and does not tell upper from lower case. */
  lemma {:induction false} LhHashRecased(a: seq<byte>, b: seq<byte>)
    requires Recased(a, b)
    ensures LhHash(a) == LhHash(b)
    decreases |a|
  {
    if a != [] {
      var k := |a| - 1;
      assert SameLetter(a[k], b[k]);
      LhHashRecased(a[..k], b[..k]);
    }
  }

  /** What calc_hash gives: that sum, or the first four characters, zeros where the name is shorter. */
  ghost predicate HashIs(lh: bool, name: seq<byte>, v: u32) {
    if lh then v == Weighted(name) % 0x1_0000_0000 else
      forall k :: 0 <= k < 4 ==> Le32(v)[k] == if k < |name| then name[k] else 0
  }

  lemma Hashed(lh: bool, name: seq<byte>)
    ensures HashIs(lh, name, if lh then LhHash(name) else Pack(name[..if |name| < 4 then |name| else 4]))
  {
    hide LhHash, Weighted, Pack, Le32;
    if lh { LhHashIs(name); }
  }

  function KeyFor(lh: bool, name: seq<byte>, node: nat): Key
    requires 0x1000 <= node < Heap.MAX_IMAGE
  {
    Key(node - 0x1000, if lh then LhHash(name) else Pack(name[..if |name| < 4 then |name| else 4]))
  }

  function InsertAt<T>(s: seq<T>, p: nat, x: T): (r: seq<T>)
    requires p <= |s|
    ensures |r| == |s| + 1
  {
    s[..p] + [x] + s[p..]
  }

  /** new_lh_record: a list of the single node. */
  method NewLhRecord(h: Hive, name: seq<byte>, node: nat) returns (off: nat)
    requires h.HeapOk() && node in h.cells && 0x1000 <= node < Heap.MAX_IMAGE
    modifies h`addr, h`bitmap, h`endpages, h`endblocks, h`cells
    ensures h.HeapOk()
    ensures off == 0 <==> old(h.Refused(16))
    ensures off == 0 ==> h.cells == old(h.cells)
    ensures off != 0 ==> h.endpages == Place(old(h.endpages), old(h.endblocks), Round8(16)).1
    ensures off != 0 ==> off !in old(h.cells) && h.cells == old(h.cells)[off := Lf(true, [KeyFor(true, name, node)])]
    ensures off != 0 && old(h.Within() && h.Roomy()) ==> h.Within() && h.Roomy() && h.license.floor <= off
  {
    hide Heap.Tiled, Heap.CellsOk, Hive.HeapOk, Hive.Within, Place, Round8, HashIs, LhHash, Pack, Hive.Roomy, MayPut;
    off := h.NewLf(true, 1);
    if off == 0 { return; }
    var hash := CalcHash(true, name);
    AboveFloor(h.license, off);
    h.LfSetKey(off, 0, Key(node - 0x1000, hash));
    assert NoKeys(1)[0 := KeyFor(true, name, node)] == [KeyFor(true, name, node)];
  }

  /** Copies keys of one list into entries [lo, hi) of another, `shift` places further on. */
  method CopyKeys(h: Hive, src: nat, dst: nat, lo: nat, hi: nat, shift: nat)
    requires h.HeapOk() && src in h.cells && h.cells[src].Lf? && dst in h.cells && h.cells[dst].Lf? && src != dst
    requires shift <= lo <= hi <= |h.cells[dst].keys| && hi - shift <= |h.cells[src].keys|
    modifies h`addr, h`cells
    ensures h.HeapOk() && h.cells.Keys == old(h.cells).Keys
    ensures h.cells == old(h.cells)[dst := Lf(old(h.cells)[dst].lh,
                                              Spliced(old(h.cells)[dst].keys, old(h.cells)[src].keys, lo, hi, shift))]
    ensures old(h.Within()) && h.license.floor <= dst ==> h.Within()
  {
    hide Heap.Tiled, Heap.CellsOk, Hive.HeapOk, Hive.Within, Hive.Roomy, MayPut;
    ghost var c, ks, ds := h.cells, h.cells[src].keys, h.cells[dst].keys;
    hide Spliced;
    SplicedStep(ds, ks, lo, lo, shift);
    AboveFloor(h.license, dst);
    for i := lo to hi
      invariant old(h.Within()) && h.license.floor <= dst ==> h.Within()
      invariant h.HeapOk() && dst in h.cells && h.cells == c[dst := Lf(c[dst].lh, Spliced(ds, ks, lo, i, shift))]
    {
      SplicedStep(ds, ks, lo, i, shift);
      h.LfSetKey(dst, i, h.LfKey(src, i - shift));
    }
  }

  /** ds with its entries [lo, hi) taken from ks, `shift` places earlier. */
  ghost function Spliced(ds: seq<Key>, ks: seq<Key>, lo: nat, hi: nat, shift: nat): (r: seq<Key>)
    requires shift <= lo <= hi <= |ds| && hi - shift <= |ks|
    ensures |r| == |ds|
  {
    ds[..lo] + ks[lo - shift..hi - shift] + ds[hi..]
  }

  lemma SplicedStep(ds: seq<Key>, ks: seq<Key>, lo: nat, i: nat, shift: nat)
    requires shift <= lo <= i <= |ds| && i - shift <= |ks|
    ensures i == lo ==> Spliced(ds, ks, lo, i, shift) == ds
    ensures i < |ds| && i - shift < |ks| ==> Spliced(ds, ks, lo, i, shift)[i := ks[i - shift]] == Spliced(ds, ks, lo, i + 1, shift)
  {
  }

  /** The three copying steps put k at posn and keep all other keys in order. */
  lemma CopiedKeys(z: seq<Key>, keys: seq<Key>, posn: nat, k: Key)
    requires |z| == |keys| + 1 && posn <= |keys|
    ensures Spliced(Spliced(z, keys, 0, posn, 0)[posn := k], keys, posn + 1, |keys| + 1, 1) == InsertAt(keys, posn, k)
  {
  }

  /** insert_lf_record: a new list with the node at posn; the old list is freed. */
  method InsertLfRecord(h: Hive, old_offs: nat, posn: nat, name: seq<byte>, node: nat) returns (off: nat)
    requires h.HeapOk() && h.writable && old_offs in h.cells && h.cells[old_offs].Lf? && |h.cells[old_offs].keys| < 0xffff
    requires posn <= |h.cells[old_offs].keys| && 0x1000 <= node < Heap.MAX_IMAGE
    modifies h`addr, h`bitmap, h`endpages, h`endblocks, h`cells
    ensures h.HeapOk()
    ensures off == 0 <==> old(h.Refused(16 + 8 * |h.cells[old_offs].keys|))
    ensures off != 0 ==>
              h.endpages == Place(old(h.endpages), old(h.endblocks), Round8(16 + 8 * |old(h.cells)[old_offs].keys|)).1
    ensures off == 0 ==> h.cells == old(h.cells)
    ensures off != 0 ==> off !in old(h.cells)
                         && (var l := old(h.cells)[old_offs];
                             h.cells == old(h.cells)[off := Lf(l.lh, InsertAt(l.keys, posn, KeyFor(l.lh, name, node)))] - {old_offs})
    ensures (off != 0 && old(h.Within() && h.Roomy()) && MayPut(h.license, old_offs, old_offs, 4)) ==> h.Within() && h.Roomy()
  {
    hide Heap.Tiled, Heap.CellsOk, Hive.HeapOk, Hive.Within, Place, Round8, HashIs, LhHash, Pack, Spliced, InsertAt,
      Hive.Roomy, MayPut;
    ghost var c, keys := h.cells, h.cells[old_offs].keys;
    var nr := h.LfCount(old_offs);
    var lh := h.HasId(old_offs, 'l', 'h');
    off := h.NewLf(lh, nr + 1);
    if off == 0 { return; }
    CopyKeys(h, old_offs, off, 0, posn, 0);
    var hash := CalcHash(lh, name);
    AboveFloor(h.license, off);
    h.LfSetKey(off, posn, Key(node - 0x1000, hash));
    CopyKeys(h, old_offs, off, posn + 1, nr + 1, 1);
    CopiedKeys(NoKeys(nr + 1), keys, posn, KeyFor(lh, name, node));
    h.MarkBlockUnused(old_offs);
  }

  // ---------- where the name goes

  ghost predicate AllNk(c: Cells, kids: seq<nat>) {
    forall x :: x in kids ==> x in c && c[x].Nk?
  }

  /** k is the first position whose name comes after `name`. */
  ghost predicate FirstAfter(c: Cells, kids: seq<nat>, name: seq<byte>, k: nat)
    requires AllNk(c, kids)
  {
    k <= |kids| && (forall x :: 0 <= x < k ==> CaseCmp(name, c[kids[x]].name) >= 0)
    && (k < |kids| ==> CaseCmp(name, c[kids[k]].name) < 0)
  }

  /** compare_name_with_nk_name. */
  method CompareName(h: Hive, name: seq<byte>, node: nat) returns (r: int)
    requires h.HeapOk()
    ensures node in h.cells && h.cells[node].Nk? ==> r == CaseCmp(name, h.cells[node].name)
  {
    hide Heap.Tiled, Heap.CellsOk, Hive.HeapOk, Hive.Within, CaseCmp, NameGood;
    var nname := NodeName(h, node);
    match nname
    case Err(_) => return 0;
    case Ok(n) => return CaseCmp(name, n);
  }

  /** The first key of the list at l that comes after the name. */
  method ScanLf(h: Hive, l: nat, name: seq<byte>) returns (found: bool, j: nat)
    requires h.HeapOk() && l in h.cells && h.cells[l].Lf? && AllNk(h.cells, KeyPs(h.cells[l].keys))
    ensures FirstAfter(h.cells, KeyPs(h.cells[l].keys), name, j) && j <= |h.cells[l].keys|
    ensures found == (j < |h.cells[l].keys|)
  {
    hide Heap.Tiled, Heap.CellsOk, Hive.HeapOk, Hive.Within, CaseCmp;
    ghost var kids := KeyPs(h.cells[l].keys);
    j := 0;
    while j < h.LfCount(l)
      invariant j <= |kids| && forall x :: 0 <= x < j ==> CaseCmp(name, h.cells[kids[x]].name) >= 0
      decreases |kids| - j
    {
      var nk := P(h.LfKey(l, j).off);
      assert nk == kids[j] && kids[j] in kids;
      var cmp := CompareName(h, name, nk);
      if cmp < 0 {
        return true, j;
      }
      j := j + 1;
    }
    return false, j;
  }

  /** What get_children reports for a node with children, split into its lists. */
  ghost predicate BlocksOf(c: Cells, blocks: seq<nat>, ls: seq<nat>) {
    AllLf(c, ls) && ls != []
    && (blocks == ls || (blocks != [] && blocks[0] in c && c[blocks[0]].Ri? && blocks[1..] == ls))
  }

  /** The search in add_child: list i of ls, entry j, so that the new name goes there in the whole sequence of children. */
  method FindPlace(h: Hive, blocks: seq<nat>, name: seq<byte>, ghost ls: seq<nat>) returns (offs: nat, j: nat, ghost i: nat)
    requires h.HeapOk() && BlocksOf(h.cells, blocks, ls) && AllNk(h.cells, Flat(h.cells, ls))
    ensures i < |ls| && offs == ls[i] && offs in h.cells && h.cells[offs].Lf? && j <= |h.cells[offs].keys|
    ensures FirstAfter(h.cells, Flat(h.cells, ls), name, |Flat(h.cells, ls[..i])| + j)
  {
    hide Heap.Tiled, Heap.CellsOk, Hive.HeapOk, Hive.Within, CaseCmp, FirstAfter, Flat;
    ghost var ri := if blocks == ls then 0 else 1;
    offs, j, i := 0, 0, 0;
    ghost var seen: nat := 0;
    EmptyPlace(h.cells, ls, name);
    for b := 0 to |blocks|
      invariant seen == (if b < ri then 0 else b - ri) && seen <= |ls|
      invariant AllLf(h.cells, ls[..seen]) && AllNk(h.cells, Flat(h.cells, ls[..seen]))
      invariant FirstAfter(h.cells, Flat(h.cells, ls[..seen]), name, |Flat(h.cells, ls[..seen])|)
      invariant seen > 0 ==> i == seen - 1 && offs == ls[i] && offs in h.cells && h.cells[offs].Lf? && j == |h.cells[offs].keys|
    {
      assert b >= ri ==> blocks[b] == ls[b - ri];
      if h.HasId(blocks[b], 'l', 'f') || h.HasId(blocks[b], 'l', 'h') {
        offs := blocks[b];
        i := seen;
        FlatSnoc(h.cells, ls, i);
        FlatSplit(h.cells, ls, i);
        var found;
        found, j := ScanLf(h, offs, name);
        PlaceMore(h.cells, ls, name, i, j);
        if found {
          return;
        }
        seen := seen + 1;
      }
    }
    assert ls[..seen] == ls;
    FlatSnoc(h.cells, ls, i);
  }

  lemma EmptyPlace(c: Cells, ls: seq<nat>, name: seq<byte>)
    requires AllLf(c, ls)
    ensures AllLf(c, ls[..0]) && AllNk(c, Flat(c, ls[..0])) && Flat(c, ls[..0]) == []
    ensures FirstAfter(c, Flat(c, ls[..0]), name, 0)
  {
  }

  lemma FlatSplit(c: Cells, ls: seq<nat>, i: nat)
    requires AllLf(c, ls) && i < |ls|
    ensures ls[i] in c && AllLf(c, ls[..i]) && AllLf(c, ls[i + 1..])
    ensures Flat(c, ls) == Flat(c, ls[..i]) + KeyPs(c[ls[i]].keys) + Flat(c, ls[i + 1..])
  {
    FlatSnoc(c, ls, i);
    assert ls == ls[..i + 1] + ls[i + 1..];
    FlatCat(c, ls[..i + 1], ls[i + 1..]);
  }

  /** Nothing before list i comes after the name, so the place in list i is the place in the whole sequence. */
  lemma PlaceMore(c: Cells, ls: seq<nat>, name: seq<byte>, i: nat, j: nat)
    requires AllLf(c, ls) && i < |ls| && AllNk(c, Flat(c, ls)) && AllLf(c, ls[..i]) && AllNk(c, Flat(c, ls[..i]))
    requires FirstAfter(c, Flat(c, ls[..i]), name, |Flat(c, ls[..i])|)
    requires ls[i] in c && AllNk(c, KeyPs(c[ls[i]].keys)) && FirstAfter(c, KeyPs(c[ls[i]].keys), name, j)
    ensures AllLf(c, ls[..i + 1]) && AllNk(c, Flat(c, ls[..i + 1]))
    ensures j < |c[ls[i]].keys| ==> FirstAfter(c, Flat(c, ls), name, |Flat(c, ls[..i])| + j)
    ensures j == |c[ls[i]].keys| ==> FirstAfter(c, Flat(c, ls[..i + 1]), name, |Flat(c, ls[..i + 1])|)
  {
    hide Flat, CaseCmp;
    FlatSnoc(c, ls, i);
    FlatSplit(c, ls, i);
    var pre, mid := Flat(c, ls[..i]), KeyPs(c[ls[i]].keys);
    forall x | 0 <= x < |pre| + j
      ensures CaseCmp(name, c[(pre + mid)[x]].name) >= 0 && (pre + mid)[x] == Flat(c, ls)[x]
    {
      if x < |pre| { assert (pre + mid)[x] == pre[x] && pre[x] in pre; } else { assert (pre + mid)[x] == mid[x - |pre|]; }
    }
    if j < |mid| { assert Flat(c, ls)[|pre| + j] == mid[j]; }
  }

  // ---------- the list with the new entry

  /** From (c, o) to (c', o') list i of ls is replaced by a fresh one with `key` at entry j; l' is the new subkey_lf. */
  ghost predicate Relisted(c: Cells, o: Owner, c': Cells, o': Owner, n: nat, l: nat, l': nat, i: nat, j: nat, key: Key, nl: nat)
    requires l in c
  {
    var ls := Lfs(c, l);
    i < |ls| && ls[i] in c && c[ls[i]].Lf? && j <= |c[ls[i]].keys| && nl !in c && nl !in o && 0x1000 <= nl < Heap.MAX_IMAGE
    && Is(c', o', nl, LfOf(n, i)) && c'[nl] == Lf(c[ls[i]].lh, InsertAt(c[ls[i]].keys, j, key))
    && (c[l].Ri? ==> l' == l && Is(c', o', l, RiOf(n)) && c'[l] == Ri(c[l].offs[i := nl - 0x1000]))
    && (c[l].Lf? ==> l' == nl)
    && forall x :: 0 <= x < |ls| && x != i ==> ls[x] in c' && ls[x] in o' && o'[ls[x]] == LfOf(n, x) && ls[x] in c && c'[ls[x]] == c[ls[x]]
  }

  lemma RelistedLfs(c: Cells, o: Owner, c': Cells, o': Owner, n: nat, l: nat, l': nat, i: nat, j: nat, key: Key, nl: nat,
                    kids: seq<nat>)
    requires ListsOk(c, o, n, l, kids) && Relisted(c, o, c', o', n, l, l', i, j, key, nl)
    ensures l' in c' && l' in o' && (c'[l'].Ri? || c'[l'].Lf?) && (c'[l'].Ri? ==> o'[l'] == RiOf(n))
    ensures i < |Lfs(c, l)| && Lfs(c', l') == Lfs(c, l)[i := nl] && LfsOk(c', o', n, Lfs(c', l'))
  {
    hide Flat, InsertAt;
  }

  lemma RelistedKids(c: Cells, o: Owner, c': Cells, o': Owner, n: nat, l: nat, l': nat, i: nat, j: nat, key: Key, nl: nat,
                     kids: seq<nat>)
    requires ListsOk(c, o, n, l, kids) && Relisted(c, o, c', o', n, l, l', i, j, key, nl)
    ensures AllLf(c, Lfs(c, l)[..i]) && |Flat(c, Lfs(c, l)[..i])| + j <= |kids|
    ensures ListsOk(c', o', n, l', InsertAt(kids, |Flat(c, Lfs(c, l)[..i])| + j, P(key.off)))
  {
    hide Flat, InsertAt;
    RelistedLfs(c, o, c', o', n, l, l', i, j, key, nl, kids);
    FlatReplaced(c, c', Lfs(c, l), i, j, key, nl);
  }

  lemma FlatReplaced(c: Cells, c': Cells, ls: seq<nat>, i: nat, j: nat, key: Key, nl: nat)
    requires AllLf(c, ls) && i < |ls| && AllLf(c', ls[i := nl]) && j <= |c[ls[i]].keys| && nl in c' && c'[nl].Lf?
    requires c'[nl].keys == InsertAt(c[ls[i]].keys, j, key)
    requires forall x :: 0 <= x < |ls| && x != i ==> ls[x] in c' && c'[ls[x]] == c[ls[x]]
    ensures AllLf(c, ls[..i]) && |Flat(c, ls[..i])| + j <= |Flat(c, ls)|
    ensures Flat(c', ls[i := nl]) == InsertAt(Flat(c, ls), |Flat(c, ls[..i])| + j, P(key.off))
  {
    hide Flat, InsertAt;
    var ls' := ls[i := nl];
    var keys := c[ls[i]].keys;
    FlatSplit(c, ls, i);
    FlatSplit(c', ls', i);
    assert ls'[..i] == ls[..i] && ls'[i + 1..] == ls[i + 1..];
    FlatKept(c, c', ls[..i]);
    FlatKept(c, c', ls[i + 1..]);
    InsertedPs(keys, j, key);
    InsertMiddle(Flat(c, ls[..i]), KeyPs(keys), Flat(c, ls[i + 1..]), j, P(key.off));
  }

  lemma InsertedPs(keys: seq<Key>, j: nat, key: Key)
    requires j <= |keys|
    ensures KeyPs(InsertAt(keys, j, key)) == InsertAt(KeyPs(keys), j, P(key.off))
  {
  }

  lemma InsertMiddle(a: seq<nat>, b: seq<nat>, c: seq<nat>, j: nat, x: nat)
    requires j <= |b|
    ensures a + InsertAt(b, j, x) + c == InsertAt(a + b + c, |a| + j, x)
  {
  }

  lemma RiEntry(L: Licence, ri: nat, k: nat, j: nat)
    requires j < k
    ensures MayPut(L, ri, ri + 8, 4 * k) ==> MayPut(L, ri, ri + 8 + 4 * j, 4)
  {
  }

  /** One of the entries leads to l. */
  ghost predicate LeadsTo(offs: seq<u32>, l: nat) { exists i :: 0 <= i < |offs| && P(offs[i]) == l }

  /** In-place update of the ri record that points to the replaced list. */
  method RelinkRi(h: Hive, ri: nat, old_offs: nat, new_offs: nat) returns (found: bool)
    requires h.HeapOk() && ri in h.cells && h.cells[ri].Ri? && 0x1000 <= new_offs < Heap.MAX_IMAGE
    modifies h`addr, h`cells
    ensures h.HeapOk() && (!found ==> h.cells == old(h.cells))
    ensures found <==> LeadsTo(old(h.cells)[ri].offs, old_offs)
    ensures forall i :: 0 <= i < |old(h.cells)[ri].offs| && P(old(h.cells)[ri].offs[i]) == old_offs
                        && (forall x :: 0 <= x < i ==> P(old(h.cells)[ri].offs[x]) != old_offs) ==>
              found && h.cells == old(h.cells)[ri := Ri(old(h.cells)[ri].offs[i := new_offs - 0x1000])]
    ensures old(h.Within()) && MayPut(h.license, ri, ri + 8, 4 * |old(h.cells)[ri].offs|) ==> h.Within()
  {
    hide Heap.Tiled, Heap.CellsOk, Hive.HeapOk, Hive.Within, MayPut;
    for j := 0 to h.RiCount(ri)
      invariant forall x :: 0 <= x < j ==> P(h.cells[ri].offs[x]) != old_offs
    {
      if P(h.RiGet(ri, j)) == old_offs {
        RiEntry(h.license, ri, |h.cells[ri].offs|, j);
        h.RiSet(ri, j, new_offs - 0x1000);
        return true;
      }
    }
    return false;
  }
}
