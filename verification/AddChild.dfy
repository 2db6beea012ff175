/** hivex_node_add_child. */
module AddChild {
  import opened Bytes
  import opened Records
  import opened Registry
  import opened Heap
  import opened Hives
  import opened Readers
  import opened Names
  import opened Values
  import opened Subkeys
  import opened Adding

  lemma {:induction false} Below(s: set<nat>, n: nat)
    requires forall x :: x in s ==> x < n
    ensures |s| <= n
  {
    if n == 0 {
      assert s == {};
    } else {
      Below(s - {n - 1}, n - 1);
      if n - 1 in s { assert |s| == |s - {n - 1}| + 1; } else { assert s - {n - 1} == s; }
    }
  }

  /** A reference count always has room for one more node. */
  lemma CountRoom(h: Hive, s: nat)
    requires h.Valid() && s in h.t.owner && h.t.owner[s].SkOf?
    ensures s in h.cells && h.cells[s].Sk? && h.cells[s].refcount == |Users(h.t.reg, s)| <= Heap.MAX_IMAGE
  {
    hide Heap.Tiled, Heap.CellsOk, Hive.HeapOk, Hive.Within, NodesOk, RolesOk, RingOk, LinksOk;
    forall n | n in Users(h.t.reg, s)
      ensures n < Heap.MAX_IMAGE
    {
      NkRole(h.cells, h.t, n);
      h.CellValid(n);
    }
    Below(Users(h.t.reg, s), Heap.MAX_IMAGE);
  }

  /** The licence lets the parent count and point to one more child. */
  ghost predicate MayCount(L: Licence, parent: nat) {
    MayPut(L, parent, parent + 24, 4) && MayPut(L, parent, parent + 32, 4) && MayPut(L, parent, parent + 56, 2)
  }

  /** The licence lets a list of the parent be freed, and an entry of its ri record be rewritten. */
  ghost predicate MayReplace(L: Licence, c: Cells, parent: nat) {
    parent in c && c[parent].Nk? && (c[parent].nrSubkeys > 0 && P(c[parent].subkeyLf) in c ==>
      var l := P(c[parent].subkeyLf);
      (forall b :: b in Lfs(c, l) ==> MayPut(L, b, b, 4)) && (c[l].Ri? ==> MayPut(L, l, l + 8, 4 * |c[l].offs|)))
  }

  /** The nk record of the child, before its security record and place are known. */
  method NewChildNk(h: Hive, parent: nat, name: seq<byte>) returns (node: nat)
    requires h.HeapOk() && |name| < 0x1_0000 && 0x1000 <= parent < Heap.MAX_IMAGE
    modifies h`addr, h`bitmap, h`endpages, h`endblocks, h`cells
    ensures h.HeapOk()
    ensures node == 0 <==> old(h.Refused(81 + |name|))
    ensures node == 0 ==> h.cells == old(h.cells)
    ensures node != 0 ==> node !in old(h.cells) && 0x1000 <= node < Heap.MAX_IMAGE
                          && h.endpages <= old(h.endpages) + 81 + |name| + OVERHEAD
                          && h.cells == old(h.cells)[node := Nk(0x0020, 0, 0, parent - 0x1000, 0, NONE, NONE, 0, NONE,
                                                                0, NONE, 0, 0, 0, name)]
    ensures node != 0 && old(h.Within() && h.Roomy()) ==> h.Within() && h.Roomy() && h.license.floor <= node
  {
    hide Heap.Tiled, Heap.CellsOk, Hive.HeapOk, Hive.Within, Place, Round8, Hive.Roomy, MayPut;
    PlaceBound(h.endpages, h.endblocks, 81 + |name|);
    node := h.NewNk(name);
    if node == 0 { return; }
    h.CellValid(node);
    AboveFloor(h.license, node);
    h.NkSet(node, Parent, parent - 0x1000);
    h.NkSet(node, SubkeyLf, NONE);
    h.NkSet(node, LfVolatile, NONE);
    h.NkSet(node, Vallist, NONE);
    h.NkSet(node, Classname, NONE);
  }

  /** The child shares the parent's security record and time. */
  method InheritSk(h: Hive, parent: nat, node: nat, ghost s: nat) returns (ok: bool)
    requires h.HeapOk() && parent in h.cells && h.cells[parent].Nk? && node in h.cells && h.cells[node].Nk? && node != parent
    requires s == SkPtr(h.cells[parent].sk) && (s != 0 ==> s in h.cells && h.cells[s].Sk? && h.cells[s].refcount < NONE)
    modifies h`addr, h`cells
    ensures h.HeapOk() && ok == (s != 0) && (!ok ==> h.cells == old(h.cells))
    ensures ok ==> h.cells == old(h.cells)[s := old(h.cells)[s].(refcount := old(h.cells)[s].refcount + 1)]
                                          [node := old(h.cells)[node].(sk := old(h.cells)[parent].sk,
                                             timeLo := old(h.cells)[parent].timeLo, timeHi := old(h.cells)[parent].timeHi)]
    ensures (old(h.Within()) && h.license.floor <= node && (s != 0 ==> MayPut(h.license, s, s + 16, 4))) ==> h.Within()
  {
    hide Heap.Tiled, Heap.CellsOk, Hive.HeapOk, Hive.Within, MayPut;
    var sk := P(h.NkGet(parent, SkOffs));
    if s != 0 { h.CellValid(s); assert h.HasId(s, 's', 'k'); } else { h.TooFar(sk); }
    if !h.BlockIs(sk, 's', 'k') {
      return false;
    }
    AboveFloor(h.license, node);
    h.SkSetRefcount(sk, h.SkGet(sk).2 + 1);
    h.NkSet(node, SkOffs, sk - 0x1000);
    h.NkSet(node, TimeLo, h.NkGet(parent, TimeLo));
    h.NkSet(node, TimeHi, h.NkGet(parent, TimeHi));
    return true;
  }

  /** No subkeys yet: a new list of one. */
  method LinkFirst(h: Hive, parent: nat, name: seq<byte>, node: nat) returns (nl: nat)
    requires h.HeapOk() && parent in h.cells && h.cells[parent].Nk? && node in h.cells && 0x1000 <= node < Heap.MAX_IMAGE
    modifies h`addr, h`bitmap, h`endpages, h`endblocks, h`cells
    ensures h.HeapOk()
    ensures h.writable && old(h.endpages) + 16 + OVERHEAD <= Heap.MAX_IMAGE ==> nl != 0
    ensures nl != 0 ==> h.endpages <= old(h.endpages) + 16 + OVERHEAD
    ensures nl != 0 ==> nl !in old(h.cells) && 0x1000 <= nl < Heap.MAX_IMAGE
                        && h.cells == old(h.cells)[nl := Lf(true, [KeyFor(true, name, node)])]
                                                  [parent := old(h.cells)[parent].(subkeyLf := nl - 0x1000)]
    ensures (nl != 0 && old(h.Within() && h.Roomy()) && MayCount(h.license, parent)) ==> h.Within() && h.Roomy()
  {
    hide Heap.Tiled, Heap.CellsOk, Hive.HeapOk, Hive.Within, Place, Round8, KeyFor, Hive.Roomy, MayPut;
    PlaceBound(h.endpages, h.endblocks, 16);
    nl := NewLhRecord(h, name, node);
    if nl == 0 { return; }
    h.CellValid(nl);
    h.NkSet(parent, SubkeyLf, nl - 0x1000);
  }

  /** The lists of a parent that has children, as the insertion needs them. */
  ghost predicate Listed(c: Cells, parent: nat, node: nat, ls: seq<nat>) {
    parent in c && c[parent].Nk? && c[parent].nrSubkeys > 0 && P(c[parent].subkeyLf) in c && ls == Lfs(c, P(c[parent].subkeyLf))
    && (c[P(c[parent].subkeyLf)].Ri? || c[P(c[parent].subkeyLf)].Lf?)
    && ls != [] && AllLf(c, ls) && Distinct(ls) && parent !in ls && node in c && c[node].Nk? && 0x1000 <= node < Heap.MAX_IMAGE
    && AllNk(c, Flat(c, ls)) && |Flat(c, ls)| < 0xffff
  }

  /** The records after list i has been replaced by nl. */
  ghost function Relinked(c: Cells, parent: nat, node: nat, name: seq<byte>, i: nat, j: nat, nl: nat): Cells
    requires parent in c && c[parent].Nk? && P(c[parent].subkeyLf) in c && 0x1000 <= nl < Heap.MAX_IMAGE
    requires var ls := Lfs(c, P(c[parent].subkeyLf));
             i < |ls| && ls[i] in c && c[ls[i]].Lf? && j <= |c[ls[i]].keys| && 0x1000 <= node < Heap.MAX_IMAGE
  {
    var l := P(c[parent].subkeyLf);
    var old_offs := Lfs(c, l)[i];
    var lf := c[old_offs];
    var c1 := c[nl := Lf(lf.lh, InsertAt(lf.keys, j, KeyFor(lf.lh, name, node)))] - {old_offs};
    if c[l].Ri? then c1[l := Ri(c[l].offs[i := nl - 0x1000])] else c1[parent := c[parent].(subkeyLf := nl - 0x1000)]
  }

  lemma ShortLf(c: Cells, ls: seq<nat>, i: nat)
    requires AllLf(c, ls) && i < |ls|
    ensures ls[i] in c && |c[ls[i]].keys| <= |Flat(c, ls)|
  {
    FlatSplit(c, ls, i);
  }

  /** Subkeys exist: find the place, replace that list, and point to the new one. */
  method LinkInsert(h: Hive, parent: nat, blocks: seq<nat>, name: seq<byte>, node: nat, ghost ls: seq<nat>)
    returns (ok: bool, ghost nl: nat, ghost i: nat, ghost j: nat)
    requires h.HeapOk() && h.writable && Listed(h.cells, parent, node, ls) && blocks == ListBlocks(h.cells, parent)
    modifies h`addr, h`bitmap, h`endpages, h`endblocks, h`cells
    ensures h.HeapOk()
    ensures old(h.endpages) + 16 + 8 * |Flat(old(h.cells), ls)| + OVERHEAD <= Heap.MAX_IMAGE ==> ok
    ensures ok ==> h.endpages <= old(h.endpages) + 16 + 8 * |Flat(old(h.cells), ls)| + OVERHEAD
    ensures ok ==> i < |ls| && ls[i] in old(h.cells) && j <= |old(h.cells)[ls[i]].keys| && AllLf(old(h.cells), ls[..i])
                   && nl !in old(h.cells) && 0x1000 <= nl < Heap.MAX_IMAGE
                   && FirstAfter(old(h.cells), Flat(old(h.cells), ls), name, |Flat(old(h.cells), ls[..i])| + j)
                   && h.cells == Relinked(old(h.cells), parent, node, name, i, j, nl)
    ensures (ok && old(h.Within() && h.Roomy()) && MayCount(h.license, parent) && MayReplace(h.license, old(h.cells), parent)) ==> h.Within() && h.Roomy()
  {
    hide Heap.Tiled, Heap.CellsOk, Hive.HeapOk, Hive.Within, Place, Round8, KeyFor, Flat, FirstAfter, InsertAt,
      Hive.Roomy, MayPut, MayCount, MayReplace, Listed, LeadsTo;
    ghost var c := h.cells;
    ListedParts(c, parent, node, ls, blocks);
    var l := P(h.NkGet(parent, SubkeyLf));
    var old_offs, posn;
    old_offs, posn, i := FindPlace(h, blocks, name, ls);
    j, nl := posn, 0;
    ShortLf(c, ls, i);
    LinkParts(h.license, c, parent, ls, i);
    PlaceBound(h.endpages, h.endblocks, 16 + 8 * |c[old_offs].keys|);
    var new_offs := InsertLfRecord(h, old_offs, posn, name, node);
    nl := new_offs;
    if new_offs == 0 {
      return false, nl, i, j;
    }
    h.CellValid(new_offs);
    if P(h.NkGet(parent, SubkeyLf)) == old_offs {
      assert c[l].Lf?;
      h.NkSet(parent, SubkeyLf, new_offs - 0x1000);
      return true, nl, i, j;
    }
    // get_children reports the ri record first, so the search for it ends at once
    var found := RelinkRi(h, blocks[0], old_offs, new_offs);
    return found, nl, i, j;
  }

  lemma ListedParts(c: Cells, parent: nat, node: nat, ls: seq<nat>, blocks: seq<nat>)
    requires Listed(c, parent, node, ls) && blocks == ListBlocks(c, parent)
    ensures parent in c && c[parent].Nk? && P(c[parent].subkeyLf) in c && ls == Lfs(c, P(c[parent].subkeyLf)) && parent !in ls
    ensures c[parent].nrSubkeys > 0
    ensures c[P(c[parent].subkeyLf)].Ri? || c[P(c[parent].subkeyLf)].Lf?
    ensures BlocksOf(c, blocks, ls) && AllNk(c, Flat(c, ls)) && |Flat(c, ls)| < 0xffff && Distinct(ls) && 0x1000 <= node < Heap.MAX_IMAGE
    ensures c[P(c[parent].subkeyLf)].Ri? ==> blocks[0] == P(c[parent].subkeyLf)
  {
    hide Flat;
    var l := P(c[parent].subkeyLf);
    if c[l].Ri? { assert blocks[1..] == ls; }
  }

  lemma LinkParts(L: Licence, c: Cells, parent: nat, ls: seq<nat>, i: nat)
    requires parent in c && c[parent].Nk? && P(c[parent].subkeyLf) in c && ls == Lfs(c, P(c[parent].subkeyLf)) && i < |ls|
    ensures MayCount(L, parent) ==> MayPut(L, parent, parent + At(SubkeyLf), 4)
    ensures MayReplace(L, c, parent) && c[parent].nrSubkeys > 0 ==> MayPut(L, ls[i], ls[i], 4)
    ensures (MayReplace(L, c, parent) && c[parent].nrSubkeys > 0 && c[P(c[parent].subkeyLf)].Ri?) ==>
              MayPut(L, P(c[parent].subkeyLf), P(c[parent].subkeyLf) + 8, 4 * |c[P(c[parent].subkeyLf)].offs|)
  {
    hide MayPut;
  }

  // ---------- what has changed, seen from the tree

  /** The records once the child exists and shares the parent's security record, but is not yet listed. */
  ghost function WithChild(c: Cells, parent: nat, node: nat, name: seq<byte>, s: nat): Cells
    requires parent in c && c[parent].Nk? && 0x1000 <= parent < 0x1_0000_0000 && s in c && c[s].Sk? && c[s].refcount < NONE
  {
    c[s := c[s].(refcount := c[s].refcount + 1)][node := NodeRec(c[parent], parent, name)]
  }

  /** ... and once the parent counts it. */
  ghost function Counted(c: Cells, parent: nat, max: u16): Cells
    requires parent in c && c[parent].Nk? && c[parent].nrSubkeys < NONE
  {
    c[parent := c[parent].(nrSubkeys := c[parent].nrSubkeys + 1, maxSubkey := max)]
  }

  /** The situation add_child works in. */
  ghost predicate Ready(c: Cells, t: Tree, parent: nat, node: nat, s: nat) {
    parent in t.reg && parent in c && c[parent].Nk? && 0x1000 <= parent < Heap.MAX_IMAGE
    && node !in c && 0x1000 <= node < Heap.MAX_IMAGE && s != 0 && s == t.reg[parent].sk
    && Is(c, t.owner, s, SkOf) && c[s].Sk? && c[s].refcount < NONE
  }

  ghost function Owned(t: Tree, node: nat, gone: set<nat>, nl: nat, parent: nat, i: nat): Owner {
    (t.owner - gone)[node := NkOf(node)][nl := LfOf(parent, i)]
  }

  ghost predicate ListOf(o: Owner, b: nat, n: nat) { b in o && OwnedBy(o[b], n) && ListRole(o[b]) }

  /** Everything but the lists of the parent, for either shape. */
  ghost predicate RestKept(c: Cells, o: Owner, c': Cells, parent: nat, node: nat, name: seq<byte>, s: nat, gone: set<nat>, nl: nat) {
    parent in c && c[parent].Nk? && 0x1000 <= parent < 0x1_0000_0000 && s in c && c[s].Sk? && c[s].refcount < NONE
    && (forall b :: b in gone ==> ListOf(o, b, parent)) && s !in gone && parent !in gone
    && nl !in c && nl != node && c'.Keys == c.Keys - gone + {node, nl}
    && c'[node] == NodeRec(c[parent], parent, name) && c'[s] == c[s].(refcount := c[s].refcount + 1)
    && c'[parent].Nk?
    && c'[parent].(nrSubkeys := c[parent].nrSubkeys, subkeyLf := c[parent].subkeyLf, maxSubkey := c[parent].maxSubkey) == c[parent]
    && (forall b :: b in c && b != parent && b != s && b !in gone && !ListOf(o, b, parent) ==> c'[b] == c[b])
  }

  ghost predicate ListRolesOk(c: Cells, reg: Reg, o: Owner, parent: nat) {
    forall b :: ListOf(o, b, parent) ==> RoleOk(c, reg, b, o[b])
  }

  lemma AddedHolds(c: Cells, t: Tree, root: nat, c': Cells, t': Tree, parent: nat, node: nat, name: seq<byte>, s: nat,
                   gone: set<nat>, nl: nat, i: nat, k: nat)
    requires Ready(c, t, parent, node, s) && RestKept(c, t.owner, c', parent, node, name, s, gone, nl)
    requires k <= |t.reg[parent].children|
    requires t' == Tree(AddNode(t.reg, parent, node, name, k), Owned(t, node, gone, nl, parent, i), t.ring)
    requires KidsOk(c', t'.owner, parent, t'.reg[parent].children) && ListRolesOk(c', t'.reg, t'.owner, parent)
    requires TreeOk(c, t, root)
    ensures Added(c, t, c', t', parent, node, name, k)
  {
    hide NodesOk, RingOk, CountsOk, LinksOk, KidsOk, RoleOk, NodeRec, InsertAt;
    NkRole(c, t, parent);
  }

  /** A list role is right as soon as the parent's record leads to the block. */
  lemma LfRoleNow(c: Cells, reg: Reg, parent: nat, i: nat, b: nat)
    requires parent in reg && parent in c && c[parent].Nk? && c[parent].nrSubkeys > 0 && P(c[parent].subkeyLf) in c
    requires i < |Lfs(c, P(c[parent].subkeyLf))| && Lfs(c, P(c[parent].subkeyLf))[i] == b && b in c && c[b].Lf?
    ensures RoleOk(c, reg, b, LfOf(parent, i))
  {
  }

  /** A node without children owns no list. */
  lemma NoLists(c: Cells, t: Tree, n: nat)
    requires NodesOk(c, t) && RolesOk(c, t) && n in t.reg && t.reg[n].children == []
    ensures n in c && c[n].Nk? && c[n].nrSubkeys == 0 && forall b :: !ListOf(t.owner, b, n)
  {
    hide ValsOk;
    NodeIn(c, t, n);
    forall b | b in t.owner
      ensures !ListOf(t.owner, b, n)
    {
      assert RoleOk(c, t.reg, b, t.owner[b]);
    }
  }

  /** One list of one entry is the list of an only child. */
  lemma OnlyChild(c: Cells, o: Owner, reg: Reg, parent: nat, node: nat, name: seq<byte>, nl: nat)
    requires parent in c && c[parent].Nk? && c[parent].nrSubkeys == 1 && P(c[parent].subkeyLf) == nl && parent in reg
    requires 0x1000 <= node < Heap.MAX_IMAGE && Is(c, o, nl, LfOf(parent, 0)) && c[nl] == Lf(true, [KeyFor(true, name, node)])
    ensures KidsOk(c, o, parent, [node]) && RoleOk(c, reg, nl, LfOf(parent, 0))
  {
    hide LhHash, Pack;
    FlatOne(c, nl);
    assert KeyPs([KeyFor(true, name, node)]) == [node];
    LfRoleNow(c, reg, parent, 0, nl);
  }

  /** add_child on a node without children. */
  lemma AddedFirst(c: Cells, t: Tree, root: nat, c': Cells, t': Tree, parent: nat, node: nat, name: seq<byte>, s: nat,
                   nl: nat, max: u16)
    requires Ready(c, t, parent, node, s) && t.reg[parent].children == [] && nl !in c && nl != node && 0x1000 <= nl < Heap.MAX_IMAGE
    requires t' == Tree(AddNode(t.reg, parent, node, name, 0), Owned(t, node, {}, nl, parent, 0), t.ring)
    requires c[parent].nrSubkeys < NONE
    requires c' == WithChild(c, parent, node, name, s)
                   [nl := Lf(true, [KeyFor(true, name, node)])]
                   [parent := c[parent].(subkeyLf := nl - 0x1000, nrSubkeys := c[parent].nrSubkeys + 1, maxSubkey := max)]
    requires TreeOk(c, t, root)
    ensures Added(c, t, c', t', parent, node, name, 0)
  {
    hide NodesOk, RoleOk, RingOk, CountsOk, LinksOk, KidsOk, NodeRec, KeyFor, InsertAt;
    NoLists(c, t, parent);
    assert t'.reg[parent].children == [node] by { OneInserted(node); }
    OnlyChild(c', t'.owner, t'.reg, parent, node, name, nl);
    NkRole(c, t, parent);
    assert RestKept(c, t.owner, c', parent, node, name, s, {}, nl);
    forall b | ListOf(t'.owner, b, parent)
      ensures RoleOk(c', t'.reg, b, t'.owner[b])
    {
      assert !ListOf(t.owner, b, parent);
    }
    hide RestKept;
    AddedHolds(c, t, root, c', t', parent, node, name, s, {}, nl, 0, 0);
  }

  lemma OneInserted(x: nat)
    ensures InsertAt([], 0, x) == [x]
  {
  }

  /** The lists of a parent with children: all its own, all different, none of them another block of the tree. */
  lemma ListsFacts(c: Cells, t: Tree, n: nat)
    requires NodesOk(c, t) && RolesOk(c, t) && n in t.reg && t.reg[n].children != []
    ensures n in c && c[n].Nk? && c[n].nrSubkeys == |t.reg[n].children| && P(c[n].subkeyLf) in c
    ensures ListsOk(c, t.owner, n, P(c[n].subkeyLf), t.reg[n].children)
    ensures var ls := Lfs(c, P(c[n].subkeyLf)); ls != [] && Distinct(ls) && forall b :: b in ls ==> ListOf(t.owner, b, n)
    ensures ListOf(t.owner, P(c[n].subkeyLf), n)
  {
    hide ValsOk, RoleOk;
    NodeIn(c, t, n);
    var l := P(c[n].subkeyLf);
    var ls := Lfs(c, l);
    assert c[l].Lf? ==> ls[0] == l;
    forall i, j | 0 <= i < j < |ls|
      ensures ls[i] != ls[j]
    {
      assert Is(c, t.owner, ls[i], LfOf(n, i)) && Is(c, t.owner, ls[j], LfOf(n, j));
    }
  }

  /** The records and roles after the insertion, seen from the lists. */
  lemma InsertedLists(c: Cells, o: Owner, c': Cells, o': Owner, parent: nat, l: nat, kids: seq<nat>, i: nat, j: nat,
                      key: Key, nl: nat, l': nat)
    requires ListsOk(c, o, parent, l, kids) && Relisted(c, o, c', o', parent, l, l', i, j, key, nl)
    requires parent in c' && c'[parent].Nk? && P(c'[parent].subkeyLf) == l' && c'[parent].nrSubkeys == |kids| + 1
    ensures AllLf(c, Lfs(c, l)[..i]) && |Flat(c, Lfs(c, l)[..i])| + j <= |kids|
    ensures KidsOk(c', o', parent, InsertAt(kids, |Flat(c, Lfs(c, l)[..i])| + j, P(key.off)))
    ensures l' in c' && Lfs(c', l') == Lfs(c, l)[i := nl]
  {
    hide ListsOk, Relisted, Flat;
    RelistedKids(c, o, c', o', parent, l, l', i, j, key, nl, kids);
    assert AllLf(c, Lfs(c, l)) && i < |Lfs(c, l)| by { ListsAll(c, o, c', o', parent, l, l', kids, i, j, key, nl); }
    RelistedLfs(c, o, c', o', parent, l, l', i, j, key, nl, kids);
  }

  lemma ListsAll(c: Cells, o: Owner, c': Cells, o': Owner, parent: nat, l: nat, l': nat, kids: seq<nat>, i: nat, j: nat, key: Key, nl: nat)
    requires ListsOk(c, o, parent, l, kids) && Relisted(c, o, c', o', parent, l, l', i, j, key, nl)
    ensures l in c && AllLf(c, Lfs(c, l)) && i < |Lfs(c, l)|
  {
  }

  lemma InsertedRole(c: Cells, t: Tree, c': Cells, reg': Reg, o': Owner, parent: nat, i: nat, nl: nat, b: nat)
    requires parent in c && c[parent].Nk? && P(c[parent].subkeyLf) in c && i < |Lfs(c, P(c[parent].subkeyLf))|
    requires parent in reg' && parent in c' && c'[parent].Nk? && c'[parent].nrSubkeys > 0 && P(c'[parent].subkeyLf) in c'
    requires Lfs(c', P(c'[parent].subkeyLf)) == Lfs(c, P(c[parent].subkeyLf))[i := nl]
    requires c[P(c[parent].subkeyLf)].Ri? ==> P(c'[parent].subkeyLf) == P(c[parent].subkeyLf) && c'[P(c[parent].subkeyLf)].Ri?
    requires LfsOk(c', o', parent, Lfs(c', P(c'[parent].subkeyLf)))
    requires ListOf(o', b, parent) && ((b == nl && o'[b] == LfOf(parent, i))
                                       || (b in t.owner && o'[b] == t.owner[b] && b != Lfs(c, P(c[parent].subkeyLf))[i]
                                           && RoleOk(c, t.reg, b, t.owner[b])))
    ensures RoleOk(c', reg', b, o'[b])
  {
    if o'[b].LfOf? {
      var x := o'[b].i;
      assert Is(c', o', Lfs(c', P(c'[parent].subkeyLf))[x], LfOf(parent, x));
      LfRoleNow(c', reg', parent, x, b);
    }
  }

  /** What the insertion says about the lists, stated on the records before add_child. */
  ghost predicate InsertedAt(c: Cells, c': Cells, o: Owner, o': Owner, parent: nat, i: nat, j: nat, key: Key, nl: nat) {
    parent in c && c[parent].Nk? && parent in c' && c'[parent].Nk? && P(c[parent].subkeyLf) in c
    && Relisted(c, o, c', o', parent, P(c[parent].subkeyLf), P(c'[parent].subkeyLf), i, j, key, nl)
    && c[parent].nrSubkeys > 0 && c'[parent].nrSubkeys == c[parent].nrSubkeys + 1
  }

  lemma InsertedRoles(c: Cells, t: Tree, c': Cells, t': Tree, parent: nat, node: nat, i: nat, j: nat, key: Key, nl: nat)
    requires NodesOk(c, t) && RolesOk(c, t) && parent in t.reg && t.reg[parent].children != [] && parent in t'.reg && nl !in c && node !in c
    requires InsertedAt(c, c', t.owner, t'.owner, parent, i, j, key, nl)
    requires t'.owner == Owned(t, node, {Lfs(c, P(c[parent].subkeyLf))[i]}, nl, parent, i)
    ensures ListRolesOk(c', t'.reg, t'.owner, parent)
  {
    hide NodesOk, Relisted, Flat, ListsOk;
    ListsFacts(c, t, parent);
    var l, l' := P(c[parent].subkeyLf), P(c'[parent].subkeyLf);
    RelistedLfs(c, t.owner, c', t'.owner, parent, l, l', i, j, key, nl, t.reg[parent].children);
    if c[l].Ri? { RiStays(c, t.owner, c', t'.owner, parent, l, l', i, j, key, nl); }
    forall b | ListOf(t'.owner, b, parent)
      ensures RoleOk(c', t'.reg, b, t'.owner[b])
    {
      if b != nl { assert RoleOk(c, t.reg, b, t.owner[b]); }
      hide RoleOk, LfsOk, Lfs;
      InsertedRole(c, t, c', t'.reg, t'.owner, parent, i, nl, b);
    }
  }

  lemma RiStays(c: Cells, o: Owner, c': Cells, o': Owner, n: nat, l: nat, l': nat, i: nat, j: nat, key: Key, nl: nat)
    requires l in c && Relisted(c, o, c', o', n, l, l', i, j, key, nl) && c[l].Ri?
    ensures l' == l && l in c' && c'[l].Ri?
  {
  }

  /** Replacing list i of the parent by nl, step by step: c, with the child c1, relinked and counted c'. */
  ghost predicate Replaces(c: Cells, t: Tree, c1: Cells, c': Cells, o': Owner, parent: nat, node: nat, name: seq<byte>, s: nat,
                           nl: nat, i: nat, j: nat, max: u16)
    requires Ready(c, t, parent, node, s)
  {
    var l := P(c[parent].subkeyLf);
    l in c && c[parent].nrSubkeys > 0 && parent in t.owner && t.owner[parent] == NkOf(parent) && c.Keys == t.owner.Keys
    && ListOf(t.owner, l, parent) && (c[l].Ri? || c[l].Lf?) && (c[l].Ri? ==> t.owner[l] == RiOf(parent))
    && LfsOk(c, t.owner, parent, Lfs(c, l)) && i < |Lfs(c, l)|
    && c1 == WithChild(c, parent, node, name, s) && nl !in c1 && 0x1000 <= nl < Heap.MAX_IMAGE
    && (var old_offs := Lfs(c, l)[i];
        old_offs in c && j <= |c[old_offs].keys| && o' == Owned(t, node, {old_offs}, nl, parent, i)
        && parent in c1 && c1[parent] == c[parent] && l in c1 && c1[l] == c[l] && old_offs in c1 && c1[old_offs] == c[old_offs]
        && (var c2 := Relinked(c1, parent, node, name, i, j, nl);
            parent in c2 && c2[parent].Nk? && c2[parent].nrSubkeys < NONE && c' == Counted(c2, parent, max)))
  }

  lemma ReplacesLists(c: Cells, t: Tree, c1: Cells, c': Cells, o': Owner, parent: nat, node: nat, name: seq<byte>, s: nat,
                      nl: nat, i: nat, j: nat, max: u16)
    requires Ready(c, t, parent, node, s) && Replaces(c, t, c1, c', o', parent, node, name, s, nl, i, j, max)
    ensures InsertedAt(c, c', t.owner, o', parent, i, j, KeyFor(c[Lfs(c, P(c[parent].subkeyLf))[i]].lh, name, node), nl)
  {
    hide NodeRec, KeyFor, InsertAt;
    var ls := Lfs(c, P(c[parent].subkeyLf));
    forall x | 0 <= x < |ls|
      ensures Is(c, t.owner, ls[x], LfOf(parent, x))
    {
    }
  }

  lemma ReplacesRest(c: Cells, t: Tree, c1: Cells, c': Cells, o': Owner, parent: nat, node: nat, name: seq<byte>, s: nat,
                     nl: nat, i: nat, j: nat, max: u16)
    requires Ready(c, t, parent, node, s) && Replaces(c, t, c1, c', o', parent, node, name, s, nl, i, j, max)
    ensures RestKept(c, t.owner, c', parent, node, name, s, {Lfs(c, P(c[parent].subkeyLf))[i]}, nl)
  {
    hide NodeRec, KeyFor, InsertAt;
    assert Is(c, t.owner, Lfs(c, P(c[parent].subkeyLf))[i], LfOf(parent, i));
  }

  /** add_child on a node with children. */
  lemma AddedInsert(c: Cells, t: Tree, root: nat, c1: Cells, c': Cells, t': Tree, parent: nat, node: nat, name: seq<byte>, s: nat,
                    nl: nat, i: nat, j: nat, max: u16, k: nat, gone: nat, key: Key)
    requires Ready(c, t, parent, node, s) && Replaces(c, t, c1, c', t'.owner, parent, node, name, s, nl, i, j, max)
    requires gone == Lfs(c, P(c[parent].subkeyLf))[i] && key == KeyFor(c[gone].lh, name, node)
    requires AllLf(c, Lfs(c, P(c[parent].subkeyLf))[..i]) && k == |Flat(c, Lfs(c, P(c[parent].subkeyLf))[..i])| + j
    requires k <= |t.reg[parent].children| && t.reg[parent].children != []
    requires t'.reg == AddNode(t.reg, parent, node, name, k) && t'.ring == t.ring
    requires TreeOk(c, t, root)
    ensures Added(c, t, c', t', parent, node, name, k)
  {
    hide NodesOk, RoleOk, RolesOk, RingOk, CountsOk, LinksOk, KidsOk, NodeRec, InsertAt, RestKept, InsertedAt, Flat,
      ListsOk, Ready, Replaces, ListRolesOk, Added;
    ReplacesFacts(c, t, c1, c', t'.owner, parent, node, name, s, nl, i, j, max);
    ReplacesLists(c, t, c1, c', t'.owner, parent, node, name, s, nl, i, j, max);
    ReplacesRest(c, t, c1, c', t'.owner, parent, node, name, s, nl, i, j, max);
    InsertedKids(c, t, c', t', parent, node, name, i, j, key, nl, k);
    InsertedRoles(c, t, c', t', parent, node, i, j, key, nl);
    AddedHolds(c, t, root, c', t', parent, node, name, s, {gone}, nl, i, k);
  }

  lemma ReplacesFacts(c: Cells, t: Tree, c1: Cells, c': Cells, o': Owner, parent: nat, node: nat, name: seq<byte>, s: nat,
                      nl: nat, i: nat, j: nat, max: u16)
    requires Ready(c, t, parent, node, s) && Replaces(c, t, c1, c', o', parent, node, name, s, nl, i, j, max)
    ensures nl !in c && node !in c && node != parent && parent in t.reg && 0x1000 <= node < Heap.MAX_IMAGE && P(c[parent].subkeyLf) in c
            && i < |Lfs(c, P(c[parent].subkeyLf))|
    ensures o' == Owned(t, node, {Lfs(c, P(c[parent].subkeyLf))[i]}, nl, parent, i)
  {
  }

  lemma InsertedKids(c: Cells, t: Tree, c': Cells, t': Tree, parent: nat, node: nat, name: seq<byte>, i: nat, j: nat, key: Key,
                     nl: nat, k: nat)
    requires NodesOk(c, t) && RolesOk(c, t) && parent in t.reg && t.reg[parent].children != [] && k <= |t.reg[parent].children|
    requires InsertedAt(c, c', t.owner, t'.owner, parent, i, j, key, nl) && P(key.off) == node
    requires i <= |Lfs(c, P(c[parent].subkeyLf))| && AllLf(c, Lfs(c, P(c[parent].subkeyLf))[..i])
             && k == |Flat(c, Lfs(c, P(c[parent].subkeyLf))[..i])| + j
    requires t'.reg == AddNode(t.reg, parent, node, name, k) && node != parent
    ensures parent in c' && c'[parent].Nk? && KidsOk(c', t'.owner, parent, t'.reg[parent].children)
  {
    hide NodesOk, RoleOk, RolesOk, KidsOk, InsertAt, Flat, ListsOk, Relisted;
    ListsFacts(c, t, parent);
    InsertedLists(c, t.owner, c', t'.owner, parent, P(c[parent].subkeyLf), t.reg[parent].children, i, j, key, nl,
                  P(c'[parent].subkeyLf));
  }

  // ---------- the call itself

  /** The child's position: the first child whose name comes after, or the end. */
  function InsertPos(reg: Reg, kids: seq<nat>, name: seq<byte>): (k: nat)
    requires forall x :: x in kids ==> x in reg
    ensures k <= |kids|
  {
    if kids == [] || CaseCmp(name, reg[kids[0]].name) < 0 then 0 else 1 + InsertPos(reg, kids[1..], name)
  }

  lemma {:induction false} PosIs(c: Cells, t: Tree, kids: seq<nat>, name: seq<byte>, k: nat)
    requires NodesOk(c, t) && (forall x :: x in kids ==> x in t.reg) && AllNk(c, kids) && FirstAfter(c, kids, name, k)
    ensures InsertPos(t.reg, kids, name) == k
  {
    if kids != [] {
      var x := kids[0];
      assert x in kids && NodeOk(c, t.owner, x, t.reg[x]);
      if k > 0 {
        assert FirstAfter(c, kids[1..], name, k - 1);
        PosIs(c, t, kids[1..], name, k - 1);
      }
    }
  }

  /** The longest child name in bytes of UTF-16, as 16 bits hold it. */
  function Longest(max: u16, name: seq<byte>): u16 {
    if max < 2 * |name| then 2 * |name| % 0x1_0000 else max
  }

  /** The records of the child and of its parent, field by field. */
  ghost predicate ChildRecords(c: Cells, c': Cells, parent: nat, node: nat, name: seq<byte>) {
    parent in c && c[parent].Nk? && parent in c' && c'[parent].Nk? && node in c' && 0x1000 <= parent < 0x1_0000_0000
    && c'[node] == Nk(32, c[parent].timeLo, c[parent].timeHi, parent - 0x1000, 0, 0xffff_ffff, 0xffff_ffff, 0, 0xffff_ffff,
                      c[parent].sk, 0xffff_ffff, 0, 0, 0, name)
    && c'[parent].nrSubkeys == c[parent].nrSubkeys + 1
    && c'[parent].maxSubkey == (if c[parent].maxSubkey < 2 * |name| then 2 * |name| % 65536 else c[parent].maxSubkey)
    && exists l, i :: EntryAt(c', l, i, node, name)
  }

  /** Entry i of list l names the node and holds the hash of its name. */
  ghost predicate EntryAt(c: Cells, l: nat, i: nat, node: nat, name: seq<byte>) {
    l in c && c[l].Lf? && i < |c[l].keys| && P(c[l].keys[i].off) == node && HashIs(c[l].lh, name, c[l].keys[i].hash)
  }

  /** nr_subkeys and max_subkey_name_len of the parent. */
  method CountChild(h: Hive, parent: nat, name: seq<byte>) returns (ghost max: u16)
    requires h.HeapOk() && parent in h.cells && h.cells[parent].Nk? && h.cells[parent].nrSubkeys < NONE
    modifies h`addr, h`cells
    ensures h.HeapOk() && h.cells == Counted(old(h.cells), parent, max)
    ensures max == Longest(old(h.cells)[parent].maxSubkey, name)
    ensures old(h.Within()) && MayCount(h.license, parent) ==> h.Within()
  {
    hide Heap.Tiled, Heap.CellsOk, Hive.HeapOk, Hive.Within, MayPut;
    h.NkSet(parent, NrSubkeys, h.NkGet(parent, NrSubkeys) + 1);
    max := h.cells[parent].maxSubkey;
    if h.NkMaxSubkey(parent) < 2 * |name| {
      max := 2 * |name| % 0x1_0000;
      h.NkSetMaxSubkey(parent, 2 * |name| % 0x1_0000);
    }
  }

  /** What the tree says about the children of a live node, in terms of its records. */
  lemma LiveKids(h: Hive, n: nat)
    requires h.Valid() && n in h.t.reg
    ensures Lists(h, h.t.owner, n, h.t.reg[n].children)
    ensures forall x :: x in h.t.reg[n].children ==> x in h.t.reg && x in h.cells && h.cells[x].Nk? && h.cells[x].name == h.t.reg[x].name
  {
    hide Heap.Tiled, Heap.CellsOk, Hive.HeapOk, Hive.Within, RolesOk, RingOk, CountsOk, KidsOk, ValsOk;
    NodeIn(h.cells, h.t, n);
    assert KidsLinked(h.t.reg, n);
    forall x | x in h.t.reg[n].children
      ensures x in h.t.reg && x in h.cells && h.cells[x].Nk? && h.cells[x].name == h.t.reg[x].name
    {
      NodeIn(h.cells, h.t, x);
    }
  }

  /** Creating the child leaves the parent's lists and children readable as before. */
  lemma ChildUnlisted(c: Cells, t: Tree, root: nat, parent: nat, node: nat, name: seq<byte>, s: nat, c1: Cells)
    requires Ready(c, t, parent, node, s) && c1 == WithChild(c, parent, node, name, s) && TreeOk(c, t, root)
    ensures parent in c1 && c1[parent] == c[parent] && KidsOk(c1, t.owner, parent, t.reg[parent].children)
    ensures forall x :: x in t.reg[parent].children ==> x in c1 && x in c && c1[x] == c[x] && c[x].Nk?
    ensures forall b :: ListOf(t.owner, b, parent) ==> b in c && b in c1 && c1[b] == c[b]
  {
    hide RoleOk, RingOk, CountsOk, KidsOk, ValsOk, NodesOk, NodeRec, LinksOk;
    assert forall b :: b in c && b != s ==> b in c1 && c1[b] == c[b];
    hide WithChild;
    NodeIn(c, t, parent);
    KidsFrame(c, t.owner, c1, t.owner, parent, t.reg[parent].children);
    forall x | x in t.reg[parent].children
      ensures x in c1 && x in c && c1[x] == c[x] && c[x].Nk?
    {
      KidIn(t.reg, root, parent, x);
      NkRole(c, t, x);
    }
  }

  lemma KidIn(reg: Reg, root: nat, n: nat, x: nat)
    requires LinksOk(reg, root) && n in reg && x in reg[n].children
    ensures x in reg && reg[x].parent == n && reg[x].depth == reg[n].depth + 1
  {
    assert KidsLinked(reg, n);
  }

  /** First child of its parent. */
  method AttachFirst(h: Hive, parent: nat, name: seq<byte>, node: nat, ghost c: Cells, ghost t: Tree, ghost s: nat) returns (ok: bool)
    requires h.HeapOk() && Ready(c, t, parent, node, s) && h.cells == WithChild(c, parent, node, name, s) && h.t == t
    requires t.reg[parent].children == [] && TreeOk(c, t, h.rootoffs)
    modifies h`addr, h`bitmap, h`endpages, h`endblocks, h`cells, h`t
    ensures h.HeapOk()
    ensures h.writable && old(h.endpages) + 16 + OVERHEAD <= Heap.MAX_IMAGE ==> ok
    ensures ok ==> h.endpages <= old(h.endpages) + 16 + OVERHEAD
    ensures ok ==> h.Valid() && h.t.reg == AddNode(t.reg, parent, node, name, 0) && h.t.ring == t.ring
    ensures (ok && old(h.Within() && h.Roomy()) && MayCount(h.license, parent)) ==> h.Within()
    ensures ok ==> ChildRecords(c, h.cells, parent, node, name)
  {
    hide Heap.Tiled, Heap.CellsOk, Hive.HeapOk, Hive.Within, TreeOk, KeyFor, NodeRec, Added, AddNode, Owned, InsertAt,
      Hive.Roomy, MayCount, MayReplace, ChildRecords;
    assert c[parent].nrSubkeys == 0 by { NoSubkeys(c, t, h.rootoffs, parent); }
    var nl := LinkFirst(h, parent, name, node);
    if nl == 0 {
      return false;
    }
    ghost var max := CountChild(h, parent, name);
    ghost var t' := Tree(AddNode(t.reg, parent, node, name, 0), Owned(t, node, {}, nl, parent, 0), t.ring);
    FirstRecords(c, h.cells, parent, node, name, s, nl, max);
    AddedFirst(c, t, h.rootoffs, h.cells, t', parent, node, name, s, nl, max);
    AddedTree(c, t, h.cells, t', h.rootoffs, parent, node, name, 0);
    h.t := t';
    return true;
  }

  lemma FirstRecords(c: Cells, c': Cells, parent: nat, node: nat, name: seq<byte>, s: nat, nl: nat, max: u16)
    requires parent in c && c[parent].Nk? && 0x1000 <= parent < 0x1_0000_0000 && s in c && c[s].Sk? && c[s].refcount < NONE
    requires node !in c && nl !in WithChild(c, parent, node, name, s) && c[parent].nrSubkeys < NONE && 0x1000 <= nl < Heap.MAX_IMAGE
    requires 0x1000 <= node < Heap.MAX_IMAGE && max == Longest(c[parent].maxSubkey, name)
    requires var c1 := WithChild(c, parent, node, name, s);
             c' == Counted(c1[nl := Lf(true, [KeyFor(true, name, node)])][parent := c1[parent].(subkeyLf := nl - 0x1000)], parent, max)
    ensures ChildRecords(c, c', parent, node, name)
  {
    hide HashIs, LhHash, Values.Pack;
    Hashed(true, name);
    assert EntryAt(c', nl, 0, node, name);
  }

  lemma InsertRecords(c: Cells, c': Cells, parent: nat, node: nat, name: seq<byte>, s: nat, nl: nat, i: nat, j: nat, max: u16)
    requires parent in c && c[parent].Nk? && 0x1000 <= parent < 0x1_0000_0000 && s in c && c[s].Sk? && c[s].refcount < NONE
    requires node !in c && nl !in WithChild(c, parent, node, name, s) && c[parent].nrSubkeys < NONE && 0x1000 <= nl < Heap.MAX_IMAGE
    requires 0x1000 <= node < Heap.MAX_IMAGE && max == Longest(c[parent].maxSubkey, name)
    requires var c1 := WithChild(c, parent, node, name, s);
             P(c1[parent].subkeyLf) in c && c1[P(c1[parent].subkeyLf)] == c[P(c1[parent].subkeyLf)]
             && (c[P(c1[parent].subkeyLf)].Ri? || c[P(c1[parent].subkeyLf)].Lf?)
             && i < |Lfs(c1, P(c1[parent].subkeyLf))| && Lfs(c1, P(c1[parent].subkeyLf))[i] in c
             && c1[Lfs(c1, P(c1[parent].subkeyLf))[i]].Lf? && j <= |c1[Lfs(c1, P(c1[parent].subkeyLf))[i]].keys|
             && (var c2 := Relinked(c1, parent, node, name, i, j, nl);
                 parent in c2 && c2[parent].Nk? && c2[parent].nrSubkeys < NONE && c' == Counted(c2, parent, max))
    ensures ChildRecords(c, c', parent, node, name)
  {
    hide HashIs, LhHash, Values.Pack;
    Hashed(c'[nl].lh, name);
    assert EntryAt(c', nl, j, node, name);
  }

  /** The parent's lists are as the insertion needs them. */
  lemma ListedNow(c: Cells, t: Tree, root: nat, parent: nat, node: nat, name: seq<byte>, s: nat, c1: Cells, ls: seq<nat>)
    requires Ready(c, t, parent, node, s) && c1 == WithChild(c, parent, node, name, s) && t.reg[parent].children != []
    requires |t.reg[parent].children| <= MAX_SUBKEYS && P(c[parent].subkeyLf) in c && ls == Lfs(c, P(c[parent].subkeyLf))
    requires TreeOk(c, t, root)
    ensures Listed(c1, parent, node, ls) && Flat(c1, ls) == t.reg[parent].children && AllNk(c1, t.reg[parent].children)
    ensures AllLf(c, ls) && AllLf(c1, ls)
    ensures forall i :: 0 <= i <= |ls| ==> AllLf(c1, ls[..i]) && AllLf(c, ls[..i]) && Flat(c1, ls[..i]) == Flat(c, ls[..i])
    ensures c1[parent] == c[parent] && c1[P(c[parent].subkeyLf)] == c[P(c[parent].subkeyLf)]
    ensures (c[P(c[parent].subkeyLf)].Ri? || c[P(c[parent].subkeyLf)].Lf?) && c[parent].nrSubkeys < NONE
  {
    hide RoleOk, RingOk, CountsOk, KidsOk, NodesOk, LinksOk, Flat;
    ChildUnlisted(c, t, root, parent, node, name, s, c1);
    ListsFacts(c, t, parent);
    ChildThere(c, parent, node, name, s);
    hide RolesOk, WithChild;
    forall i | 0 <= i < |ls|
      ensures ls[i] in c && c[ls[i]].Lf? && ls[i] in c1 && c1[ls[i]] == c[ls[i]]
    {
      assert Is(c, t.owner, ls[i], LfOf(parent, i)) && ListOf(t.owner, ls[i], parent);
    }
    forall i | 0 <= i <= |ls|
      ensures AllLf(c1, ls[..i]) && AllLf(c, ls[..i]) && Flat(c1, ls[..i]) == Flat(c, ls[..i])
    {
      FlatKept(c, c1, ls[..i]);
    }
    assert ls[..|ls|] == ls;
    assert parent !in ls by { NkRole(c, t, parent); }
  }

  lemma ChildThere(c: Cells, parent: nat, node: nat, name: seq<byte>, s: nat)
    requires parent in c && c[parent].Nk? && 0x1000 <= parent < 0x1_0000_0000 && s in c && c[s].Sk? && c[s].refcount < NONE
    ensures node in WithChild(c, parent, node, name, s) && WithChild(c, parent, node, name, s)[node].Nk?
  {
  }

  /** One more child among others. */
  method AttachInsert(h: Hive, parent: nat, blocks: seq<nat>, name: seq<byte>, node: nat, ghost c: Cells, ghost t: Tree, ghost s: nat)
    returns (ok: bool)
    requires h.HeapOk() && Ready(c, t, parent, node, s) && h.cells == WithChild(c, parent, node, name, s) && h.t == t && h.writable
    requires t.reg[parent].children != [] && |t.reg[parent].children| <= MAX_SUBKEYS && TreeOk(c, t, h.rootoffs)
    requires parent in h.cells && h.cells[parent].Nk? && P(h.cells[parent].subkeyLf) in h.cells && blocks == ListBlocks(h.cells, parent)
    requires forall x :: x in t.reg[parent].children ==> x in t.reg
    modifies h`addr, h`bitmap, h`endpages, h`endblocks, h`cells, h`t
    ensures h.HeapOk()
    ensures old(h.endpages) + 16 + 8 * |t.reg[parent].children| + OVERHEAD <= Heap.MAX_IMAGE ==> ok
    ensures ok ==> h.endpages <= old(h.endpages) + 16 + 8 * |t.reg[parent].children| + OVERHEAD
    ensures ok ==> h.Valid() && h.t.ring == t.ring
                   && h.t.reg == AddNode(t.reg, parent, node, name, InsertPos(t.reg, t.reg[parent].children, name))
    ensures (ok && old(h.Within() && h.Roomy()) && MayCount(h.license, parent) && MayReplace(h.license, c, parent)) ==> h.Within()
    ensures ok ==> ChildRecords(c, h.cells, parent, node, name)
  {
    hide Heap.Tiled, Heap.CellsOk, Hive.HeapOk, Hive.Within, TreeOk, KeyFor, NodeRec, Listed, Replaces, FirstAfter,
      Flat, Added, InsertAt, Counted, Relinked, WithChild, InsertPos, AddNode, Owned, Hive.Roomy, MayCount,
      MayReplace, ChildRecords;
    ghost var c1, kids, nl, i, j := h.cells, t.reg[parent].children, 0, 0, 0;
    ghost var l := P(c[parent].subkeyLf);
    ParentLists(c, t, h.rootoffs, parent);
    ghost var ls := Lfs(c, l);
    ListedNow(c, t, h.rootoffs, parent, node, name, s, c1, ls);
    SameLists(h.license, c, c1, parent);
    ok, nl, i, j := LinkInsert(h, parent, blocks, name, node, ls);
    if !ok {
      return;
    }
    ghost var k := |Flat(c, ls[..i])| + j;
    assert k <= |kids| && InsertPos(t.reg, kids, name) == k by { PlaceOf(c, t, h.rootoffs, parent, node, name, s, c1, k); }
    RelinkedParent(c1, parent, node, name, i, j, nl);
    ghost var max := CountChild(h, parent, name);
    ghost var t' := Tree(AddNode(t.reg, parent, node, name, k), Owned(t, node, {ls[i]}, nl, parent, i), t.ring);
    InsertRecords(c, h.cells, parent, node, name, s, nl, i, j, max);
    ReplacesNow(c, t, h.rootoffs, c1, h.cells, t'.owner, parent, node, name, s, nl, i, j, max);
    AddedInsert(c, t, h.rootoffs, c1, h.cells, t', parent, node, name, s, nl, i, j, max, k, ls[i], KeyFor(c[ls[i]].lh, name, node));
    AddedTree(c, t, h.cells, t', h.rootoffs, parent, node, name, k);
    h.t := t';
  }

  lemma SameLists(L: Licence, c: Cells, c1: Cells, parent: nat)
    requires parent in c && c[parent].Nk? && P(c[parent].subkeyLf) in c && parent in c1 && c1[parent] == c[parent]
    requires P(c[parent].subkeyLf) in c1 && c1[P(c[parent].subkeyLf)] == c[P(c[parent].subkeyLf)]
    ensures MayReplace(L, c, parent) ==> MayReplace(L, c1, parent)
  {
    hide MayPut;
  }

  lemma RelinkedParent(c: Cells, parent: nat, node: nat, name: seq<byte>, i: nat, j: nat, nl: nat)
    requires parent in c && c[parent].Nk? && P(c[parent].subkeyLf) in c && 0x1000 <= nl < Heap.MAX_IMAGE && nl !in c
    requires var ls := Lfs(c, P(c[parent].subkeyLf));
             i < |ls| && ls[i] in c && c[ls[i]].Lf? && j <= |c[ls[i]].keys| && 0x1000 <= node < Heap.MAX_IMAGE
    requires c[P(c[parent].subkeyLf)].Ri? || c[P(c[parent].subkeyLf)].Lf?
    ensures var c' := Relinked(c, parent, node, name, i, j, nl);
            parent in c' && c'[parent].Nk? && c'[parent].nrSubkeys == c[parent].nrSubkeys && c'[parent].maxSubkey == c[parent].maxSubkey
  {
    hide InsertAt, KeyFor;
  }

  lemma NoSubkeys(c: Cells, t: Tree, root: nat, parent: nat)
    requires TreeOk(c, t, root) && parent in t.reg && t.reg[parent].children == []
    ensures parent in c && c[parent].Nk? && c[parent].nrSubkeys == 0
  {
    hide NodesOk, RolesOk, RingOk, CountsOk, LinksOk;
    NoLists(c, t, parent);
  }

  lemma ParentLists(c: Cells, t: Tree, root: nat, parent: nat)
    requires TreeOk(c, t, root) && parent in t.reg && t.reg[parent].children != []
    ensures parent in c && c[parent].Nk? && c[parent].nrSubkeys == |t.reg[parent].children| && P(c[parent].subkeyLf) in c
  {
    hide NodesOk, RolesOk, RingOk, CountsOk, LinksOk;
    ListsFacts(c, t, parent);
  }

  /** The place found on the records is the place in the tree. */
  lemma PlaceOf(c: Cells, t: Tree, root: nat, parent: nat, node: nat, name: seq<byte>, s: nat, c1: Cells, k: nat)
    requires Ready(c, t, parent, node, s) && c1 == WithChild(c, parent, node, name, s) && AllNk(c1, t.reg[parent].children)
    requires FirstAfter(c1, t.reg[parent].children, name, k) && TreeOk(c, t, root)
    ensures k <= |t.reg[parent].children| && forall x :: x in t.reg[parent].children ==> x in t.reg
    ensures InsertPos(t.reg, t.reg[parent].children, name) == k
  {
    hide RoleOk, RingOk, CountsOk, KidsOk, ValsOk, NodesOk, NodeRec, InsertPos, CaseCmp;
    ChildUnlisted(c, t, root, parent, node, name, s, c1);
    assert KidsLinked(t.reg, parent);
    assert FirstAfter(c, t.reg[parent].children, name, k);
    PosIs(c, t, t.reg[parent].children, name, k);
  }

  lemma ReplacesNow(c: Cells, t: Tree, root: nat, c1: Cells, c': Cells, o': Owner, parent: nat, node: nat, name: seq<byte>, s: nat,
                    nl: nat, i: nat, j: nat, max: u16)
    requires Ready(c, t, parent, node, s) && c1 == WithChild(c, parent, node, name, s) && nl !in c1 && 0x1000 <= nl < Heap.MAX_IMAGE
    requires P(c[parent].subkeyLf) in c && i < |Lfs(c, P(c[parent].subkeyLf))| && t.reg[parent].children != []
    requires o' == Owned(t, node, {Lfs(c, P(c[parent].subkeyLf))[i]}, nl, parent, i)
    requires parent in c1 && c1[parent] == c[parent] && P(c[parent].subkeyLf) in c1 && c1[P(c[parent].subkeyLf)] == c[P(c[parent].subkeyLf)]
    requires Lfs(c, P(c[parent].subkeyLf))[i] in c1 && c1[Lfs(c, P(c[parent].subkeyLf))[i]].Lf?
             && j <= |c1[Lfs(c, P(c[parent].subkeyLf))[i]].keys|
    requires parent in Relinked(c1, parent, node, name, i, j, nl) && Relinked(c1, parent, node, name, i, j, nl)[parent].Nk?
             && Relinked(c1, parent, node, name, i, j, nl)[parent].nrSubkeys < NONE
    requires c' == Counted(Relinked(c1, parent, node, name, i, j, nl), parent, max)
    requires TreeOk(c, t, root)
    ensures Replaces(c, t, c1, c', o', parent, node, name, s, nl, i, j, max)
  {
    hide RoleOk, RingOk, CountsOk, KidsOk, NodesOk, LinksOk, NodeRec, WithChild, Relinked, KeyFor, Flat;
    ListsFacts(c, t, parent);
    NkRole(c, t, parent);
    ChildUnlisted(c, t, root, parent, node, name, s, c1);
    assert Is(c, t.owner, Lfs(c, P(c[parent].subkeyLf))[i], LfOf(parent, i));
  }

  /** No child of n has this name, whatever the case. */
  ghost predicate NameFree(reg: Reg, n: nat, name: seq<byte>)
    requires n in reg
  {
    forall x :: x in reg[n].children && x in reg ==> CaseCmp(reg[x].name, name) != 0
  }

  /** The name is free exactly when no child bears it in any case. */
  lemma NameFreeMeans(reg: Reg, n: nat, name: seq<byte>)
    requires n in reg && 0 !in name
    ensures NameFree(reg, n, name) <==> forall x :: x in reg[n].children && x in reg ==> !Recased(CString(reg[x].name), name)
  {
    CStringIs(name);
    hide CaseCmp, Recased, CString;
    forall x | x in reg[n].children && x in reg
      ensures CaseCmp(reg[x].name, name) == 0 <==> Recased(CString(reg[x].name), name)
    {
      CmpZero(reg[x].name, name);
    }
  }

  lemma SkOfParent(h: Hive, parent: nat)
    requires h.Valid() && parent in h.t.reg
    ensures parent in h.cells && h.cells[parent].Nk? && h.t.reg[parent].sk == SkPtr(h.cells[parent].sk)
    ensures var s := h.t.reg[parent].sk;
            s != 0 ==> Is(h.cells, h.t.owner, s, SkOf) && h.cells[s].Sk? && h.cells[s].refcount < NONE && s != parent
  {
    hide Heap.Tiled, Heap.CellsOk, Hive.HeapOk, Hive.Within, RolesOk, RingOk, LinksOk, KidsOk, ValsOk, Users;
    NodeIn(h.cells, h.t, parent);
    if h.t.reg[parent].sk != 0 { CountRoom(h, h.t.reg[parent].sk); }
  }

  ghost predicate MayAdd(L: Licence, c: Cells, reg: Reg, parent: nat) {
    parent in reg && MayCount(L, parent) && MayReplace(L, c, parent)
    && (reg[parent].sk != 0 ==> MayPut(L, reg[parent].sk, reg[parent].sk + 16, 4))
  }

  /** The bytes add_child may write below the first new block: the count of the parent's security record; subkey count,
      list offset and longest name in the parent's nk record; lengths of the parent's lists; entries of its ri. */
  ghost predicate AddWrites(c: Cells, t: Tree, parent: nat, i: nat)
    requires parent in t.reg
  {
    (t.reg[parent].sk != 0 && t.reg[parent].sk + 16 <= i < t.reg[parent].sk + 20)
    || parent + 24 <= i < parent + 28 || parent + 32 <= i < parent + 36 || parent + 56 <= i < parent + 58
    || (exists l :: l in ListSet(t.owner, parent) && l in c && c[l].Lf? && l <= i < l + 4)
    || (exists l :: l in ListSet(t.owner, parent) && l in c && c[l].Ri? && l + 8 <= i < l + 8 + 4 * |c[l].offs|)
  }

  ghost predicate OnlyAdded(c: Cells, t: Tree, parent: nat, floor: nat, a: seq<byte>, a': seq<byte>)
    requires parent in t.reg
  {
    |a| <= |a'| && forall i :: 0 <= i < |a| && i < floor && a'[i] != a[i] ==> AddWrites(c, t, parent, i)
  }

  ghost function AddLicence(c: Cells, t: Tree, parent: nat, floor: nat): Licence
    requires parent in t.reg
  {
    Licence((iset i: nat | AddWrites(c, t, parent, i)), floor, {}, false)
  }

  lemma AddCovered(c: Cells, t: Tree, parent: nat, floor: nat)
    requires PartOk(c, t) && parent in t.reg
    ensures MayAdd(AddLicence(c, t, parent, floor), c, t.reg, parent)
  {
    hide NodesOk, RolesOk, RingOk, CountsOk, ListSet;
    var L := AddLicence(c, t, parent, floor);
    ParentRecord(c, t, parent);
    if c[parent].nrSubkeys > 0 {
      ListsOwned(c, t, parent);
    }
  }

  lemma ParentRecord(c: Cells, t: Tree, parent: nat)
    requires PartOk(c, t) && parent in t.reg
    ensures parent in c && c[parent].Nk? && (c[parent].nrSubkeys > 0 ==> t.reg[parent].children != [])
  {
    hide RolesOk, RingOk, CountsOk, ListsOk, ValsOk;
    NodeIn(c, t, parent);
  }

  /** The lists and the ri record of the parent are among its list blocks. */
  lemma ListsOwned(c: Cells, t: Tree, parent: nat)
    requires PartOk(c, t) && parent in t.reg && t.reg[parent].children != []
    ensures parent in c && c[parent].Nk? && P(c[parent].subkeyLf) in c
    ensures forall b :: b in Lfs(c, P(c[parent].subkeyLf)) ==> b in ListSet(t.owner, parent) && b in c && c[b].Lf?
    ensures c[P(c[parent].subkeyLf)].Ri? ==> P(c[parent].subkeyLf) in ListSet(t.owner, parent)
  {
    hide RolesOk, RingOk, CountsOk, ValsOk, Flat;
    NodeIn(c, t, parent);
  }

  lemma AddStart(h: Hive, c: Cells, t: Tree, parent: nat)
    requires parent in t.reg && h.base == h.addr && h.license == AddLicence(c, t, parent, Floor(h.endpages, h.endblocks))
    ensures h.Within() && h.Roomy()
  {
    hide AddWrites;
  }

  lemma AddDone(h: Hive, c: Cells, t: Tree, parent: nat, floor: nat)
    requires parent in t.reg && h.Within() && h.license == AddLicence(c, t, parent, floor)
    ensures OnlyAdded(c, t, parent, floor, h.base, h.addr)
  {
    hide AddWrites;
  }

  /** The most a new child adds to the image: its record and a list of its parent. */
  function Growth(name: seq<byte>): nat { (81 + |name| + OVERHEAD) + (16 + 8 * MAX_SUBKEYS + OVERHEAD) }

  /** How add_child ends where memory lasts: the parent needs a security record, and few enough children. */
  ghost predicate Created(g: Reg, parent: nat, r: Result<nat>)
    requires parent in g
  {
    if g[parent].sk == 0 then r == Err(EFAULT) else if |g[parent].children| > MAX_SUBKEYS then r == Err(ERANGE) else r.Ok?
  }

  /** Creates the child and links it, once its name is known to be free. */
  method CreateChild(h: Hive, parent: nat, name: seq<byte>) returns (r: Result<nat>)
    requires h.Valid() && parent in h.t.reg && |name| < 0x1_0000 && h.writable
    requires forall x :: x in h.t.reg[parent].children ==> x in h.t.reg
    modifies h`addr, h`bitmap, h`endpages, h`endblocks, h`cells, h`t
    ensures h.HeapOk()
    ensures (r.Ok? && old(h.Within() && h.Roomy()) && MayAdd(h.license, old(h.cells), old(h.t.reg), parent)) ==> h.Within()
    ensures r.Ok? ==> r.value != 0 && r.value !in old(h.t.reg) && |old(h.t.reg)[parent].children| <= MAX_SUBKEYS
    ensures r.Ok? ==> h.Valid() && h.t.ring == old(h.t.ring)
                      && h.t.reg == AddNode(old(h.t.reg), parent, r.value, name,
                                            InsertPos(old(h.t.reg), old(h.t.reg)[parent].children, name))
    ensures r.Err? && r.errno != ENOMEM && r.errno != ERANGE ==> r.errno == EFAULT && h.Valid() && h.t == old(h.t)
    ensures old(h.endpages) + Growth(name) <= Heap.MAX_IMAGE ==> Created(old(h.t.reg), parent, r)
    ensures r.Ok? ==> h.endpages <= old(h.endpages) + Growth(name)
    ensures r.Ok? ==> ChildRecords(old(h.cells), h.cells, parent, r.value, name)
  {
    hide Heap.Tiled, Heap.CellsOk, Hive.HeapOk, Hive.Within, TreeOk, NodeOk, KidsOk, InsertPos, Place, Round8,
      Hive.Roomy, MayCount, MayReplace, MayPut, ChildRecords;
    ghost var c, t, s := h.cells, h.t, h.t.reg[parent].sk;
    LiveKids(h, parent);
    SkOfParent(h, parent);
    h.CellValid(parent);
    PlaceBound(h.endpages, h.endblocks, 81 + |name|);
    var node := NewChildNk(h, parent, name);
    if node == 0 {
      return Err(ENOMEM);
    }
    var inherited := InheritSk(h, parent, node, s);
    if !inherited {
      h.Forget({node});
      assert h.cells == c;
      return Err(EFAULT);
    }
    FreshNode(c, t, h.rootoffs, node);
    assert h.cells == WithChild(c, parent, node, name, s);
    r := Attach(h, parent, name, node, c, t, s);
  }

  lemma FreshNode(c: Cells, t: Tree, root: nat, node: nat)
    requires TreeOk(c, t, root) && node !in c
    ensures node !in t.reg
  {
    hide RolesOk, RingOk, CountsOk, LinksOk, NodeOk;
    if node in t.reg { NkRole(c, t, node); }
  }

  /** The second half of add_child: read the lists of the parent and link the child. */
  method Attach(h: Hive, parent: nat, name: seq<byte>, node: nat, ghost c: Cells, ghost t: Tree, ghost s: nat) returns (r: Result<nat>)
    requires h.HeapOk() && Ready(c, t, parent, node, s) && h.cells == WithChild(c, parent, node, name, s) && h.t == t && h.writable
    requires TreeOk(c, t, h.rootoffs) && forall x :: x in t.reg[parent].children ==> x in t.reg
    modifies h`addr, h`bitmap, h`endpages, h`endblocks, h`cells, h`t
    ensures h.HeapOk()
    ensures r.Ok? ==> |t.reg[parent].children| <= MAX_SUBKEYS
    ensures r.Ok? ==> r.value == node && h.Valid() && h.t.ring == t.ring
                      && h.t.reg == AddNode(t.reg, parent, node, name, InsertPos(t.reg, t.reg[parent].children, name))
    ensures r.Err? ==> r.errno == if |t.reg[parent].children| > MAX_SUBKEYS then ERANGE else ENOMEM
    ensures (|t.reg[parent].children| <= MAX_SUBKEYS && old(h.endpages) + (16 + 8 * MAX_SUBKEYS + OVERHEAD) <= Heap.MAX_IMAGE) ==> r.Ok?
    ensures r.Ok? ==> h.endpages <= old(h.endpages) + (16 + 8 * MAX_SUBKEYS + OVERHEAD)
    ensures (r.Ok? && old(h.Within() && h.Roomy()) && MayCount(h.license, parent) && MayReplace(h.license, c, parent)) ==> h.Within()
    ensures r.Ok? ==> ChildRecords(c, h.cells, parent, node, name)
  {
    hide Heap.Tiled, Heap.CellsOk, Hive.HeapOk, Hive.Within, TreeOk, NodeOk, KidsOk, Place, Round8, WithChild,
      Hive.Roomy, MayCount, MayReplace, ChildrenGood, ChildrenOf, BlocksFound, ChildRecords;
    ghost var kids := t.reg[parent].children;
    ChildUnlisted(c, t, h.rootoffs, parent, node, name, s, h.cells);
    var got := GetChildren(h, parent, true, t.owner, kids);
    if got.Err? {
      return Err(ERANGE);
    }
    var blocks := got.value.1;
    var ok;
    if h.NkGet(parent, NrSubkeys) == 0 {
      assert kids == [] by { KidsCount(h.cells, t.owner, parent, kids); }
      // get_children reports no blocks here, so there is none to free
      ok := AttachFirst(h, parent, name, node, c, t, s);
    } else {
      assert kids != [] && |kids| <= MAX_SUBKEYS && P(h.cells[parent].subkeyLf) in h.cells by { KidsCount(h.cells, t.owner, parent, kids); }
      ok := AttachInsert(h, parent, blocks, name, node, c, t, s);
    }
    return if ok then Ok(node) else Err(ENOMEM);
  }

  lemma KidsCount(c: Cells, o: Owner, n: nat, kids: seq<nat>)
    requires n in c && c[n].Nk? && KidsOk(c, o, n, kids)
    ensures c[n].nrSubkeys == |kids| && (kids != [] ==> P(c[n].subkeyLf) in c)
  {
  }

  /** hivex_node_add_child: one new node, in its sorted place; every other node keeps everything. */
  method AddChild(h: Hive, parent: nat, name: seq<byte>) returns (r: Result<nat>)
    requires h.Valid() && Handle(h, parent) && IsName(name)
    modifies h`addr, h`bitmap, h`endpages, h`endblocks, h`cells, h`t, h`base, h`license
    ensures h.HeapOk()
    ensures !h.writable ==> r == Err(EROFS)
    ensures h.writable && (parent !in old(h.t.reg) || name == []) ==> r == Err(EINVAL)
    ensures (h.writable && parent in old(h.t.reg) && name != [] && |old(h.t.reg)[parent].children| <= MAX_SUBKEYS
             && !NameFree(old(h.t.reg), parent, name)) ==> r == Err(EEXIST)
    ensures (h.writable && parent in old(h.t.reg) && name != [] && |old(h.t.reg)[parent].children| <= MAX_SUBKEYS
             && exists x :: x in old(h.t.reg)[parent].children && x in old(h.t.reg) && Recased(CString(old(h.t.reg)[x].name), name))
            ==> r == Err(EEXIST)
    ensures r.Ok? && parent in old(h.t.reg) ==>
              forall x :: x in old(h.t.reg)[parent].children && x in old(h.t.reg) ==> !Recased(CString(old(h.t.reg)[x].name), name)
    ensures r.Err? && r.errno in {EROFS, EINVAL, EEXIST, EFAULT} ==> h.Valid() && h.t == old(h.t)
    ensures r.Ok? ==> parent in old(h.t.reg) && (forall x :: x in old(h.t.reg)[parent].children ==> x in old(h.t.reg))
                      && name != [] && NameFree(old(h.t.reg), parent, name) && r.value != 0 && r.value !in old(h.t.reg)
    ensures r.Ok? ==> h.Valid() && h.t.ring == old(h.t.ring)
                      && h.t.reg == AddNode(old(h.t.reg), parent, r.value, name,
                                            InsertPos(old(h.t.reg), old(h.t.reg)[parent].children, name))
    ensures r.Ok? ==> OnlyAdded(old(h.cells), old(h.t), parent, Floor(old(h.endpages), old(h.endblocks)), old(h.addr), h.addr)
    ensures (h.writable && parent in old(h.t.reg) && name != [] && |old(h.t.reg)[parent].children| <= MAX_SUBKEYS
             && NameFree(old(h.t.reg), parent, name) && old(h.endpages) + Growth(name) <= Heap.MAX_IMAGE) ==>
              Created(old(h.t.reg), parent, r)
    ensures (h.writable && parent in old(h.t.reg) && name != [] && |old(h.t.reg)[parent].children| > MAX_SUBKEYS
             && old(h.endpages) + Growth(name) <= Heap.MAX_IMAGE) ==> Created(old(h.t.reg), parent, r)
    ensures r.Ok? ==> h.endpages <= old(h.endpages) + Growth(name)
    ensures r.Ok? ==> ChildRecords(old(h.cells), h.cells, parent, r.value, name)
  {
    hide Heap.Tiled, Heap.CellsOk, Hive.HeapOk, Hive.Within, PartOk, LinksOk, NodeOk, KidsOk, InsertPos, CaseCmp,
      Hive.Roomy, AddLicence, OnlyAdded, MayAdd, Floor, Recased, CString, ChildRecords;
    if !h.writable {
      return Err(EROFS);
    }
    if parent in h.t.reg { LiveNode(h, parent); LiveKids(h, parent); NameFreeMeans(h.t.reg, parent, name); }
    if !h.BlockIs(parent, 'n', 'k') {
      return Err(EINVAL);
    }
    if |name| == 0 {
      return Err(EINVAL);
    }
    var existing := GetChild(h, parent, name, h.t.owner, h.t.reg[parent].children);
    if existing != 0 {
      return Err(EEXIST);
    }
    ghost var c, t, floor := h.cells, h.t, Floor(h.endpages, h.endblocks);
    h.base, h.license := h.addr, AddLicence(c, t, parent, floor);
    AddCovered(c, t, parent, floor);
    AddStart(h, c, t, parent);
    r := CreateChild(h, parent, name);
    if r.Ok? { AddDone(h, c, t, parent, floor); }
  }
}
