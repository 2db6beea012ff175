/** delete_node: everything a node owns is freed, and nothing else. */
module Deleting {
  import opened Records
  import opened Registry
  import opened Heap
  import opened Hives
  import opened Readers
  import opened Values
  import opened Security

  ghost function OwnedSet(o: Owner, n: nat): set<nat> {
    set b | b in o && OwnedBy(o[b], n)
  }

  /** A security record that has lost its last user. */
  ghost predicate Orphaned(reg: Reg, reg': Reg, s: nat) {
    Users(reg, s) != {} && Users(reg', s) == {}
  }

  /** From (c, t) to (c', t') exactly the nodes in S have gone, with the blocks they own and the security records they
      were the last to use; every other block has its role, and its record unless it is a security record. */
  ghost predicate Gone(c: Cells, t: Tree, S: set<nat>, c': Cells, t': Tree) {
    t'.reg == t.reg - S
    && (forall b :: b in t'.owner ==> b in t.owner && t'.owner[b] == t.owner[b] && b in c && b in c'
                                      && (!t.owner[b].SkOf? ==> c'[b] == c[b]))
    && (forall b :: b in t.owner && b !in t'.owner ==>
          if t.owner[b].SkOf? then Orphaned(t.reg, t'.reg, b) else t.owner[b].n in S)
    && (forall b :: b in t'.owner ==>
          if t.owner[b].SkOf? then !Orphaned(t.reg, t'.reg, b) else t.owner[b].n !in S)
  }

  lemma UsersShrink(reg: Reg, S: set<nat>, s: nat)
    ensures Users(reg - S, s) == Users(reg, s) - S
  {
  }

  lemma GoneTrans(c: Cells, t: Tree, S1: set<nat>, c1: Cells, t1: Tree, S2: set<nat>, c2: Cells, t2: Tree)
    requires Gone(c, t, S1, c1, t1) && Gone(c1, t1, S2, c2, t2)
    ensures Gone(c, t, S1 + S2, c2, t2)
  {
    hide Users;
    assert t2.reg == t.reg - (S1 + S2);
    forall b | b in t.owner
      ensures Users(t1.reg, b) == Users(t.reg, b) - S1 && Users(t2.reg, b) == Users(t1.reg, b) - S2
    {
      UsersShrink(t.reg, S1, b);
      UsersShrink(t1.reg, S2, b);
    }
  }

  // ---------- the steps of delete_node

  lemma ListSetIs(c: Cells, t: Tree, n: nat, blocks: seq<nat>)
    requires PartOk(c, t) && n in t.reg && n in c && c[n].Nk? && (c[n].nrSubkeys > 0 ==> P(c[n].subkeyLf) in c)
    requires blocks == ListBlocks(c, n)
    ensures forall b :: b in blocks <==> b in ListSet(t.owner, n)
    ensures Distinct(blocks) && forall b :: b in blocks ==> b in c
  {
    hide RingOk, CountsOk, ValsOk, Flat;
    NodeIn(c, t, n);
    var l := P(c[n].subkeyLf);
    if t.reg[n].children != [] {
      var ls := Lfs(c, l);
      assert c[l].Lf? ==> ls[0] == l;
      forall i | 0 <= i < |ls|
        ensures Is(c, t.owner, ls[i], LfOf(n, i))
      {
      }
    }
    forall b | b in ListSet(t.owner, n)
      ensures b in blocks
    {
      assert RoleOk(c, t.reg, b, t.owner[b]);
    }
  }

  ghost function Elements(s: seq<nat>): set<nat> { set b | b in s }

  /** Marks a list of distinct blocks unused. */
  method FreeBlocks(h: Hive, blocks: seq<nat>)
    requires h.HeapOk() && h.writable && Distinct(blocks) && forall b :: b in blocks ==> b in h.cells
    modifies h`addr, h`bitmap, h`cells
    ensures h.HeapOk() && h.cells == old(h.cells) - Elements(blocks)
    ensures FreedOnly(old(h.bitmap), old(h.cells), h.bitmap, h.cells)
    ensures old(h.Within()) && MayFree(h.license, Elements(blocks)) ==> h.Within()
  {
    hide Heap.Tiled, Heap.CellsOk, Hive.HeapOk, Bitmap.Marks, Hive.Within;
    for i := 0 to |blocks|
      invariant FreedOnly(old(h.bitmap), old(h.cells), h.bitmap, h.cells)
      invariant h.HeapOk() && h.cells == old(h.cells) - Elements(blocks[..i])
      invariant old(h.Within()) && MayFree(h.license, Elements(blocks)) ==> h.Within()
    {
      assert blocks[i] in blocks && blocks[i] !in blocks[..i];
      h.MarkBlockUnused(blocks[i]);
      assert blocks[..i + 1] == blocks[..i] + [blocks[i]];
    }
    assert blocks[..|blocks|] == blocks;
  }

  /** Freeing the lists leaves the values as they were. */
  lemma ListsFreed(c: Cells, t: Tree, n: nat, c1: Cells)
    requires PartOk(c, t) && n in t.reg && c1 == c - ListSet(t.owner, n)
    ensures Is(c1, t.owner, n, NkOf(n)) && n in c && c[n].Nk? && c1[n] == c[n] && ValsOk(c1, t.owner, n, t.reg[n].values)
    ensures ValueRolesOk(c1, t.owner, t.reg, n)
  {
    hide RingOk, CountsOk, KidsOk, ValsOk, RoleOk, NodesOk;
    NodeIn(c, t, n);
    ValsFrame(c, t.owner, c1, t.owner, n, t.reg[n].values);
    forall b | b in t.owner && OwnedBy(t.owner[b], n) && ValueRole(t.owner[b])
      ensures RoleOk(c1, t.reg, b, t.owner[b])
    {
      assert RoleOk(c, t.reg, b, t.owner[b]);
      ValueRoleFrame(c, t.owner, t.reg, c1, t.owner, t.reg, b);
    }
  }

  /** What happens to the security record s of a deleted node. */
  ghost predicate SkDropped(c2: Cells, ring: seq<nat>, s: nat, x: nat, c3: Cells) {
    if s == 0 then c3 == c2
    else s in c2 && c2[s].Sk? && c2[s].refcount > 0 && x < |ring| && ring[x] == s &&
         if c2[s].refcount > 1 then c3 == c2[s := c2[s].(refcount := c2[s].refcount - 1)] else Unlinked(c2, ring, x, c3)
  }

  ghost function ClassSet(c: Cells, n: nat): set<nat>
    requires n in c && c[n].Nk?
  {
    if c[n].classname == NONE then {} else {P(c[n].classname)}
  }

  /** The records before (c), after lists and values are freed (c2), after delete_sk (c3), and at the end (c'). */
  ghost predicate Emptied(c: Cells, t: Tree, n: nat, x: nat, c2: Cells, c3: Cells, c': Cells) {
    n in t.reg && n in c && c[n].Nk? && Is(c, t.owner, n, NkOf(n)) && n in c - ListSet(t.owner, n)
    && c2 == WithoutValues(c - ListSet(t.owner, n), t.owner, n)
    && SkDropped(c2, t.ring, t.reg[n].sk, x, c3)
    && c'.Keys == c3.Keys - {n} - ClassSet(c, n) && forall b :: b in c' ==> c'[b] == c3[b]
  }

  /** The reference to the security record, if there is one. */
  method DropSk(h: Hive, n: nat, ghost t: Tree, ghost x: nat) returns (ok: bool, ghost c3: Cells)
    requires h.HeapOk() && h.writable && n in h.cells && h.cells[n].Nk? && RingOk(h.cells, t) && n !in t.ring
    requires SkPtr(h.cells[n].sk) != 0 ==> SkReady(h.cells, t.ring, SkPtr(h.cells[n].sk), x)
    modifies h`addr, h`bitmap, h`cells
    ensures h.HeapOk() && ok && SkDropped(old(h.cells), t.ring, SkPtr(old(h.cells)[n].sk), x, c3)
    ensures n in c3 && c3[n] == old(h.cells)[n] && h.cells == c3[n := c3[n].(sk := NONE)]
    ensures FreedOnly(old(h.bitmap), old(h.cells), h.bitmap, h.cells)
    ensures (old(h.Within()) && MayPut(h.license, n, n + 48, 4)
             && (SkPtr(old(h.cells)[n].sk) != 0 ==> MayDrop(h.license, old(h.cells), SkPtr(old(h.cells)[n].sk)))) ==> h.Within()
  {
    hide Heap.Tiled, Heap.CellsOk, Hive.HeapOk, RingOk, Unlinked, FreedOnly, Hive.Within;
    ghost var c2, b2 := h.cells, h.bitmap;
    FreedNone(b2, c2, c2);
    var sk := h.NkGet(n, SkOffs);
    c3 := c2;
    if sk != NONE {
      var r := DeleteSk(h, P(sk), t, x);
      match r
      case Err(_) => return false, c3;
      case Ok(_) =>
      c3 := h.cells;
      StillThere(c2, t.ring, P(sk), x, c3, n);
      ghost var b3 := h.bitmap;
      h.NkSet(n, SkOffs, NONE);
      FreedNone(b3, c3, h.cells);
      FreedTrans(b2, c2, b3, c3, h.bitmap, h.cells);
    } else {
      assert c3[n].(sk := NONE) == c3[n];
    }
    return true, c3;
  }

  ghost predicate SkReady(c: Cells, ring: seq<nat>, s: nat, x: nat) {
    x < |ring| && ring[x] == s && s in c && c[s].Sk? && c[s].refcount > 0
  }

  /** The part of delete_node after the values are gone: security record, class name, and the nk record itself. */
  method FreeRest(h: Hive, n: nat, ghost t: Tree, ghost x: nat) returns (ok: bool, ghost c3: Cells)
    requires h.HeapOk() && h.writable && n in h.cells && h.cells[n].Nk? && RingOk(h.cells, t) && n !in t.ring
    requires SkPtr(h.cells[n].sk) != 0 ==> SkReady(h.cells, t.ring, SkPtr(h.cells[n].sk), x)
    requires h.cells[n].classname != NONE ==>
               P(h.cells[n].classname) in h.cells && P(h.cells[n].classname) != n && P(h.cells[n].classname) !in t.ring
    modifies h`addr, h`bitmap, h`cells
    ensures h.HeapOk() && ok && SkDropped(old(h.cells), t.ring, SkPtr(old(h.cells)[n].sk), x, c3)
    ensures h.cells.Keys == c3.Keys - {n} - ClassSet(old(h.cells), n) && forall b :: b in h.cells ==> b in c3 && h.cells[b] == c3[b]
    ensures FreedOnly(old(h.bitmap), old(h.cells), h.bitmap, h.cells)
    ensures (old(h.Within()) && MayPut(h.license, n, n + 48, 8) && MayFree(h.license, ClassSet(old(h.cells), n) + {n})
             && (SkPtr(old(h.cells)[n].sk) != 0 ==> MayDrop(h.license, old(h.cells), SkPtr(old(h.cells)[n].sk)))) ==> h.Within()
  {
    hide Heap.Tiled, Heap.CellsOk, Hive.HeapOk, RingOk, SkDropped, SkReady, FreedOnly, Hive.Within;
    ghost var c2, b2 := h.cells, h.bitmap;
    ok, c3 := DropSk(h, n, t, x);
    if c2[n].classname != NONE { StillThere(c2, t.ring, SkPtr(c2[n].sk), x, c3, P(c2[n].classname)); }
    ghost var c4, b4 := h.cells, h.bitmap;
    FreeClassAndNk(h, n);
    FreedTrans(b2, c2, b4, c4, h.bitmap, h.cells);
  }

  method FreeClassAndNk(h: Hive, n: nat)
    requires h.HeapOk() && h.writable && n in h.cells && h.cells[n].Nk?
    requires h.cells[n].classname != NONE ==> P(h.cells[n].classname) in h.cells && P(h.cells[n].classname) != n
    modifies h`addr, h`bitmap, h`cells
    ensures h.HeapOk() && h.cells == old(h.cells) - {n} - ClassSet(old(h.cells), n)
    ensures FreedOnly(old(h.bitmap), old(h.cells), h.bitmap, h.cells)
    ensures (old(h.Within()) && MayPut(h.license, n, n + 52, 4) && MayFree(h.license, ClassSet(old(h.cells), n) + {n})) ==> h.Within()
  {
    hide Heap.Tiled, Heap.CellsOk, Hive.HeapOk, FreedOnly, Hive.Within;
    ghost var c0, b0 := h.cells, h.bitmap;
    FreedNone(b0, c0, c0);
    var cl := h.NkGet(n, Classname);
    if cl != NONE {
      h.MarkBlockUnused(P(cl));
      ghost var c1, b1 := h.cells, h.bitmap;
      h.NkSet(n, Classname, NONE);
      FreedNone(b1, c1, h.cells);
      FreedTrans(b0, c0, b1, c1, h.bitmap, h.cells);
    }
    ghost var c2, b2 := h.cells, h.bitmap;
    h.MarkBlockUnused(n);
    FreedTrans(b0, c0, b2, c2, h.bitmap, h.cells);
  }

  lemma StillThere(c2: Cells, ring: seq<nat>, s: nat, x: nat, c3: Cells, b: nat)
    requires b in c2 && b !in ring && (c3 == c2 || SkDropped(c2, ring, s, x, c3))
    ensures b in c3 && c3[b] == c2[b]
  {
  }

  // ---------- the tree without the node

  ghost predicate LastUser(t: Tree, n: nat)
    requires n in t.reg
  {
    t.reg[n].sk != 0 && Users(t.reg, t.reg[n].sk) == {n}
  }

  ghost function AfterNode(t: Tree, n: nat, x: nat): Tree
    requires n in t.reg && (LastUser(t, n) ==> x < |t.ring|)
  {
    Tree(t.reg - {n}, t.owner - OwnedSet(t.owner, n) - (if LastUser(t, n) then {t.reg[n].sk} else {}),
         if LastUser(t, n) then RemoveAt(t.ring, x) else t.ring)
  }

  lemma SkBlock(c: Cells, t: Tree, b: nat)
    requires RolesOk(c, t) && RingOk(c, t)
    ensures b in t.ring <==> b in t.owner && t.owner[b].SkOf?
  {
    hide RoleOk, Distinct;
    if b in t.ring {
      var i :| 0 <= i < |t.ring| && t.ring[i] == b;
      assert LinkedAt(c, t.owner, t.ring, i);
    }
  }

  lemma UserCount(c: Cells, t: Tree, n: nat)
    requires CountsOk(c, t) && n in t.reg && t.reg[n].sk != 0
    ensures var s := t.reg[n].sk; s in c && c[s].Sk? && c[s].refcount > 0 && (c[s].refcount == 1 <==> LastUser(t, n))
    ensures t.reg[n].sk in t.owner && t.owner[t.reg[n].sk].SkOf?
  {
    var s := t.reg[n].sk;
    assert n in Users(t.reg, s);
    assert Users(t.reg, s) == {n} + (Users(t.reg, s) - {n});
  }

  /** A block the node does not own stays as it is, unless it is a security record. */
  lemma KeptBlock(c: Cells, t: Tree, n: nat, x: nat, c2: Cells, c3: Cells, c': Cells, b: nat)
    requires PartOk(c, t) && Emptied(c, t, n, x, c2, c3, c') && b in t.owner && !t.owner[b].SkOf? && t.owner[b].n != n
    ensures b in c && b in c' && c'[b] == c[b]
  {
    hide RoleOk, RingOk, CountsOk, NodesOk, SkDropped, KidsOk, ValsOk;
    NodeIn(c, t, n);
    SkBlock(c, t, b);
    assert b in c2 && c2[b] == c[b];
    assert b != n && b !in ClassSet(c, n);
    hide WithoutValues;
    StillThere(c2, t.ring, t.reg[n].sk, x, c3, b);
  }

  /** What the node owns is its lists, its values, its class name and its nk record. */
  lemma OwnedParts(c: Cells, t: Tree, n: nat)
    requires PartOk(c, t) && n in t.reg
    ensures n in c && c[n].Nk? && OwnedSet(t.owner, n) == ListSet(t.owner, n) + ValueBlocks(t.owner, n) + ClassSet(c, n) + {n}
  {
    hide RingOk, CountsOk, NodesOk, KidsOk, ValsOk;
    NodeIn(c, t, n);
    forall b | b in OwnedSet(t.owner, n)
      ensures b in ListSet(t.owner, n) || b in ValueBlocks(t.owner, n) || b in ClassSet(c, n) || b == n
    {
      assert RoleOk(c, t.reg, b, t.owner[b]);
    }
  }

  lemma KeysAfter(c: Cells, t: Tree, n: nat, x: nat, c2: Cells, c3: Cells, c': Cells)
    requires PartOk(c, t) && Emptied(c, t, n, x, c2, c3, c')
    ensures LastUser(t, n) ==> x < |t.ring| && t.ring[x] == t.reg[n].sk
    ensures c'.Keys == AfterNode(t, n, x).owner.Keys
  {
    hide RoleOk, RingOk, CountsOk, NodesOk, KidsOk, ValsOk, Users, LastUser;
    OwnedParts(c, t, n);
    SkOfNode(c, t, n, x, c2, c3);
    hide OwnedSet, ListSet, ValueBlocks;
    assert c.Keys == t.owner.Keys;
    assert c2.Keys == c.Keys - ListSet(t.owner, n) - ValueBlocks(t.owner, n);
    assert c3.Keys == c2.Keys - (if LastUser(t, n) then {t.reg[n].sk} else {});
  }

  lemma SkOfNode(c: Cells, t: Tree, n: nat, x: nat, c2: Cells, c3: Cells)
    requires PartOk(c, t) && n in t.reg && n in c && c[n].Nk? && n in c - ListSet(t.owner, n)
    requires c2 == WithoutValues(c - ListSet(t.owner, n), t.owner, n) && SkDropped(c2, t.ring, t.reg[n].sk, x, c3)
    ensures LastUser(t, n) ==> x < |t.ring| && t.ring[x] == t.reg[n].sk
    ensures c3.Keys == c2.Keys - (if LastUser(t, n) then {t.reg[n].sk} else {})
    ensures n in c2 && c2.Keys == c.Keys - ListSet(t.owner, n) - ValueBlocks(t.owner, n)
    ensures t.reg[n].sk != 0 ==> t.reg[n].sk in c && t.reg[n].sk in c2 && c2[t.reg[n].sk] == c[t.reg[n].sk]
  {
    hide RoleOk, RingOk, NodesOk, KidsOk, ValsOk;
    NodeIn(c, t, n);
    var s := t.reg[n].sk;
    if s != 0 {
      UserCount(c, t, n);
      hide CountsOk, LastUser, Users;
      assert s in c2 && c2[s] == c[s];
    }
    assert n !in ValueBlocks(t.owner, n);
  }

  lemma NodesAfter(c: Cells, t: Tree, n: nat, x: nat, c2: Cells, c3: Cells, c': Cells, t': Tree)
    requires PartOk(c, t) && n in t.reg && Emptied(c, t, n, x, c2, c3, c')
    requires (LastUser(t, n) ==> x < |t.ring|) && t' == AfterNode(t, n, x)
    ensures LocalTo(c, t, c', t'.(reg := t.reg), n) && NodesOk(c', t')
  {
    hide RoleOk, RingOk, CountsOk, NodeOk, Emptied, Users, LastUser;
    forall b | b in t.owner && !t.owner[b].SkOf? && t.owner[b].n != n
      ensures Kept(c, t.owner, c', t'.owner, b)
    {
      KeptBlock(c, t, n, x, c2, c3, c', b);
      NotSk(c, t, n, b);
    }
    LocalNodes(c, t, c', t'.(reg := t.reg), n);
  }

  lemma NotSk(c: Cells, t: Tree, n: nat, b: nat)
    requires CountsOk(c, t) && n in t.reg && b in t.owner && !t.owner[b].SkOf?
    ensures LastUser(t, n) ==> b != t.reg[n].sk
  {
  }

  lemma RolesAfter(c: Cells, t: Tree, n: nat, x: nat, c2: Cells, c3: Cells, c': Cells, t': Tree)
    requires PartOk(c, t) && n in t.reg && Emptied(c, t, n, x, c2, c3, c')
    requires (LastUser(t, n) ==> x < |t.ring|) && t' == AfterNode(t, n, x)
    requires LocalTo(c, t, c', t'.(reg := t.reg), n) && c'.Keys == t'.owner.Keys
    requires forall s :: s in t'.owner && t'.owner[s].SkOf? ==> c'[s].Sk?
    ensures RolesOk(c', t')
  {
    hide RoleOk, RingOk, CountsOk, NodesOk, Emptied, Users, LastUser, LocalTo;
    LocalRoles(c, t, c', t'.(reg := t.reg), n);
    forall b | b in t'.owner
      ensures RoleOk(c', t'.reg, b, t'.owner[b])
    {
      if t'.owner[b].SkOf? {
        SkRole(c, t, b);
        PlainRole(c, t.reg, c', t'.reg, b, SkOf);
      } else {
        RoleOtherNode(c', t.reg, n, b, t'.owner[b]);
      }
    }
  }

  lemma RoleOtherNode(c: Cells, reg: Reg, n: nat, b: nat, r: Role)
    requires RoleOk(c, reg, b, r) && !r.SkOf? && r.n != n
    ensures RoleOk(c, reg - {n}, b, r)
  {
  }

  /** The security records after the node has gone. */
  lemma SksAfter(c: Cells, t: Tree, n: nat, x: nat, c2: Cells, c3: Cells, c': Cells, b: nat)
    requires PartOk(c, t) && Emptied(c, t, n, x, c2, c3, c') && b in t.owner && t.owner[b].SkOf?
    requires !(LastUser(t, n) && b == t.reg[n].sk)
    ensures b in c && c[b].Sk? && b in c2 && c2[b] == c[b] && b in c3 && b in c' && c'[b] == c3[b] && c3[b].Sk?
    ensures c3[b].refcount == c[b].refcount - if t.reg[n].sk == b then 1 else 0
    ensures !LastUser(t, n) ==> c3[b].next == c[b].next && c3[b].prev == c[b].prev
  {
    hide RoleOk, NodesOk, KidsOk, ValsOk, Users, CountsOk;
    SkRole(c, t, b);
    NodeIn(c, t, n);
    SkBlock(c, t, b);
    assert b in c2 && c2[b] == c[b];
    assert b != n && b !in ClassSet(c, n) && b != 0 by { ZeroNoSk(c, t, b); }
    if t.reg[n].sk != 0 { UserCount(c, t, n); }
    hide LastUser, RingOk, WithoutValues, RolesOk;
    var i :| 0 <= i < |t.ring| && t.ring[i] == b;
  }

  lemma ZeroNoSk(c: Cells, t: Tree, b: nat)
    requires RingOk(c, t) && b in t.owner && t.owner[b].SkOf?
    ensures b != 0
  {
    hide Distinct;
    var i :| 0 <= i < |t.ring| && t.ring[i] == b;
    assert LinkedAt(c, t.owner, t.ring, Pred(i, |t.ring|));
  }

  lemma CountsAfter(c: Cells, t: Tree, n: nat, x: nat, c2: Cells, c3: Cells, c': Cells, t': Tree)
    requires PartOk(c, t) && n in t.reg && Emptied(c, t, n, x, c2, c3, c')
    requires (LastUser(t, n) ==> x < |t.ring|) && t' == AfterNode(t, n, x)
    ensures CountsOk(c', t') && forall s :: s in t'.owner && t'.owner[s].SkOf? ==> c'[s].Sk?
  {
    hide RoleOk, RingOk, NodesOk, RolesOk, Emptied, Users;
    forall s | s in t'.owner && t'.owner[s].SkOf?
      ensures s in c' && c'[s].Sk? && c'[s].refcount == |Users(t'.reg, s)|
    {
      SksAfter(c, t, n, x, c2, c3, c', s);
      OneUserLess(t.reg, n, s);
    }
    forall m | m in t'.reg && t'.reg[m].sk != 0
      ensures t'.reg[m].sk in t'.owner && t'.owner[t'.reg[m].sk].SkOf?
    {
      StillUsed(t.reg, n, m);
    }
  }

  lemma OneUserLess(reg: Reg, n: nat, s: nat)
    requires n in reg
    ensures |Users(reg - {n}, s)| == |Users(reg, s)| - if reg[n].sk == s then 1 else 0
  {
    UsersShrink(reg, {n}, s);
    if reg[n].sk == s { assert n in Users(reg, s); } else { assert Users(reg, s) - {n} == Users(reg, s); }
  }

  lemma StillUsed(reg: Reg, n: nat, m: nat)
    requires n in reg && m in reg && m != n
    ensures reg[m].sk == reg[n].sk ==> Users(reg, reg[n].sk) != {n}
  {
    if reg[m].sk == reg[n].sk { assert m in Users(reg, reg[n].sk); }
  }

  lemma RingAfter(c: Cells, t: Tree, n: nat, x: nat, c2: Cells, c3: Cells, c': Cells, t': Tree)
    requires PartOk(c, t) && n in t.reg && Emptied(c, t, n, x, c2, c3, c')
    requires (LastUser(t, n) ==> x < |t.ring| && t.ring[x] == t.reg[n].sk) && t' == AfterNode(t, n, x)
    ensures RingOk(c', t')
  {
    hide RoleOk, NodesOk, RolesOk, CountsOk, Users, RingOk, WithoutValues, ListSet;
    var s := t.reg[n].sk;
    forall b | b in t.owner && t.owner[b].SkOf? && !(LastUser(t, n) && b == s)
      ensures b in c && c[b].Sk? && b in c2 && c2[b] == c[b] && b in c3 && b in c' && c'[b] == c3[b] && c3[b].Sk?
      ensures !LastUser(t, n) ==> c3[b].next == c[b].next && c3[b].prev == c[b].prev
    {
      SksAfter(c, t, n, x, c2, c3, c', b);
    }
    if LastUser(t, n) {
      UserCount(c, t, n);
      SkOfNode(c, t, n, x, c2, c3);
      var t3 := t.(owner := t.owner - {s}, ring := RemoveAt(t.ring, x));
      RingSame(c, c2, t);
      hide Emptied, Unlinked;
      RingShrinks(c2, t, x, c3, t3);
      RingFrame(c3, t3, c', t');
    } else {
      assert forall b :: b in t.owner && t.owner[b].SkOf? ==> SkLinksKept(c, t.owner, c', t'.owner, b);
      RingFrame(c, t, c', t');
    }
  }

  lemma RingSame(c: Cells, c2: Cells, t: Tree)
    requires RingOk(c, t) && forall b :: b in t.owner && t.owner[b].SkOf? ==> b in c && b in c2 && c2[b] == c[b]
    ensures RingOk(c2, t)
  {
    hide Distinct;
    forall i | 0 <= i < |t.ring|
      ensures LinkedAt(c2, t.owner, t.ring, i)
    {
      assert LinkedAt(c, t.owner, t.ring, i);
    }
  }

  /** delete_node, seen from the tree. */
  lemma NodeGone(c: Cells, t: Tree, n: nat, x: nat, c2: Cells, c3: Cells, c': Cells, t': Tree)
    requires PartOk(c, t) && n in t.reg && Emptied(c, t, n, x, c2, c3, c')
    requires (LastUser(t, n) ==> x < |t.ring|) && t' == AfterNode(t, n, x)
    ensures PartOk(c', t') && Gone(c, t, {n}, c', t')
  {
    hide NodesOk, RolesOk, CountsOk, RingOk, Users, LastUser, Emptied, AfterNode, LocalTo;
    KeysAfter(c, t, n, x, c2, c3, c');
    NodesAfter(c, t, n, x, c2, c3, c', t');
    CountsAfter(c, t, n, x, c2, c3, c', t');
    RolesAfter(c, t, n, x, c2, c3, c', t');
    RingAfter(c, t, n, x, c2, c3, c', t');
    GoneAfter(c, t, n, x, c', t');
  }

  lemma GoneAfter(c: Cells, t: Tree, n: nat, x: nat, c': Cells, t': Tree)
    requires PartOk(c, t) && n in t.reg && c'.Keys == t'.owner.Keys && LocalTo(c, t, c', t'.(reg := t.reg), n)
    requires (LastUser(t, n) ==> x < |t.ring|) && t' == AfterNode(t, n, x)
    ensures Gone(c, t, {n}, c', t')
  {
    hide NodesOk, RoleOk, CountsOk, RingOk, Users, RemoveAt;
    forall b | b in t.owner && t.owner[b].SkOf?
      ensures Orphaned(t.reg, t'.reg, b) <==> LastUser(t, n) && b == t.reg[n].sk
    {
      OrphanIs(c, t, n, b);
    }
    hide LastUser;
    assert forall b :: b in t'.owner ==> b in c && b in c';
  }

  lemma OrphanIs(c: Cells, t: Tree, n: nat, b: nat)
    requires PartOk(c, t) && n in t.reg && b in t.owner && t.owner[b].SkOf?
    ensures Orphaned(t.reg, t.reg - {n}, b) <==> LastUser(t, n) && b == t.reg[n].sk
  {
    hide NodesOk, RoleOk, CountsOk, RingOk;
    UsersShrink(t.reg, {n}, b);
    ZeroNoSk(c, t, b);
    if Orphaned(t.reg, t.reg - {n}, b) {
      assert Users(t.reg, b) == {n};
      assert n in Users(t.reg, b);
    }
    if LastUser(t, n) && b == t.reg[n].sk { assert n in Users(t.reg, b); }
  }

  /** The licence lets node n go: the lengths of its blocks, four fields of its nk record, and its security reference. */
  ghost predicate MayGo(L: Licence, t: Tree, n: nat) {
    n in t.reg && MayFree(L, OwnedSet(t.owner, n)) && MayPut(L, n, n + 40, 16)
    && (t.reg[n].sk != 0 ==> MayPut(L, t.reg[n].sk, t.reg[n].sk + 16, 4))
    && (LastUser(t, n) ==> t.reg[n].sk in L.doomed && MayPut(L, t.reg[n].sk, t.reg[n].sk, 4))
  }

  /** The licence lets every link to a doomed security record be written. */
  ghost predicate MayRelink(L: Licence, c: Cells, ring: seq<nat>) {
    forall s :: s in ring ==>
      s in c && c[s].Sk? && (P(c[s].next) in L.doomed ==> MayPut(L, s, s + 8, 4))
      && (P(c[s].prev) in L.doomed ==> MayPut(L, s, s + 12, 4))
  }

  lemma NodeFreed(L: Licence, c: Cells, t: Tree, n: nat)
    requires PartOk(c, t) && n in t.reg && MayGo(L, t, n)
    ensures n in c && c[n].Nk? && MayFree(L, ListSet(t.owner, n)) && MayFree(L, ValueBlocks(t.owner, n))
    ensures MayFree(L, ClassSet(c, n) + {n}) && MayPut(L, n, n + 40, 8) && MayPut(L, n, n + 48, 8)
  {
    hide NodesOk, RoleOk, CountsOk, RingOk, LastUser;
    OwnedParts(c, t, n);
  }

  /** The neighbours of a doomed record point to it, so their links may be written. */
  lemma SkMayDrop(L: Licence, c: Cells, t: Tree, n: nat, c2: Cells)
    requires PartOk(c, t) && n in t.reg && MayGo(L, t, n) && MayRelink(L, c, t.ring) && t.reg[n].sk != 0
    requires forall b :: b in t.owner && t.owner[b].SkOf? ==> b in c && b in c2 && c2[b] == c[b]
    ensures MayDrop(L, c2, t.reg[n].sk)
  {
    hide NodesOk, RoleOk, MayFree, MayPut, LastUser;
    var s := t.reg[n].sk;
    UserCount(c, t, n);
    SkBlock(c, t, s);
    if LastUser(t, n) {
      var x :| 0 <= x < |t.ring| && t.ring[x] == s;
      var p, q := Pred(x, |t.ring|), Succ(x, |t.ring|);
      assert LinkedAt(c, t.owner, t.ring, x) && LinkedAt(c, t.owner, t.ring, p) && LinkedAt(c, t.owner, t.ring, q);
      assert t.ring[p] in t.ring && t.ring[q] in t.ring;
    }
  }

  /** Taking one doomed record out of the ring makes no new link to a doomed one that may not be written. */
  lemma RelinkStays(L: Licence, c: Cells, t: Tree, n: nat, x: nat, c2: Cells, c3: Cells, c': Cells, t': Tree)
    requires PartOk(c, t) && n in t.reg && Emptied(c, t, n, x, c2, c3, c') && MayGo(L, t, n) && MayRelink(L, c, t.ring)
    requires (LastUser(t, n) ==> x < |t.ring|) && t' == AfterNode(t, n, x)
    ensures MayRelink(L, c', t'.ring)
  {
    hide RoleOk, NodesOk, RolesOk, CountsOk, Users, MayPut, MayFree, WithoutValues, RingOk, RemoveAt;
    if LastUser(t, n) { UserCount(c, t, n); SkOfNode(c, t, n, x, c2, c3); }
    forall s | s in t'.ring
      ensures s in c' && c'[s].Sk? && (P(c'[s].next) in L.doomed ==> MayPut(L, s, s + 8, 4))
              && (P(c'[s].prev) in L.doomed ==> MayPut(L, s, s + 12, 4))
    {
      var i := RingPlace(c, t, n, x, t', s);
      SksAfter(c, t, n, x, c2, c3, c', s);
      if LastUser(t, n) { PointsTo(c, t, x, i); }
    }
  }

  /** A member of the ring after the node has gone was one before, and is not the record taken out. */
  lemma RingPlace(c: Cells, t: Tree, n: nat, x: nat, t': Tree, s: nat) returns (i: nat)
    requires RingOk(c, t) && n in t.reg && (LastUser(t, n) ==> x < |t.ring|) && t' == AfterNode(t, n, x) && s in t'.ring
    ensures i < |t.ring| && t.ring[i] == s && (LastUser(t, n) ==> i != x && s != t.ring[x]) && s in t.owner && t.owner[s].SkOf?
  {
    hide LastUser;
    var j :| 0 <= j < |t'.ring| && t'.ring[j] == s;
    if LastUser(t, n) { RemovedAt(t.ring, x, j); i := Back(x, j); } else { i := j; }
    assert LinkedAt(c, t.owner, t.ring, i);
  }

  lemma PointsTo(c: Cells, t: Tree, x: nat, i: nat)
    requires RingOk(c, t) && x < |t.ring| && i < |t.ring|
    ensures t.ring[i] in c && c[t.ring[i]].Sk?
    ensures i == Pred(x, |t.ring|) ==> P(c[t.ring[i]].next) == t.ring[x]
    ensures i == Succ(x, |t.ring|) ==> P(c[t.ring[i]].prev) == t.ring[x]
  {
    hide Distinct;
    assert LinkedAt(c, t.owner, t.ring, i);
  }

  /** delete_node: frees lists, values, security reference, class name and nk record. */
  method DeleteNode(h: Hive, n: nat) returns (r: Result<()>)
    requires h.HeapOk() && h.writable && PartOk(h.cells, h.t) && n in h.t.reg
    modifies h`addr, h`bitmap, h`cells, h`t
    ensures h.HeapOk()
    ensures r.Ok? <==> |old(h.t.reg)[n].children| <= MAX_SUBKEYS && |old(h.t.reg)[n].values| <= MAX_VALUES
    ensures r.Ok? ==> PartOk(h.cells, h.t) && Gone(old(h.cells), old(h.t), {n}, h.cells, h.t)
    ensures r.Ok? ==> FreedOnly(old(h.bitmap), old(h.cells), h.bitmap, h.cells)
    ensures (r.Ok? && old(h.Within()) && MayGo(h.license, old(h.t), n) && MayRelink(h.license, old(h.cells), old(h.t.ring))) ==>
              h.Within() && MayRelink(h.license, h.cells, h.t.ring)
  {
    hide Bitmap.Marks, Heap.Tiled, Heap.CellsOk, Hive.HeapOk, PartOk, Emptied, KidsOk, ValsOk, AfterNode, LastUser,
      Gone, ValueRolesOk, SkDropped, SkReady, Hive.Within, MayGo, MayRelink, MayDrop, MayPut, MayFree, FreedOnly,
      WithoutValues;
    ghost var c, t, bm := h.cells, h.t, h.bitmap;
    NodeNow(c, t, n);
    ghost var within := h.Within() && MayGo(h.license, t, n) && MayRelink(h.license, c, t.ring);
    if within { NodeFreed(h.license, c, t, n); }
    r := EmptyNode(h, n);
    if r.Err? {
      return;
    }
    ghost var c2, b2 := h.cells, h.bitmap;
    ghost var x := RestReady(c, t, n, c2);
    ghost var c3;
    var ok;
    if within && t.reg[n].sk != 0 { SkMayDrop(h.license, c, t, n, c2); }
    ok, c3 := FreeRest(h, n, t, x);
    FreedTrans(bm, c, b2, c2, h.bitmap, h.cells);
    EmptiedNow(c, t, n, x, c2, c3, h.cells);
    if within { RelinkStays(h.license, c, t, n, x, c2, c3, h.cells, AfterNode(t, n, x)); }
    NodeGone(c, t, n, x, c2, c3, h.cells, AfterNode(t, n, x));
    h.t := AfterNode(t, n, x);
    return Ok(());
  }

  /** The part of delete_node that frees lists and values. */
  method EmptyNode(h: Hive, n: nat) returns (r: Result<()>)
    requires h.HeapOk() && h.writable && PartOk(h.cells, h.t) && n in h.t.reg
    modifies h`addr, h`bitmap, h`cells
    ensures h.HeapOk()
    ensures r.Ok? <==> |h.t.reg[n].children| <= MAX_SUBKEYS && |h.t.reg[n].values| <= MAX_VALUES
    ensures r.Ok? ==> FreedOnly(old(h.bitmap), old(h.cells), h.bitmap, h.cells)
    ensures r.Ok? ==> n in old(h.cells) - ListSet(h.t.owner, n) && old(h.cells)[n].Nk?
                      && h.cells == WithoutValues(old(h.cells) - ListSet(h.t.owner, n), h.t.owner, n)
    ensures (r.Ok? && old(h.Within()) && MayFree(h.license, ListSet(h.t.owner, n)) && MayFree(h.license, ValueBlocks(h.t.owner, n))
             && MayPut(h.license, n, n + 40, 8)) ==> h.Within()
  {
    hide Bitmap.Marks, Heap.Tiled, Heap.CellsOk, Hive.HeapOk, PartOk, KidsOk, ValsOk, ValueRolesOk, Hive.Within,
      MayPut, MayFree, FreedOnly, ChildrenGood, ChildrenOf, BlocksFound;
    ghost var c, t, bm, info := h.cells, h.t, h.bitmap, h.t.reg[n];
    NodeNow(c, t, n);
    var got := GetChildren(h, n, false, t.owner, info.children);
    if got.Err? {
      return Err(got.errno);
    }
    ListSetIs(c, t, n, got.value.1);
    FreeBlocks(h, got.value.1);
    assert Elements(got.value.1) == ListSet(t.owner, n);
    ListsFreed(c, t, n, h.cells);
    ghost var c1, b1 := h.cells, h.bitmap;
    var dv := DeleteValues(h, n, t.owner, t.reg);
    if dv.Err? {
      return Err(dv.errno);
    }
    FreedTrans(bm, c, b1, c1, h.bitmap, h.cells);
    return Ok(());
  }

  lemma NodeNow(c: Cells, t: Tree, n: nat)
    requires PartOk(c, t) && n in t.reg
    ensures Is(c, t.owner, n, NkOf(n)) && c[n].Nk? && KidsOk(c, t.owner, n, t.reg[n].children) && ValsOk(c, t.owner, n, t.reg[n].values)
    ensures c[n].nrSubkeys > 0 ==> P(c[n].subkeyLf) in c
  {
    hide RolesOk, CountsOk, RingOk, Flat;
    NodeIn(c, t, n);
  }

  lemma EmptiedNow(c: Cells, t: Tree, n: nat, x: nat, c2: Cells, c3: Cells, c': Cells)
    requires PartOk(c, t) && n in t.reg && Is(c, t.owner, n, NkOf(n)) && c[n].Nk? && n in c - ListSet(t.owner, n)
    requires c2 == WithoutValues(c - ListSet(t.owner, n), t.owner, n) && SkDropped(c2, t.ring, t.reg[n].sk, x, c3)
    requires n in c2 && c2[n].Nk? && c'.Keys == c3.Keys - {n} - ClassSet(c2, n) && forall b :: b in c' ==> b in c3 && c'[b] == c3[b]
    ensures Emptied(c, t, n, x, c2, c3, c') && (LastUser(t, n) ==> x < |t.ring|)
  {
    hide PartOk, SkDropped, LastUser, ValueBlocks;
    SkOfNode(c, t, n, x, c2, c3);
  }

  lemma RestReady(c: Cells, t: Tree, n: nat, c2: Cells) returns (x: nat)
    requires PartOk(c, t) && n in t.reg && Is(c, t.owner, n, NkOf(n)) && c[n].Nk? && n in c - ListSet(t.owner, n)
    requires c2 == WithoutValues(c - ListSet(t.owner, n), t.owner, n)
    ensures n in c2 && c2[n].Nk? && RingOk(c2, t) && SkPtr(c2[n].sk) == t.reg[n].sk && n !in t.ring
    ensures t.reg[n].sk != 0 ==> SkReady(c2, t.ring, t.reg[n].sk, x)
    ensures c2[n].classname != NONE ==> P(c2[n].classname) in c2 && P(c2[n].classname) != n && P(c2[n].classname) !in t.ring
    ensures c2[n].classname == c[n].classname && forall b :: b in t.owner && t.owner[b].SkOf? ==> b in c && b in c2 && c2[b] == c[b]
  {
    hide RoleOk, KidsOk, ValsOk, RingOk;
    NodeIn(c, t, n);
    hide NodesOk, NodeOk;
    forall b | b in t.owner && t.owner[b].SkOf?
      ensures b in c && b in c2 && c2[b] == c[b]
    {
      SkRole(c, t, b);
    }
    RingSame(c, c2, t);
    SkBlock(c, t, n);
    x := 0;
    if t.reg[n].sk != 0 {
      UserCount(c, t, n);
      SkBlock(c, t, t.reg[n].sk);
      x :| 0 <= x < |t.ring| && t.ring[x] == t.reg[n].sk;
    }
    if c[n].classname != NONE { SkBlock(c, t, P(c[n].classname)); }
  }
}
