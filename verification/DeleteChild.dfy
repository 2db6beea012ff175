/** hivex_node_delete_child: the visitor that deletes a subtree from its leaves up, and the unlinking from the parent. */
module DeleteChild {
  import opened Bytes
  import opened Bitmap
  import Layout
  import opened Heap
  import opened Registry
  import opened Hives
  import opened Readers
  import opened Values
  import opened Deleting
  import opened Subtrees
  import opened Unlinking

  /** The visitor reads every value of the node; types dword and qword tolerate unreadable data. */
  method VisitValues(h: Hive, n: nat, ghost o: Owner, ghost vals: seq<Value>) returns (ok: bool)
    requires h.HeapOk()
    ensures HoldsValues(h, o, n, vals) ==> (ok <==> |vals| <= MAX_VALUES)
  {
    hide Heap.Tiled, Heap.CellsOk, Hive.HeapOk, Hive.Within, HoldsValues, ValueOk, VkOffsets, ValuesGood, ValuesOf,
      KeyGood, DataGood;
    ghost var good := HoldsValues(h, o, n, vals) && |vals| <= MAX_VALUES;
    if good { ValuesThere(h, o, n, vals); }
    var got := GetValues(h, n, o, vals);
    if got.Err? {
      return false;
    }
    var values := got.value.0;
    for i := 0 to |values| {
      if good { KeyThere(h, o, n, i, values[i], vals[i]); }
      var key := ValueKey(h, values[i]);
      if key.Err? {
        return false;
      }
      ghost var val := if good then vals[i] else Value([], 0, []);
      var data := ValueValue(h, values[i], o, n, i, val);
      if data.Err? && !Tolerant(h.addr, values[i]) {
        return false;
      }
    }
    return true;
  }

  lemma ValuesThere(h: Hive, o: Owner, n: nat, vals: seq<Value>)
    requires HoldsValues(h, o, n, vals)
    ensures n in h.cells && h.cells[n].Nk? && |VkOffsets(h.cells, n)| == |vals|
    ensures forall i :: 0 <= i < |vals| ==> ValueOk(h.cells, o, n, i, VkOffsets(h.cells, n)[i], vals[i])
  {
  }

  lemma KeyThere(h: Hive, o: Owner, n: nat, i: nat, k: nat, val: Value)
    requires ValueOk(h.cells, o, n, i, k, val)
    ensures k in h.cells && h.cells[k].Vk?
  {
  }

  /** Nodes the readers accept: no more children or values than they allow. */
  ghost predicate Readable(reg: Reg, S: set<nat>) {
    forall m :: m in S && m in reg ==> |reg[m].children| <= MAX_SUBKEYS && |reg[m].values| <= MAX_VALUES
  }

  /** The tree as it was, less some nodes. */
  ghost predicate PartOf(reg: Reg, g: Reg) {
    forall m :: m in reg ==> m in g && reg[m] == g[m]
  }

  /** hivex__visit_node with node_end = delete_node. */
  method VisitDelete(h: Hive, n: nat, u: seq<bv8>, ghost g: Reg, ghost S: set<nat>) returns (ok: bool, u': seq<bv8>)
    requires LinksOk(g, h.rootoffs) && n in g && S == Sub(g, h.rootoffs, n)
    requires PartOf(h.t.reg, g) && S <= h.t.reg.Keys && S <= Marks(u) && h.writable
    requires h.HeapOk() && PartOk(h.cells, h.t)
    modifies h`addr, h`bitmap, h`cells, h`t
    ensures h.HeapOk() && |u'| == |u|
    ensures ok ==> PartOk(h.cells, h.t) && Gone(old(h.cells), old(h.t), S, h.cells, h.t)
    ensures ok ==> Marks(u') == Marks(u) - S
    ensures ok ==> FreedOnly(old(h.bitmap), old(h.cells), h.bitmap, h.cells)
    ensures ok <==> Readable(g, S)
    ensures (ok && old(h.Within()) && MayGoAll(h.license, old(h.t), S) && MayRelink(h.license, old(h.cells), old(h.t.ring))) ==>
              h.Within() && MayRelink(h.license, h.cells, h.t.ring)
    decreases Marks(u), 0
  {
    hide Heap.Tiled, Heap.CellsOk, Hive.HeapOk, Hive.Within, PartOk, LinksOk, Under, Gone, Marks, Tst, Clr, KidsOk,
      ValsOk, MayGoAll, MayRelink, MayGo, ChildrenGood, ChildrenOf, BlocksFound, NameGood;
    ghost var root := h.rootoffs;
    assert n in S by { UnderSelf(g, root, n); }
    NodeNow(h.cells, h.t, n);
    u' := u;
    SubIs(g, root, n);
    ghost var inside := SubKids(g, root, n, |g[n].children|);
    ghost var within := h.Within() && MayGoAll(h.license, h.t, S) && MayRelink(h.license, h.cells, h.t.ring);
    if within { MayGoPart(h.license, h.t, S, inside); }
    MarkThere(u, n);
    if !Tst(u, n) {
      return false, u;
    }
    u' := Clr(u, n);
    MarksCleared(u, n);
    var name := NodeName(h, n);
    if name.Err? {
      return false, u';
    }
    ok := VisitValues(h, n, h.t.owner, g[n].values);
    if !ok {
      return false, u';
    }
    KidsThere(h.cells, h.t, g, root, n);
    var kids := GetChildren(h, n, true, h.t.owner, g[n].children);
    if kids.Err? {
      return false, u';
    }
    ok, u' := VisitKids(h, n, kids.value.0, u', g, SubKids(g, root, n, |g[n].children|));
    if !ok {
      return false, u';
    }
    ghost var c1, t1 := h.cells, h.t;
    GoneReg(old(h.cells), old(h.t), SubKids(g, root, n, |g[n].children|), c1, t1);
    if within { MayGoGone(h.license, old(h.cells), old(h.t), inside, c1, t1, S, {n}); MayGoOne(h.license, c1, t1, n); }
    var deleted := DeleteNode(h, n);
    if deleted.Err? {
      return false, u';
    }
    GoneTrans(old(h.cells), old(h.t), SubKids(g, root, n, |g[n].children|), c1, t1, {n}, h.cells, h.t);
    return true, u';
  }

  /** The loop of the visitor over the children. */
  method VisitKids(h: Hive, n: nat, kids: seq<nat>, u: seq<bv8>, ghost g: Reg, ghost S: set<nat>) returns (ok: bool, u': seq<bv8>)
    requires LinksOk(g, h.rootoffs) && n in g && kids == g[n].children && S == SubKids(g, h.rootoffs, n, |kids|)
    requires PartOf(h.t.reg, g) && S <= h.t.reg.Keys && S <= Marks(u) && h.writable
    requires h.HeapOk() && PartOk(h.cells, h.t)
    modifies h`addr, h`bitmap, h`cells, h`t
    ensures h.HeapOk() && |u'| == |u|
    ensures ok ==> PartOk(h.cells, h.t) && Gone(old(h.cells), old(h.t), S, h.cells, h.t)
    ensures ok ==> Marks(u') == Marks(u) - S
    ensures ok ==> FreedOnly(old(h.bitmap), old(h.cells), h.bitmap, h.cells)
    ensures ok <==> Readable(g, S)
    ensures (ok && old(h.Within()) && MayGoAll(h.license, old(h.t), S) && MayRelink(h.license, old(h.cells), old(h.t.ring))) ==>
              h.Within() && MayRelink(h.license, h.cells, h.t.ring)
    decreases Marks(u), 1
  {
    hide Heap.Tiled, Heap.CellsOk, Hive.HeapOk, Hive.Within, PartOk, LinksOk, Under, Gone, Marks, Sub, SubKids,
      MayGoAll, MayRelink, MayGo;
    ghost var root, c0, t0 := h.rootoffs, h.cells, h.t;
    ghost var within := h.Within() && MayGoAll(h.license, h.t, S) && MayRelink(h.license, h.cells, h.t.ring);
    u' := u;
    NoKidsYet(g, root, n);
    GoneNone(c0, t0);
    for i := 0 to |kids|
      invariant h.HeapOk() && |u'| == |u| && PartOk(h.cells, h.t)
      invariant Gone(c0, t0, SubKids(g, root, n, i), h.cells, h.t)
      invariant Marks(u') == Marks(u) - SubKids(g, root, n, i) && Readable(g, SubKids(g, root, n, i))
      invariant FreedOnly(old(h.bitmap), old(h.cells), h.bitmap, h.cells)
      invariant within ==> h.Within() && MayRelink(h.license, h.cells, h.t.ring)
    {
      SubKidsStep(g, root, n, i);
      SubKidsGrow(g, root, n, i);
      ghost var c, t := h.cells, h.t;
      GoneReg(c0, t0, SubKids(g, root, n, i), c, t);
      if within { MayGoGone(h.license, c0, t0, SubKids(g, root, n, i), c, t, S, Sub(g, root, kids[i])); }
      ok, u' := VisitDelete(h, kids[i], u', g, Sub(g, root, kids[i]));
      if !ok {
        return false, u';
      }
      GoneTrans(c0, t0, SubKids(g, root, n, i), c, t, Sub(g, root, kids[i]), h.cells, h.t);
    }
    return true, u';
  }

  /** The licence lets the nodes S go, and with them the security records only they use. */
  ghost predicate MayGoAll(L: Licence, t: Tree, S: set<nat>) {
    (forall b :: b in t.owner && !t.owner[b].SkOf? && t.owner[b].n in S ==> MayPut(L, b, b, 4))
    && (forall n :: n in S && n in t.reg ==>
          MayPut(L, n, n + 40, 16) && (t.reg[n].sk != 0 ==> MayPut(L, t.reg[n].sk, t.reg[n].sk + 16, 4)))
    && (forall s :: s in t.owner && t.owner[s].SkOf? && Users(t.reg, s) != {} && Users(t.reg, s) <= S ==>
          s in L.doomed && MayPut(L, s, s, 4))
  }

  lemma MayGoOne(L: Licence, c: Cells, t: Tree, n: nat)
    requires PartOk(c, t) && n in t.reg && MayGoAll(L, t, {n})
    ensures MayGo(L, t, n)
  {
    hide NodesOk, RolesOk, RingOk, MayPut, Users;
  }

  lemma MayGoPart(L: Licence, t: Tree, S: set<nat>, S': set<nat>)
    requires MayGoAll(L, t, S) && S' <= S
    ensures MayGoAll(L, t, S')
  {
    hide MayPut, Users;
  }

  lemma MayGoGone(L: Licence, c: Cells, t: Tree, R: set<nat>, c': Cells, t': Tree, S: set<nat>, S': set<nat>)
    requires Gone(c, t, R, c', t') && MayGoAll(L, t, S) && R <= S && S' <= S
    ensures MayGoAll(L, t', S')
  {
    hide Orphaned, MayPut, Users;
    forall s | s in t'.owner && t'.owner[s].SkOf? && Users(t'.reg, s) != {} && Users(t'.reg, s) <= S'
      ensures s in L.doomed && MayPut(L, s, s, 4)
    {
      UsersShrink(t.reg, R, s);
      assert Users(t.reg, s) <= Users(t'.reg, s) + R;
      assert Users(t.reg, s) != {};
    }
  }

  lemma GoneNone(c: Cells, t: Tree)
    requires PartOk(c, t)
    ensures Gone(c, t, {}, c, t)
  {
    hide NodesOk, RoleOk, RingOk, CountsOk;
    assert t.reg - {} == t.reg;
  }

  lemma GoneReg(c: Cells, t: Tree, S: set<nat>, c': Cells, t': Tree)
    requires Gone(c, t, S, c', t')
    ensures t'.reg == t.reg - S
  {
  }

  lemma SubKidsGrow(g: Reg, root: nat, n: nat, i: nat)
    requires LinksOk(g, root) && n in g && i < |g[n].children|
    ensures SubKids(g, root, n, i + 1) <= SubKids(g, root, n, |g[n].children|)
  {
    hide LinksOk, Under;
  }

  lemma MarkThere(u: seq<bv8>, n: nat)
    requires n in Marks(u)
    ensures n < 32 * |u| && Tst(u, n)
  {
  }

  /** The children of a node whose subtree is still there can be read. */
  lemma KidsThere(c: Cells, t: Tree, g: Reg, root: nat, n: nat)
    requires PartOk(c, t) && LinksOk(g, root) && n in g && PartOf(t.reg, g) && Sub(g, root, n) <= t.reg.Keys
    ensures forall x :: x in g[n].children ==> x in c
  {
    hide RolesOk, RingOk, CountsOk, NodeOk;
    forall x | x in g[n].children
      ensures x in c
    {
      KidNotRoot(g, root, n, x);
      UnderSelf(g, root, x);
      UnderChild(g, root, x, x, n);
      NkRole(c, t, x);
    }
  }

  // ---------- the registry without a subtree

  /** The registry after delete_child: the subtree gone, and the node no longer among its parent's children. */
  ghost function DropNode(g: Reg, root: nat, node: nat): Reg
    requires LinksOk(g, root) && node in g && node != root && g[node].parent in g
  {
    (g - Sub(g, root, node))[g[node].parent := g[g[node].parent].(children := Without(g[g[node].parent].children, node))]
  }

  lemma {:induction false} WithoutMembers(s: seq<nat>, x: nat)
    requires Distinct(s)
    ensures Distinct(Without(s, x)) && forall y :: y in Without(s, x) <==> y in s && y != x
  {
    if s != [] {
      assert Distinct(s[1..]);
      assert s[0] !in s[1..];
      assert forall y :: y in s <==> y == s[0] || y in s[1..];
      WithoutMembers(s[1..], x);
      var w := Without(s[1..], x);
      if s[0] != x {
        assert forall y :: y in [s[0]] + w <==> y == s[0] || y in w;
      }
    }
  }

  /** Outside the subtree nothing points into it but the parent. */
  lemma OutsideSub(g: Reg, root: nat, node: nat, n: nat, x: nat)
    requires LinksOk(g, root) && node in g && node != root && n in g && n !in Sub(g, root, node) && x in g[n].children
    ensures x in g && (x in Sub(g, root, node) <==> x == node) && (x == node <==> n == g[node].parent && x == node)
  {
    KidNotRoot(g, root, n, x);
    if x == node { UnderSelf(g, root, node); }
  }

  lemma ParentOutside(g: Reg, root: nat, node: nat)
    requires LinksOk(g, root) && node in g && node != root
    ensures g[node].parent in g && g[node].parent !in Sub(g, root, node) && root !in Sub(g, root, node) && node in Sub(g, root, node)
    ensures node in g[g[node].parent].children
  {
    ParentAbove(g, root, node);
    var p := g[node].parent;
    if Under(g, root, p, node) { UnderDeeper(g, root, p, node); }
    UnderSelf(g, root, node);
  }

  lemma DroppedKids(g: Reg, root: nat, node: nat, n: nat)
    requires LinksOk(g, root) && node in g && node != root && g[node].parent in g && n in DropNode(g, root, node)
    ensures KidsLinked(DropNode(g, root, node), n)
  {
    hide Distinct, Without;
    ParentOutside(g, root, node);
    assert n in g && n !in Sub(g, root, node);
    assert KidsLinked(g, n);
    hide LinksOk, Under;
    WithoutMembers(g[n].children, node);
    var reg' := DropNode(g, root, node);
    forall x | x in reg'[n].children
      ensures x in reg' && reg'[x].parent == n && reg'[x].depth == reg'[n].depth + 1
    {
      OutsideSub(g, root, node, n, x);
    }
  }

  lemma DroppedParent(g: Reg, root: nat, node: nat, n: nat)
    requires LinksOk(g, root) && node in g && node != root && g[node].parent in g && n in DropNode(g, root, node) && n != root
    ensures var reg' := DropNode(g, root, node); reg'[n].parent in reg' && n in reg'[reg'[n].parent].children
  {
    hide Distinct, Without;
    ParentOutside(g, root, node);
    assert n in g && n !in Sub(g, root, node);
    ParentAbove(g, root, n);
    var p := g[n].parent;
    assert p !in Sub(g, root, node);
    assert KidsLinked(g, p);
    WithoutMembers(g[p].children, node);
  }

  lemma DroppedLinks(g: Reg, root: nat, node: nat)
    requires LinksOk(g, root) && node in g && node != root && g[node].parent in g
    ensures LinksOk(DropNode(g, root, node), root)
  {
    var reg' := DropNode(g, root, node);
    ParentOutside(g, root, node);
    hide KidsLinked, Under, Without;
    forall n | n in reg'
      ensures KidsLinked(reg', n) && (n != root ==> reg'[n].parent in reg' && n in reg'[reg'[n].parent].children)
    {
      DroppedKids(g, root, node, n);
      if n != root { DroppedParent(g, root, node, n); }
    }
  }

  // ---------- the call itself

  lemma LiveMarked(h: Hive, S: set<nat>)
    requires h.Valid() && S <= h.t.reg.Keys
    ensures S <= Marks(h.bitmap)
  {
    hide Heap.Tiled, Heap.CellsOk, Hive.HeapOk, Hive.Within, RolesOk, RingOk, CountsOk, LinksOk, Marks, NodeOk;
    forall m | m in S
      ensures m in Marks(h.bitmap)
    {
      NkRole(h.cells, h.t, m);
      h.MarkedBlock(m);
    }
  }

  /** Blocks freed by delete_child: all that the subtree owns, and security records it was the last to use. */
  ghost function FreedBy(t: Tree, root: nat, node: nat): set<nat>
    requires LinksOk(t.reg, root)
  {
    set b | b in t.owner && (if t.owner[b].SkOf? then Orphaned(t.reg, t.reg - Sub(t.reg, root, node), b)
                             else t.owner[b].n in Sub(t.reg, root, node))
  }

  /** Runs the deleting visitor on the subtree. */
  method DeleteSubtree(h: Hive, node: nat) returns (ok: bool)
    requires h.Valid() && node in h.t.reg && h.writable
    modifies h`addr, h`bitmap, h`cells, h`t
    ensures h.HeapOk()
    ensures ok ==> PartOk(h.cells, h.t) && LinksOk(old(h.t.reg), h.rootoffs)
                   && Gone(old(h.cells), old(h.t), Sub(old(h.t.reg), h.rootoffs, node), h.cells, h.t)
                   && Marks(h.bitmap) == Marks(old(h.bitmap)) - FreedBy(old(h.t), h.rootoffs, node)
    ensures LinksOk(old(h.t.reg), h.rootoffs) ==> (ok <==> Readable(old(h.t.reg), Sub(old(h.t.reg), h.rootoffs, node)))
    ensures (LinksOk(old(h.t.reg), h.rootoffs) && ok && old(h.Within()) && MayRelink(h.license, old(h.cells), old(h.t.ring))
             && MayGoAll(h.license, old(h.t), Sub(old(h.t.reg), h.rootoffs, node))) ==> h.Within()
  {
    hide Heap.Tiled, Heap.CellsOk, Hive.HeapOk, Hive.Within, PartOk, LinksOk, Gone, Marks, Sub, MayGoAll, MayRelink,
      MayGo;
    ghost var c, t, bm, S := h.cells, h.t, h.bitmap, Sub(h.t.reg, h.rootoffs, node);
    assert S <= t.reg.Keys by { SubIn(t.reg, h.rootoffs, node); }
    LiveMarked(h, S);
    var u;
    ok, u := VisitDelete(h, node, h.bitmap, t.reg, S);
    if ok { FreedExactly(c, t, h.rootoffs, node, bm, h.bitmap, h.cells, h.t); }
  }

  lemma SubIn(g: Reg, root: nat, n: nat)
    requires LinksOk(g, root)
    ensures Sub(g, root, n) <= g.Keys
  {
  }

  lemma FreedExactly(c: Cells, t: Tree, root: nat, node: nat, bm: seq<bv8>, bm': seq<bv8>, c': Cells, t': Tree)
    requires LinksOk(t.reg, root) && PartOk(c, t) && PartOk(c', t') && Gone(c, t, Sub(t.reg, root, node), c', t')
    requires FreedOnly(bm, c, bm', c')
    ensures Marks(bm') == Marks(bm) - FreedBy(t, root, node)
  {
    hide LinksOk, NodesOk, RingOk, CountsOk, RoleOk, Marks, Sub, Users;
    assert c.Keys - c'.Keys == FreedBy(t, root, node);
  }

  /** The bytes delete_child writes: the length of every freed block; value and security fields of the deleted nk
      records; counts of the security records they used, and links to those that go; the parent's subkey count; and,
      in the list that names the node, the key count and the entries from that one on. */
  ghost predicate Writes(c: Cells, t: Tree, root: nat, node: nat, parent: nat, i: nat)
    requires LinksOk(t.reg, root)
  {
    var S, F := Sub(t.reg, root, node), FreedBy(t, root, node);
    (exists b :: b in F && b <= i < b + 4)
    || (exists n :: n in S && n + 40 <= i < n + 56)
    || (exists n :: n in S && n in t.reg && t.reg[n].sk != 0 && t.reg[n].sk + 16 <= i < t.reg[n].sk + 20)
    || (exists s :: s in t.ring && s in c && c[s].Sk? && P(c[s].next) in F && s + 8 <= i < s + 12)
    || (exists s :: s in t.ring && s in c && c[s].Sk? && P(c[s].prev) in F && s + 12 <= i < s + 16)
    || parent + 24 <= i < parent + 28
    || (exists l, j :: l in ListSet(t.owner, parent) && l in c && c[l].Lf? && 0 <= j < |c[l].keys| && P(c[l].keys[j].off) == node
                       && (l + 6 <= i < l + 8 || l + 8 + 8 * j <= i < l + 8 * |c[l].keys|))
  }

  ghost predicate OnlyWrote(c: Cells, t: Tree, root: nat, node: nat, parent: nat, a: seq<byte>, a': seq<byte>)
    requires LinksOk(t.reg, root)
  {
    |a'| == |a| && forall i :: 0 <= i < |a| && a'[i] != a[i] ==> Writes(c, t, root, node, parent, i)
  }

  ghost function DeleteLicence(c: Cells, t: Tree, root: nat, node: nat, parent: nat, size: nat): Licence
    requires LinksOk(t.reg, root)
  {
    Licence((iset i: nat | Writes(c, t, root, node, parent, i)), size, FreedBy(t, root, node), true)
  }

  lemma LengthCovered(c: Cells, t: Tree, root: nat, node: nat, parent: nat, size: nat, b: nat)
    requires LinksOk(t.reg, root) && b in FreedBy(t, root, node)
    ensures MayPut(DeleteLicence(c, t, root, node, parent, size), b, b, 4)
  {
    hide LinksOk, Sub, ListSet, FreedBy;
  }

  lemma FieldsCovered(c: Cells, t: Tree, root: nat, node: nat, parent: nat, size: nat, n: nat)
    requires LinksOk(t.reg, root) && n in Sub(t.reg, root, node) && n in t.reg
    ensures var L := DeleteLicence(c, t, root, node, parent, size);
            MayPut(L, n, n + 40, 16) && (t.reg[n].sk != 0 ==> MayPut(L, t.reg[n].sk, t.reg[n].sk + 16, 4))
  {
    hide LinksOk, Sub, ListSet, FreedBy;
  }

  lemma GoCovered(c: Cells, t: Tree, root: nat, node: nat, parent: nat, size: nat)
    requires LinksOk(t.reg, root)
    ensures MayGoAll(DeleteLicence(c, t, root, node, parent, size), t, Sub(t.reg, root, node))
  {
    hide LinksOk, Sub, MayPut, Writes;
    var L, S := DeleteLicence(c, t, root, node, parent, size), Sub(t.reg, root, node);
    forall b | b in t.owner && !t.owner[b].SkOf? && t.owner[b].n in S
      ensures MayPut(L, b, b, 4)
    {
      LengthCovered(c, t, root, node, parent, size, b);
    }
    forall n | n in S && n in t.reg
      ensures MayPut(L, n, n + 40, 16) && (t.reg[n].sk != 0 ==> MayPut(L, t.reg[n].sk, t.reg[n].sk + 16, 4))
    {
      FieldsCovered(c, t, root, node, parent, size, n);
    }
    forall s | s in t.owner && t.owner[s].SkOf? && Users(t.reg, s) != {} && Users(t.reg, s) <= S
      ensures s in L.doomed && MayPut(L, s, s, 4)
    {
      UsersShrink(t.reg, S, s);
      assert Users(t.reg - S, s) == {};
      LengthCovered(c, t, root, node, parent, size, s);
    }
  }

  lemma RelinkCovered(c: Cells, t: Tree, root: nat, node: nat, parent: nat, size: nat)
    requires LinksOk(t.reg, root) && RingOk(c, t)
    ensures MayRelink(DeleteLicence(c, t, root, node, parent, size), c, t.ring)
  {
    hide LinksOk, Sub, ListSet, FreedBy;
    forall s | s in t.ring
      ensures s in c && c[s].Sk?
    {
      var i :| 0 <= i < |t.ring| && t.ring[i] == s;
      assert LinkedAt(c, t.owner, t.ring, i);
    }
    hide RingOk;
  }

  lemma UnlistCovered(c: Cells, t: Tree, root: nat, node: nat, parent: nat, size: nat, c': Cells, t': Tree)
    requires LinksOk(t.reg, root) && Gone(c, t, Sub(t.reg, root, node), c', t')
    ensures var L := DeleteLicence(c, t, root, node, parent, size);
            MayPut(L, parent, parent + 24, 4) && MayUnlist(L, c', ListSet(t'.owner, parent), node)
  {
    hide LinksOk, Sub, Orphaned, FreedBy;
    var L := DeleteLicence(c, t, root, node, parent, size);
    forall l, j | l in ListSet(t'.owner, parent) && l in c' && c'[l].Lf? && 0 <= j < |c'[l].keys| && P(c'[l].keys[j].off) == node
      ensures MayCut(L, l, j, |c'[l].keys|)
    {
      assert l in ListSet(t.owner, parent) && c[l] == c'[l];
    }
  }

  /** The parent's nk record is not touched while the subtree goes. */
  lemma ParentKept(c: Cells, t: Tree, root: nat, node: nat, parent: nat, c': Cells, t': Tree)
    requires LinksOk(t.reg, root) && Gone(c, t, Sub(t.reg, root, node), c', t') && PartOk(c, t) && PartOk(c', t')
    requires parent in t.reg && parent !in Sub(t.reg, root, node)
    ensures parent in c && parent in c' && c'[parent] == c[parent]
  {
    hide LinksOk, Sub, Orphaned, NodesOk, RoleOk, RingOk, CountsOk;
    NkRole(c, t, parent);
    NkRole(c', t', parent);
  }

  /** The readers accept every node of the subtree, and the children of its parent. */
  ghost predicate MayDelete(g: Reg, root: nat, node: nat)
    requires LinksOk(g, root)
  {
    node in g && g[node].parent in g && |g[g[node].parent].children| <= MAX_SUBKEYS && Readable(g, Sub(g, root, node))
  }

  /** hivex_node_delete_child: the subtree is gone, its parent no longer lists it, every other node keeps everything. */
  method DeleteChild(h: Hive, node: nat) returns (r: Result<()>)
    requires h.Valid() && Handle(h, node)
    modifies h`addr, h`bitmap, h`cells, h`t, h`base, h`license
    ensures h.HeapOk()
    ensures !h.writable ==> r == Err(EROFS)
    ensures h.writable && (node !in old(h.t.reg) || node == h.rootoffs) ==> r == Err(EINVAL)
    ensures r == Err(EROFS) || r == Err(EINVAL) ==> h.Valid() && h.t == old(h.t) && h.addr == old(h.addr)
    ensures r.Ok? ==> node in old(h.t.reg) && node != h.rootoffs && LinksOk(old(h.t.reg), h.rootoffs)
                      && old(h.t.reg)[node].parent in old(h.t.reg)
                      && h.Valid() && h.t.reg == DropNode(old(h.t.reg), h.rootoffs, node)
                      && Marks(h.bitmap) == Marks(old(h.bitmap)) - FreedBy(old(h.t), h.rootoffs, node)
                      && OnlyWrote(old(h.cells), old(h.t), h.rootoffs, node, old(h.t.reg)[node].parent, old(h.addr), h.addr)
                      && SameBlocks(old(h.addr), h.addr, h.endpages)
                      && OneLess(old(h.cells), h.cells, old(h.t.reg)[node].parent)
    ensures h.writable && node in old(h.t.reg) && node != h.rootoffs && LinksOk(old(h.t.reg), h.rootoffs) ==>
              (r.Ok? <==> MayDelete(old(h.t.reg), h.rootoffs, node)) && (r.Err? ==> r.errno == ERANGE)
  {
    hide Heap.Tiled, Heap.CellsOk, Hive.HeapOk, Hive.Within, PartOk, LinksOk, NodeOk, Gone, Marks, Sub, Without,
      Unlist, ValueRolesOk, FreedBy, SameBlocks, DeleteLicence, OnlyWrote, MayGoAll, MayRelink, MayUnlist, MayPut,
      ListSet;
    if !h.writable {
      return Err(EROFS);
    }
    if node in h.t.reg { LiveNode(h, node); }
    if !h.BlockIs(node, 'n', 'k') {
      return Err(EINVAL);
    }
    if node == h.rootoffs {
      return Err(EINVAL);
    }
    ghost var c, t, root := h.cells, h.t, h.rootoffs;
    ParentOutside(t.reg, root, node);
    ParentField(h, node);
    var parent := NodeParent(h, node);
    match parent
    case Err(e) => return Err(e);
    case Ok(p) =>
      h.base, h.license := h.addr, DeleteLicence(c, t, root, node, p, |h.addr|);
      GoCovered(c, t, root, node, p, |h.addr|);
      assert RingOk(c, t) by { RingPart(c, t); }
      RelinkCovered(c, t, root, node, p, |h.addr|);
      NothingWritten(h);
      var ok := DeleteSubtree(h, node);
      if !ok {
        return Err(ERANGE);
      }
      ghost var c1, t1 := h.cells, h.t;
      GoneReg(c, t, Sub(t.reg, root, node), c1, t1);
      UnlistCovered(c, t, root, node, p, |h.base|, c1, t1);
      ParentKept(c, t, root, node, p, c1, t1);
      var unlinked := UnlinkChild(h, p, node);
      if unlinked.Err? {
        return Err(ERANGE);
      }
      UnlistReg(t1, p, node);
      WrittenWithin(h, c, t, root, node, p);
      DroppedLinks(t.reg, root, node);
      return Ok(());
  }

  lemma RingPart(c: Cells, t: Tree)
    requires PartOk(c, t)
    ensures RingOk(c, t)
  {
    hide NodesOk, RolesOk, RingOk, CountsOk;
  }

  lemma NothingWritten(h: Hive)
    requires h.HeapOk() && h.base == h.addr
    ensures h.Within()
  {
    hide Heap.CellsOk, Layout.PagesTile, Heap.Marked, Heap.TailOk, SameBlocks;
    BlocksAsIs(h.addr, h.endpages);
  }

  lemma WrittenWithin(h: Hive, c: Cells, t: Tree, root: nat, node: nat, parent: nat)
    requires LinksOk(t.reg, root) && h.license == DeleteLicence(c, t, root, node, parent, |h.base|) && h.Within()
    ensures OnlyWrote(c, t, root, node, parent, h.base, h.addr) && SameBlocks(h.base, h.addr, h.endpages)
  {
    hide Writes, LinksOk, FreedBy, Layout.PagesTile, Layout.AllBlocks;
  }

  lemma UnlistReg(t: Tree, parent: nat, node: nat)
    requires parent in t.reg
    ensures Unlist(t, parent, node).reg == t.reg[parent := t.reg[parent].(children := Without(t.reg[parent].children, node))]
  {
  }

  lemma ParentField(h: Hive, node: nat)
    requires h.Valid() && node in h.t.reg && h.t.reg[node].parent in h.t.reg
    ensures node in h.cells && h.cells[node].Nk? && P(h.cells[node].parent) == h.t.reg[node].parent && h.t.reg[node].parent in h.cells
  {
    hide Heap.Tiled, Heap.CellsOk, Hive.HeapOk, Hive.Within, RolesOk, RingOk, CountsOk, LinksOk, KidsOk, ValsOk;
    NodeIn(h.cells, h.t, node);
    NkRole(h.cells, h.t, h.t.reg[node].parent);
  }
}
