/** Taking one entry out of the lists of a parent, in place. */
module Unlinking {
  import opened Records
  import opened Registry
  import opened Heap
  import opened Hives
  import opened Readers
  import opened Security
  import opened Deleting
  import opened Subkeys

  /** s without its first x. */
  function Without(s: seq<nat>, x: nat): seq<nat> {
    if s == [] then [] else if s[0] == x then s[1..] else [s[0]] + Without(s[1..], x)
  }

  lemma {:induction false} WithoutAt(s: seq<nat>, x: nat, p: nat)
    requires p < |s| && s[p] == x && forall q :: 0 <= q < p ==> s[q] != x
    ensures Without(s, x) == RemoveAt(s, p)
  {
    if p > 0 {
      WithoutAt(s[1..], x, p - 1);
      assert RemoveAt(s, p) == [s[0]] + RemoveAt(s[1..], p - 1);
    }
  }

  /** The licence lets entry j leave the list of k keys at l: the count, and the entries that move. */
  ghost predicate MayCut(L: Licence, l: nat, j: nat, k: nat) {
    j < k && MayPut(L, l, l + 6, 2) && MayPut(L, l, l + 8 + 8 * j, 8 * (k - 1 - j))
  }

  lemma CutCount(L: Licence, l: nat, j: nat, k: nat)
    ensures MayCut(L, l, j, k) ==> MayPut(L, l, l + 6, 2)
  {
  }

  lemma CutKey(L: Licence, l: nat, j: nat, k: nat, i: nat)
    requires j <= i < k - 1
    ensures MayCut(L, l, j, k) ==> MayPut(L, l, l + 8 + 8 * i, 8)
  {
  }

  /** ... the entry for node leave whichever of the lists S holds it. */
  ghost predicate MayUnlist(L: Licence, c: Cells, S: set<nat>, node: nat) {
    forall l, j :: l in S && l in c && c[l].Lf? && 0 <= j < |c[l].keys| && P(c[l].keys[j].off) == node ==>
      MayCut(L, l, j, |c[l].keys|)
  }

  lemma MayUnlistPart(L: Licence, c: Cells, o: Owner, parent: nat, ls: seq<nat>, node: nat)
    requires forall b :: b in ls ==> b in ListSet(o, parent)
    ensures MayUnlist(L, c, ListSet(o, parent), node) ==> MayUnlist(L, c, Elements(ls), node)
  {
    hide MayCut, ListSet;
  }

  /** Shifts the keys after j down by one and drops the last: the list without entry j. */
  method RemoveKey(h: Hive, l: nat, j: nat)
    requires h.HeapOk() && l in h.cells && h.cells[l].Lf? && j < |h.cells[l].keys|
    modifies h`addr, h`cells
    ensures h.HeapOk() && h.cells == old(h.cells)[l := Lf(old(h.cells)[l].lh, RemoveAt(old(h.cells)[l].keys, j))]
    ensures old(h.Within()) && MayCut(h.license, l, j, |old(h.cells)[l].keys|) ==> h.Within()
  {
    hide Heap.Tiled, Heap.CellsOk, Hive.HeapOk, Hive.Within, Shift, RemoveAt, MayCut, MayPut;
    ghost var c, keys := h.cells, h.cells[l].keys;
    var nr := h.LfCount(l);
    Shifted(keys, j, j);
    for i := j to nr - 1
      invariant h.HeapOk() && h.cells == c[l := Lf(c[l].lh, Shift(keys, j, i))]
      invariant old(h.Within()) && MayCut(h.license, l, j, |keys|) ==> h.Within()
    {
      CutKey(h.license, l, j, |keys|, i);
      Shifted(keys, j, i);
      h.LfSetKey(l, i, h.LfKey(l, i + 1));
    }
    Shifted(keys, j, nr - 1);
    CutCount(h.license, l, j, |keys|);
    h.LfSetCount(l, nr - 1);
  }

  /** keys while the entries from j on have been moved down up to position i. */
  ghost function Shift(keys: seq<Key>, j: nat, i: nat): (r: seq<Key>)
    requires j <= i < |keys|
    ensures |r| == |keys|
  {
    keys[..j] + keys[j + 1..i + 1] + keys[i..]
  }

  lemma Shifted(keys: seq<Key>, j: nat, i: nat)
    requires j <= i < |keys|
    ensures i == j ==> Shift(keys, j, i) == keys
    ensures i + 1 < |keys| ==> Shift(keys, j, i)[i + 1] == keys[i + 1] && Shift(keys, j, i)[i := keys[i + 1]] == Shift(keys, j, i + 1)
    ensures i + 1 == |keys| ==> Shift(keys, j, i)[..i] == RemoveAt(keys, j)
  {
  }

  /** The first entry of the list at l that names the node. */
  method FindKey(h: Hive, l: nat, node: nat) returns (found: bool, j: nat)
    requires h.HeapOk() && l in h.cells && h.cells[l].Lf?
    ensures j <= |h.cells[l].keys| && found == (j < |h.cells[l].keys|)
    ensures found ==> KeyPs(h.cells[l].keys)[j] == node
    ensures forall q :: 0 <= q < j ==> KeyPs(h.cells[l].keys)[q] != node
  {
    hide Heap.Tiled, Heap.CellsOk, Hive.HeapOk, Hive.Within;
    j := 0;
    while j < h.LfCount(l)
      invariant j <= |h.cells[l].keys| && forall q :: 0 <= q < j ==> KeyPs(h.cells[l].keys)[q] != node
      decreases |h.cells[l].keys| - j
    {
      if P(h.LfKey(l, j).off) == node {
        return true, j;
      }
      j := j + 1;
    }
    return false, j;
  }

  /** The search in delete_child: removes the entry naming the node from the list that holds it. */
  method RemoveEntry(h: Hive, blocks: seq<nat>, node: nat, ghost ls: seq<nat>) returns (found: bool, ghost i: nat, ghost j: nat)
    requires h.HeapOk() && BlocksOf(h.cells, blocks, ls)
    modifies h`addr, h`cells
    ensures h.HeapOk() && (!found ==> h.cells == old(h.cells))
    ensures node in Flat(old(h.cells), ls) ==> found
    ensures found ==> i < |ls| && ls[i] in old(h.cells) && old(h.cells)[ls[i]].Lf? && j < |old(h.cells)[ls[i]].keys|
                      && AllLf(old(h.cells), ls[..i]) && node !in Flat(old(h.cells), ls[..i])
                      && KeyPs(old(h.cells)[ls[i]].keys)[j] == node
                      && (forall q :: 0 <= q < j ==> KeyPs(old(h.cells)[ls[i]].keys)[q] != node)
                      && h.cells == old(h.cells)[ls[i] := Lf(old(h.cells)[ls[i]].lh, RemoveAt(old(h.cells)[ls[i]].keys, j))]
    ensures old(h.Within()) && MayUnlist(h.license, old(h.cells), Elements(ls), node) ==> h.Within()
  {
    hide Heap.Tiled, Heap.CellsOk, Hive.HeapOk, Hive.Within, Flat, RemoveAt, MayCut;
    ghost var ri := if blocks == ls then 0 else 1;
    i, j := 0, 0;
    ghost var seen: nat := 0;
    EmptyFlat(h.cells, ls);
    for b := 0 to |blocks|
      invariant h.HeapOk() && h.cells == old(h.cells) && h.addr == old(h.addr)
      invariant seen == (if b < ri then 0 else b - ri) && seen <= |ls|
      invariant AllLf(h.cells, ls[..seen]) && node !in Flat(h.cells, ls[..seen])
    {
      assert b >= ri ==> blocks[b] == ls[b - ri];
      if h.HasId(blocks[b], 'l', 'f') || h.HasId(blocks[b], 'l', 'h') {
        i := seen;
        FlatSnoc(h.cells, ls, i);
        var at;
        found, at := FindKey(h, blocks[b], node);
        j := at;
        if found {
          RemoveKey(h, blocks[b], at);
          return;
        }
        assert node !in KeyPs(h.cells[ls[i]].keys);
        seen := seen + 1;
      }
    }
    assert ls[..seen] == ls;
    return false, i, j;
  }

  lemma EmptyFlat(c: Cells, ls: seq<nat>)
    requires AllLf(c, ls)
    ensures AllLf(c, ls[..0]) && Flat(c, ls[..0]) == []
  {
  }

  lemma RemovedPs(keys: seq<Key>, j: nat)
    requires j < |keys|
    ensures KeyPs(RemoveAt(keys, j)) == RemoveAt(KeyPs(keys), j)
  {
  }

  lemma RemoveMiddle(a: seq<nat>, b: seq<nat>, c: seq<nat>, j: nat)
    requires j < |b|
    ensures a + RemoveAt(b, j) + c == RemoveAt(a + b + c, |a| + j)
  {
  }

  /** One list shorter by the entry: the sequence of children without the node. */
  lemma FlatShrinks(c: Cells, c': Cells, ls: seq<nat>, i: nat, j: nat, node: nat)
    requires AllLf(c, ls) && Distinct(ls) && i < |ls| && ls[i] in c && j < |c[ls[i]].keys|
    requires AllLf(c, ls[..i]) && node !in Flat(c, ls[..i]) && KeyPs(c[ls[i]].keys)[j] == node
    requires forall q :: 0 <= q < j ==> KeyPs(c[ls[i]].keys)[q] != node
    requires AllLf(c', ls) && c'[ls[i]].keys == RemoveAt(c[ls[i]].keys, j)
    requires forall x :: 0 <= x < |ls| && x != i ==> c'[ls[x]] == c[ls[x]]
    ensures Flat(c', ls) == Without(Flat(c, ls), node) && |Flat(c', ls)| == |Flat(c, ls)| - 1
  {
    hide Flat, RemoveAt, Without;
    var keys := c[ls[i]].keys;
    FlatSplit(c, ls, i);
    FlatSplit(c', ls, i);
    FlatKept(c, c', ls[..i]);
    FlatKept(c, c', ls[i + 1..]);
    RemovedPs(keys, j);
    var pre, mid, post := Flat(c, ls[..i]), KeyPs(keys), Flat(c, ls[i + 1..]);
    RemoveMiddle(pre, mid, post, j);
    forall q | 0 <= q < |pre| + j
      ensures (pre + mid + post)[q] != node
    {
      if q < |pre| { assert (pre + mid + post)[q] == pre[q]; } else { assert (pre + mid + post)[q] == mid[q - |pre|]; }
    }
    WithoutAt(pre + mid + post, node, |pre| + j);
  }

  // ---------- the tree without the link

  /** The tree once the parent no longer lists the node; a parent left without children gives up its lists. */
  ghost function Unlist(t: Tree, parent: nat, node: nat): Tree
    requires parent in t.reg
  {
    var kids := Without(t.reg[parent].children, node);
    t.(reg := t.reg[parent := t.reg[parent].(children := kids)],
       owner := if kids == [] then t.owner - ListSet(t.owner, parent) else t.owner)
  }

  /** Entry j has been taken out of list i of the parent, and the parent counts one child less. */
  ghost predicate Shortened(c: Cells, t: Tree, parent: nat, node: nat, i: nat, j: nat, c1: Cells) {
    parent in t.reg && parent in c && c[parent].Nk? && c[parent].nrSubkeys > 0 && P(c[parent].subkeyLf) in c
    && (var ls := Lfs(c, P(c[parent].subkeyLf));
        i < |ls| && ls[i] in c && c[ls[i]].Lf? && j < |c[ls[i]].keys| && KeyPs(c[ls[i]].keys)[j] == node
        && AllLf(c, ls[..i]) && node !in Flat(c, ls[..i]) && (forall q :: 0 <= q < j ==> KeyPs(c[ls[i]].keys)[q] != node)
        && c1 == c[ls[i] := Lf(c[ls[i]].lh, RemoveAt(c[ls[i]].keys, j))]
                  [parent := c[parent].(nrSubkeys := c[parent].nrSubkeys - 1)])
  }

  lemma ShortKids(c: Cells, t: Tree, parent: nat, node: nat, i: nat, j: nat, c1: Cells)
    requires PartOk(c, t) && Shortened(c, t, parent, node, i, j, c1)
    ensures parent in c1 && c1[parent].Nk? && KidsOk(c1, t.owner, parent, Without(t.reg[parent].children, node))
    ensures |Without(t.reg[parent].children, node)| == |t.reg[parent].children| - 1 == c1[parent].nrSubkeys
    ensures Lfs(c1, P(c1[parent].subkeyLf)) == Lfs(c, P(c[parent].subkeyLf))
  {
    hide RolesOk, RingOk, CountsOk, ValsOk, Flat, RemoveAt, Without;
    NodeIn(c, t, parent);
    hide NodesOk;
    var l := P(c[parent].subkeyLf);
    var ls := Lfs(c, l);
    assert c[l].Lf? ==> ls[0] == l;
    forall x | 0 <= x < |ls|
      ensures Is(c, t.owner, ls[x], LfOf(parent, x)) && c[ls[x]].Lf?
    {
    }
    assert AllLf(c1, ls) && LfsOk(c1, t.owner, parent, ls) && Lfs(c1, l) == ls;
    FlatShrinks(c, c1, ls, i, j, node);
  }

  lemma ShortListRole(c: Cells, t: Tree, parent: nat, node: nat, i: nat, j: nat, c1: Cells, b: nat)
    requires PartOk(c, t) && Shortened(c, t, parent, node, i, j, c1) && c1[parent].Nk? && c1[parent].nrSubkeys > 0
    requires Lfs(c1, P(c1[parent].subkeyLf)) == Lfs(c, P(c[parent].subkeyLf))
    requires b in t.owner && OwnedBy(t.owner[b], parent) && ListRole(t.owner[b])
    ensures RoleOk(c1, Unlist(t, parent, node).reg, b, t.owner[b])
  {
    hide RingOk, CountsOk, ValsOk, KidsOk, Flat, RemoveAt, Without, NodesOk;
    assert RoleOk(c, t.reg, b, t.owner[b]);
    assert Is(c, t.owner, parent, NkOf(parent)) by { NkRole(c, t, parent); }
  }

  /** Blocks other than the parent's record and lists are as before. */
  lemma ShortKept(c: Cells, t: Tree, parent: nat, node: nat, i: nat, j: nat, c1: Cells, b: nat)
    requires PartOk(c, t) && Shortened(c, t, parent, node, i, j, c1) && b in t.owner && b != parent
    requires !(OwnedBy(t.owner[b], parent) && ListRole(t.owner[b]))
    ensures b in c && b in c1 && c1[b] == c[b]
  {
    hide RingOk, CountsOk, ValsOk, Flat, RemoveAt, Without, RoleOk;
    NodeIn(c, t, parent);
    hide NodesOk;
    assert Is(c, t.owner, Lfs(c, P(c[parent].subkeyLf))[i], LfOf(parent, i));
  }

  /** The parent as a node of the new tree. */
  lemma ShortNode(c: Cells, t: Tree, parent: nat, node: nat, i: nat, j: nat, c1: Cells, o': Owner, c': Cells)
    requires PartOk(c, t) && Shortened(c, t, parent, node, i, j, c1) && ValuesKept(c, t.owner, c', o', parent)
    requires parent in c' && c'[parent] == c1[parent] && c1[parent].Nk? && Is(c', o', parent, NkOf(parent))
    requires c[parent].classname != NONE ==> Kept(c, t.owner, c', o', P(c[parent].classname))
    requires KidsOk(c', o', parent, Without(t.reg[parent].children, node))
    ensures NodeOk(c', o', parent, Unlist(t, parent, node).reg[parent])
  {
    hide RingOk, CountsOk, ValsOk, Flat, RemoveAt, Without, RoleOk, KidsOk, RolesOk;
    NodeIn(c, t, parent);
    ValsFrame(c, t.owner, c', o', parent, t.reg[parent].values);
  }

  /** The records tracked after the unlinking: lists of a childless parent stay used but belong to nothing. */
  ghost function Tracked(c1: Cells, t: Tree, parent: nat, node: nat): Cells
    requires parent in t.reg
  {
    if Without(t.reg[parent].children, node) == [] then c1 - ListSet(t.owner, parent) else c1
  }

  lemma UnlistKept(c: Cells, t: Tree, parent: nat, node: nat, i: nat, j: nat, c1: Cells, c': Cells, t': Tree)
    requires PartOk(c, t) && Shortened(c, t, parent, node, i, j, c1)
    requires c' == Tracked(c1, t, parent, node) && t' == Unlist(t, parent, node)
    ensures forall b :: b in t.owner && b != parent && !(OwnedBy(t.owner[b], parent) && ListRole(t.owner[b])) ==>
               Kept(c, t.owner, c', t'.owner, b)
    ensures Is(c', t'.owner, parent, NkOf(parent)) && c'[parent] == c1[parent] && c'.Keys == t'.owner.Keys
    ensures forall b :: b in t'.owner ==> b in t.owner && t'.owner[b] == t.owner[b]
  {
    hide RingOk, CountsOk, NodesOk, RoleOk, Without;
    NkRole(c, t, parent);
    forall b | b in t.owner && b != parent && !(OwnedBy(t.owner[b], parent) && ListRole(t.owner[b]))
      ensures Kept(c, t.owner, c', t'.owner, b)
    {
      ShortKept(c, t, parent, node, i, j, c1, b);
    }
    assert c1.Keys == c.Keys;
  }

  /** delete_child's last step, seen from the tree. */
  lemma Unlisted(c: Cells, t: Tree, parent: nat, node: nat, i: nat, j: nat, c1: Cells, c': Cells, t': Tree)
    requires PartOk(c, t) && parent in t.reg && Shortened(c, t, parent, node, i, j, c1)
    requires c' == Tracked(c1, t, parent, node) && t' == Unlist(t, parent, node)
    ensures PartOk(c', t')
  {
    hide PartOk, Shortened, RoleOk, KidsOk, Without, NodeOk;
    UnlistKept(c, t, parent, node, i, j, c1, c', t');
    ShortKids(c, t, parent, node, i, j, c1);
    UnlistNode(c, t, parent, node, i, j, c1, c', t');
    forall b | b in t'.owner && OwnedBy(t'.owner[b], parent)
      ensures RoleOk(c', t'.reg, b, t'.owner[b])
    {
      UnlistRole(c, t, parent, node, i, j, c1, c', t', b);
    }
    ParentIsNode(c, t, parent);
    LocalPart(c, t, c', t', parent);
  }

  lemma ParentIsNode(c: Cells, t: Tree, parent: nat)
    requires PartOk(c, t) && parent in t.reg
    ensures parent in t.owner && t.owner[parent] == NkOf(parent)
  {
    hide RingOk, CountsOk, RolesOk;
    NkRole(c, t, parent);
  }

  lemma UnlistNode(c: Cells, t: Tree, parent: nat, node: nat, i: nat, j: nat, c1: Cells, c': Cells, t': Tree)
    requires PartOk(c, t) && parent in t.reg && Shortened(c, t, parent, node, i, j, c1)
    requires c' == Tracked(c1, t, parent, node) && t' == Unlist(t, parent, node)
    requires forall b :: b in t.owner && b != parent && !(OwnedBy(t.owner[b], parent) && ListRole(t.owner[b])) ==>
               Kept(c, t.owner, c', t'.owner, b)
    requires Is(c', t'.owner, parent, NkOf(parent)) && c'[parent] == c1[parent] && c1[parent].Nk?
    requires KidsOk(c1, t.owner, parent, Without(t.reg[parent].children, node))
    ensures NodeOk(c', t'.owner, parent, t'.reg[parent])
  {
    hide RingOk, CountsOk, ValsOk, Flat, RemoveAt, Without, RoleOk, RolesOk, Shortened;
    NodeIn(c, t, parent);
    hide NodesOk;
    if c[parent].classname != NONE { assert Kept(c, t.owner, c', t'.owner, P(c[parent].classname)); }
    ShortNode(c, t, parent, node, i, j, c1, t'.owner, c');
  }

  lemma UnlistRole(c: Cells, t: Tree, parent: nat, node: nat, i: nat, j: nat, c1: Cells, c': Cells, t': Tree, b: nat)
    requires PartOk(c, t) && parent in t.reg && Shortened(c, t, parent, node, i, j, c1)
    requires c' == Tracked(c1, t, parent, node) && t' == Unlist(t, parent, node)
    requires forall x :: x in t.owner && x != parent && !(OwnedBy(t.owner[x], parent) && ListRole(t.owner[x])) ==>
               Kept(c, t.owner, c', t'.owner, x)
    requires c1[parent].Nk? && c1[parent].nrSubkeys == |Without(t.reg[parent].children, node)|
    requires parent in c' && c'[parent] == c1[parent] && Lfs(c1, P(c1[parent].subkeyLf)) == Lfs(c, P(c[parent].subkeyLf))
    requires b in t'.owner && OwnedBy(t'.owner[b], parent)
    ensures RoleOk(c', t'.reg, b, t'.owner[b])
  {
    hide RingOk, CountsOk, ValsOk, Flat, RemoveAt, Without, RoleOk, NodesOk, Shortened;
    if ListRole(t.owner[b]) {
      ShortListRole(c, t, parent, node, i, j, c1, b);
    } else {
      ParentIsNode(c, t, parent);
      UnlistPlain(c, t, parent, node, i, j, c1, c', t', b);
    }
  }

  lemma UnlistPlain(c: Cells, t: Tree, parent: nat, node: nat, i: nat, j: nat, c1: Cells, c': Cells, t': Tree, b: nat)
    requires PartOk(c, t) && parent in t.reg && Shortened(c, t, parent, node, i, j, c1) && t' == Unlist(t, parent, node)
    requires ValuesKept(c, t.owner, c', t'.owner, parent) && parent in c' && c'[parent] == c1[parent]
    requires b in t.owner && OwnedBy(t.owner[b], parent) && !ListRole(t.owner[b])
    ensures RoleOk(c', t'.reg, b, t.owner[b])
  {
    hide RingOk, CountsOk, ValsOk, KidsOk, Flat, RemoveAt, Without, NodesOk;
    assert RoleOk(c, t.reg, b, t.owner[b]);
    hide RoleOk, RolesOk;
    NodeIn(c, t, parent);
    if ValueRole(t.owner[b]) {
      ValueRoleFrame(c, t.owner, t.reg, c', t'.owner, t'.reg, b);
    } else {
      PlainRole(c, t.reg, c', t'.reg, b, t.owner[b]);
    }
  }

  lemma ParentListed(c: Cells, t: Tree, parent: nat)
    requires PartOk(c, t) && parent in t.reg && t.reg[parent].children != []
    ensures parent in c && c[parent].Nk? && KidsOk(c, t.owner, parent, t.reg[parent].children)
    ensures c[parent].nrSubkeys == |t.reg[parent].children| && P(c[parent].subkeyLf) in c
    ensures BlocksOf(c, ListBlocks(c, parent), Lfs(c, P(c[parent].subkeyLf)))
    ensures Flat(c, Lfs(c, P(c[parent].subkeyLf))) == t.reg[parent].children && parent !in Lfs(c, P(c[parent].subkeyLf))
    ensures parent !in ListSet(t.owner, parent) && forall b :: b in Lfs(c, P(c[parent].subkeyLf)) ==> b in ListSet(t.owner, parent)
  {
    hide RolesOk, CountsOk, RingOk, ValsOk;
    NodeIn(c, t, parent);
    hide NodesOk;
    var l := P(c[parent].subkeyLf);
    var ls := Lfs(c, l);
    forall i | 0 <= i < |ls|
      ensures ls[i] != parent && ls[i] in ListSet(t.owner, parent)
    {
      assert Is(c, t.owner, ls[i], LfOf(parent, i));
    }
    if c[l].Ri? { assert ([l] + ls)[1..] == ls; }
  }

  /** The nk record of the parent counts one child less, and is otherwise the same. */
  ghost predicate OneLess(c: Cells, c': Cells, parent: nat) {
    parent in c && c[parent].Nk? && c[parent].nrSubkeys > 0 && parent in c'
    && c'[parent] == c[parent].(nrSubkeys := c[parent].nrSubkeys - 1)
  }

  /** The link from parent to child: one entry less in one list, one child less in the parent. */
  method UnlinkChild(h: Hive, parent: nat, node: nat) returns (r: Result<()>)
    requires h.HeapOk() && h.writable && PartOk(h.cells, h.t) && parent in h.t.reg && node in h.t.reg[parent].children
    modifies h`addr, h`cells, h`t
    ensures h.HeapOk()
    ensures r.Ok? <==> |old(h.t.reg)[parent].children| <= MAX_SUBKEYS
    ensures r.Ok? ==> PartOk(h.cells, h.t) && h.t == Unlist(old(h.t), parent, node)
    ensures r.Ok? ==> OneLess(old(h.cells), h.cells, parent)
    ensures (old(h.Within()) && MayPut(h.license, parent, parent + 24, 4)
             && MayUnlist(h.license, old(h.cells), ListSet(old(h.t.owner), parent), node)) ==> h.Within()
  {
    hide Heap.Tiled, Heap.CellsOk, Hive.HeapOk, Hive.Within, PartOk, KidsOk, Flat, RemoveAt, Unlist, Tracked,
      Shortened, MayUnlist, Elements, ChildrenGood, ChildrenOf, BlocksFound;
    ghost var c, t := h.cells, h.t;
    ParentListed(c, t, parent);
    ghost var ls := Lfs(c, P(c[parent].subkeyLf));
    var got := GetChildren(h, parent, false, t.owner, t.reg[parent].children);
    if got.Err? {
      return Err(got.errno);
    }
    var found;
    ghost var i, j;
    MayUnlistPart(h.license, c, t.owner, parent, ls, node);
    found, i, j := RemoveEntry(h, got.value.1, node, ls);
    if !found {
      return Err(ENOTSUP);
    }
    h.NkSet(parent, NrSubkeys, h.NkGet(parent, NrSubkeys) - 1);
    ghost var c1 := h.cells;
    assert Shortened(c, t, parent, node, i, j, c1) by { ShortenedNow(c, t, parent, node, i, j, c1); }
    if Without(t.reg[parent].children, node) == [] { h.Forget(ListSet(t.owner, parent)); }
    assert h.cells == Tracked(c1, t, parent, node) by { TrackedIs(c1, t, parent, node); }
    Unlisted(c, t, parent, node, i, j, c1, h.cells, Unlist(t, parent, node));
    h.t := Unlist(t, parent, node);
    return Ok(());
  }

  lemma TrackedIs(c1: Cells, t: Tree, parent: nat, node: nat)
    requires parent in t.reg
    ensures Tracked(c1, t, parent, node) == if Without(t.reg[parent].children, node) == [] then c1 - ListSet(t.owner, parent) else c1
  {
  }

  lemma ShortenedNow(c: Cells, t: Tree, parent: nat, node: nat, i: nat, j: nat, c1: Cells)
    requires parent in t.reg && parent in c && c[parent].Nk? && c[parent].nrSubkeys > 0 && P(c[parent].subkeyLf) in c
    requires var ls := Lfs(c, P(c[parent].subkeyLf));
             i < |ls| && ls[i] in c && c[ls[i]].Lf? && j < |c[ls[i]].keys| && KeyPs(c[ls[i]].keys)[j] == node && parent !in ls
             && AllLf(c, ls[..i]) && node !in Flat(c, ls[..i]) && (forall q :: 0 <= q < j ==> KeyPs(c[ls[i]].keys)[q] != node)
             && c1 == c[ls[i] := Lf(c[ls[i]].lh, RemoveAt(c[ls[i]].keys, j))]
                       [parent := c[parent].(nrSubkeys := c[parent].nrSubkeys - 1)]
    ensures Shortened(c, t, parent, node, i, j, c1)
  {
  }
}
