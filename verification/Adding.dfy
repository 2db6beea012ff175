/** Why the tree stays a tree when add_child is done. */
module Adding {
  import opened Bytes
  import opened Records
  import opened Registry
  import opened Subkeys

  /** The registry with a new last-added child at position k of the parent's children. */
  function AddNode(reg: Reg, parent: nat, node: nat, name: seq<byte>, k: nat): (r: Reg)
    requires parent in reg && k <= |reg[parent].children|
  {
    reg[parent := reg[parent].(children := InsertAt(reg[parent].children, k, node))]
       [node := Info(name, parent, reg[parent].depth + 1, [], [], reg[parent].sk)]
  }

  /** The nk record of a new child of `parent`. */
  ghost function NodeRec(nk: Rec, parent: nat, name: seq<byte>): (r: Rec)
    requires nk.Nk? && 0x1000 <= parent < 0x1_0000_0000
    ensures r.Nk?
  {
    Nk(0x0020, nk.timeLo, nk.timeHi, parent - 0x1000, 0, NONE, NONE, 0, NONE, nk.sk, NONE, 0, 0, 0, name)
  }

  /** All that add_child changes. */
  ghost predicate Added(c: Cells, t: Tree, c': Cells, t': Tree, parent: nat, node: nat, name: seq<byte>, k: nat) {
    parent in t.reg && parent in c && c[parent].Nk? && k <= |t.reg[parent].children| && 0x1000 <= parent < 0x1_0000_0000
    && node !in c && node != 0 && node != parent && t'.reg == AddNode(t.reg, parent, node, name, k) && t'.ring == t.ring
    && c'.Keys == t'.owner.Keys
    && Is(c', t'.owner, node, NkOf(node)) && c'[node] == NodeRec(c[parent], parent, name)
    && Is(c', t'.owner, parent, NkOf(parent)) && c'[parent].Nk?
    && c'[parent].(nrSubkeys := c[parent].nrSubkeys, subkeyLf := c[parent].subkeyLf, maxSubkey := c[parent].maxSubkey) == c[parent]
    && (var s := t.reg[parent].sk;
        Is(c, t.owner, s, SkOf) && c[s].Sk? && Is(c', t'.owner, s, SkOf) && c'[s].Sk?
        && c'[s] == c[s].(refcount := c'[s].refcount) && c'[s].refcount == c[s].refcount + 1)
    && (forall b :: b in t.owner && b != parent && b != t.reg[parent].sk && !(OwnedBy(t.owner[b], parent) && ListRole(t.owner[b])) ==>
          Kept(c, t.owner, c', t'.owner, b))
    && KidsOk(c', t'.owner, parent, t'.reg[parent].children)
    && (forall b :: b in t'.owner ==> b == node || (b in t.owner && t'.owner[b] == t.owner[b])
                                      || (OwnedBy(t'.owner[b], parent) && ListRole(t'.owner[b])))
    && (forall b :: b in t'.owner && OwnedBy(t'.owner[b], parent) && ListRole(t'.owner[b]) ==> RoleOk(c', t'.reg, b, t'.owner[b]))
  }

  lemma AddedLocal(c: Cells, t: Tree, c': Cells, t': Tree, root: nat, parent: nat, node: nat, name: seq<byte>, k: nat)
    requires TreeOk(c, t, root) && Added(c, t, c', t', parent, node, name, k)
    ensures LocalTo(c, t, c', t', parent) && node !in t.reg
  {
    hide NodesOk, RoleOk, RingOk, CountsOk, LinksOk, KidsOk, NodeRec;
    if node in t.reg { NkRole(c, t, node); }
    NkRole(c, t, parent);
  }

  lemma AddedNodes(c: Cells, t: Tree, c': Cells, t': Tree, root: nat, parent: nat, node: nat, name: seq<byte>, k: nat)
    requires TreeOk(c, t, root) && Added(c, t, c', t', parent, node, name, k)
    ensures NodesOk(c', t')
  {
    hide RoleOk, RingOk, CountsOk, LinksOk, KidsOk, ValsOk, NodeOk, RolesOk;
    AddedLocal(c, t, c', t', root, parent, node, name, k);
    LocalNodes(c, t, c', t', parent);
    assert NodeOk(c', t'.owner, parent, t'.reg[parent]) by { AddedParent(c, t, c', t', root, parent, node, name, k); }
    assert NodeOk(c', t'.owner, node, t'.reg[node]) by { AddedChild(c, t, c', t', root, parent, node, name, k); }
  }

  lemma AddedParent(c: Cells, t: Tree, c': Cells, t': Tree, root: nat, parent: nat, node: nat, name: seq<byte>, k: nat)
    requires TreeOk(c, t, root) && Added(c, t, c', t', parent, node, name, k)
    ensures NodeOk(c', t'.owner, parent, t'.reg[parent])
  {
    hide RoleOk, RingOk, CountsOk, LinksOk, KidsOk, ValsOk, NodesOk, RolesOk, NodeRec;
    NodeIn(c, t, parent);
    var o, o' := t.owner, t'.owner;
    if c[parent].classname != NONE { assert Kept(c, o, c', o', P(c[parent].classname)); }
    ValsFrame(c, o, c', o', parent, t.reg[parent].values);
  }

  lemma AddedChild(c: Cells, t: Tree, c': Cells, t': Tree, root: nat, parent: nat, node: nat, name: seq<byte>, k: nat)
    requires TreeOk(c, t, root) && Added(c, t, c', t', parent, node, name, k)
    ensures NodeOk(c', t'.owner, node, t'.reg[node])
  {
    hide RoleOk, RingOk, CountsOk, LinksOk, NodesOk, RolesOk;
    NodeIn(c, t, parent);
  }

  lemma AddedRoles(c: Cells, t: Tree, c': Cells, t': Tree, root: nat, parent: nat, node: nat, name: seq<byte>, k: nat)
    requires TreeOk(c, t, root) && Added(c, t, c', t', parent, node, name, k)
    ensures RolesOk(c', t')
  {
    hide RoleOk, RingOk, CountsOk, LinksOk, KidsOk, ValsOk, NodesOk, NodeOk, NodeRec;
    AddedLocal(c, t, c', t', root, parent, node, name, k);
    LocalRoles(c, t, c', t', parent);
    forall b | b in t'.owner
      ensures RoleOk(c', t'.reg, b, t'.owner[b])
    {
      if b == node {
        assert RoleOk(c', t'.reg, b, NkOf(node)) by { NkRoleNow(c', t'.reg, node); }
      } else if b in t.owner && t'.owner[b] == t.owner[b] && !ListRole(t.owner[b]) {
        assert RoleOk(c, t.reg, b, t.owner[b]);
        if t.owner[b].SkOf? {
          SkRole(c, t, b);
          PlainRole(c, t.reg, c', t'.reg, b, SkOf);
        } else if t.owner[b].n == parent {
          AddedParentRole(c, t, c', t', root, parent, node, name, k, b);
        }
      }
    }
  }

  lemma NkRoleNow(c: Cells, reg: Reg, n: nat)
    requires n in reg && n in c && c[n].Nk?
    ensures RoleOk(c, reg, n, NkOf(n))
  {
  }

  lemma AddedParentRole(c: Cells, t: Tree, c': Cells, t': Tree, root: nat, parent: nat, node: nat, name: seq<byte>, k: nat, b: nat)
    requires TreeOk(c, t, root) && Added(c, t, c', t', parent, node, name, k)
    requires b in t.owner && OwnedBy(t.owner[b], parent) && !ListRole(t.owner[b])
    ensures RoleOk(c', t'.reg, b, t.owner[b])
  {
    hide RingOk, CountsOk, LinksOk, KidsOk, ValsOk, NodesOk, NodeRec;
    assert RoleOk(c, t.reg, b, t.owner[b]);
    hide RoleOk, RolesOk;
    NodeIn(c, t, parent);
    if ValueRole(t.owner[b]) {
      ValueRoleFrame(c, t.owner, t.reg, c', t'.owner, t'.reg, b);
    } else {
      PlainRole(c, t.reg, c', t'.reg, b, t.owner[b]);
    }
  }

  lemma AddedCounts(c: Cells, t: Tree, c': Cells, t': Tree, root: nat, parent: nat, node: nat, name: seq<byte>, k: nat)
    requires TreeOk(c, t, root) && Added(c, t, c', t', parent, node, name, k)
    ensures CountsOk(c', t')
  {
    hide RoleOk, RingOk, LinksOk, KidsOk, ValsOk, NodesOk, RolesOk, NodeRec, InsertAt;
    AddedLocal(c, t, c', t', root, parent, node, name, k);
    var s0 := t.reg[parent].sk;
    forall s | s in t'.owner && t'.owner[s].SkOf?
      ensures s in c' && c'[s].Sk? && c'[s].refcount == |Users(t'.reg, s)|
    {
      assert s in t.owner && t.owner[s].SkOf?;
      UsersAdded(t.reg, parent, node, name, k, s);
      if s != s0 { assert Kept(c, t.owner, c', t'.owner, s); }
    }
    forall n | n in t'.reg && t'.reg[n].sk != 0
      ensures t'.reg[n].sk in t'.owner && t'.owner[t'.reg[n].sk].SkOf?
    {
      var s := t'.reg[n].sk;
      assert exists m :: m in t.reg && t.reg[m].sk == s by { assert t.reg[if n == node then parent else n].sk == s; }
      if s != s0 { assert Kept(c, t.owner, c', t'.owner, s); }
    }
  }

  lemma UsersAdded(reg: Reg, parent: nat, node: nat, name: seq<byte>, k: nat, s: nat)
    requires parent in reg && k <= |reg[parent].children| && node !in reg
    ensures |Users(AddNode(reg, parent, node, name, k), s)| == |Users(reg, s)| + if reg[parent].sk == s then 1 else 0
  {
    hide InsertAt;
    UsersGrow(reg, AddNode(reg, parent, node, name, k), node, s);
  }

  lemma UsersGrow(reg: Reg, reg': Reg, node: nat, s: nat)
    requires node !in reg && reg'.Keys == reg.Keys + {node} && forall n :: n in reg ==> reg'[n].sk == reg[n].sk
    ensures |Users(reg', s)| == |Users(reg, s)| + if reg'[node].sk == s then 1 else 0
  {
    if reg'[node].sk == s {
      assert Users(reg', s) == Users(reg, s) + {node};
    } else {
      assert Users(reg', s) == Users(reg, s);
    }
  }

  lemma AddedRing(c: Cells, t: Tree, c': Cells, t': Tree, root: nat, parent: nat, node: nat, name: seq<byte>, k: nat)
    requires TreeOk(c, t, root) && Added(c, t, c', t', parent, node, name, k)
    ensures RingOk(c', t')
  {
    hide RoleOk, RingOk, LinksOk, KidsOk, ValsOk, NodesOk, RolesOk, NodeRec, InsertAt, CountsOk;
    forall b | b in t.owner && t.owner[b].SkOf?
      ensures SkLinksKept(c, t.owner, c', t'.owner, b)
    {
      SkRole(c, t, b);
      if b != t.reg[parent].sk { ParentIsNk(c, t, parent); assert Kept(c, t.owner, c', t'.owner, b); }
    }
    RingFrame(c, t, c', t');
  }

  lemma ParentIsNk(c: Cells, t: Tree, parent: nat)
    requires NodesOk(c, t) && parent in t.reg
    ensures parent in t.owner && t.owner[parent] == NkOf(parent)
  {
    NkRole(c, t, parent);
  }

  lemma AddedLinks(reg: Reg, root: nat, parent: nat, node: nat, name: seq<byte>, k: nat)
    requires LinksOk(reg, root) && parent in reg && node !in reg && k <= |reg[parent].children|
    ensures LinksOk(AddNode(reg, parent, node, name, k), root)
  {
    assert KidsLinked(reg, parent);
    AddedGrown(reg, parent, node, name, k);
    hide LinksOk, Grown, AddNode;
    LinksGrow(reg, AddNode(reg, parent, node, name, k), root, parent, node);
  }

  lemma AddedGrown(reg: Reg, parent: nat, node: nat, name: seq<byte>, k: nat)
    requires parent in reg && KidsLinked(reg, parent) && node !in reg && k <= |reg[parent].children|
    ensures Grown(reg, AddNode(reg, parent, node, name, k), parent, node)
  {
    hide InsertAt, Distinct;
    InsertMembers(reg[parent].children, k, node);
  }

  ghost predicate Grown(reg: Reg, reg': Reg, parent: nat, node: nat) {
    parent in reg && node !in reg && reg'.Keys == reg.Keys + {node}
    && (forall n :: n in reg && n != parent ==> reg'[n] == reg[n])
    && reg'[node].parent == parent && reg'[node].depth == reg[parent].depth + 1 && reg'[node].children == []
    && reg'[parent].parent == reg[parent].parent && reg'[parent].depth == reg[parent].depth
    && Distinct(reg'[parent].children)
    && (forall x :: x in reg'[parent].children <==> x == node || x in reg[parent].children)
  }

  lemma KidsGrow(reg: Reg, reg': Reg, parent: nat, node: nat, n: nat)
    requires Grown(reg, reg', parent, node) && n in reg && KidsLinked(reg, n)
    ensures KidsLinked(reg', n)
  {
    hide Distinct;
  }

  lemma ParentGrow(reg: Reg, reg': Reg, root: nat, parent: nat, node: nat, n: nat)
    requires Grown(reg, reg', parent, node) && LinksOk(reg, root) && n in reg' && n != root
    ensures reg'[n].parent in reg' && n in reg'[reg'[n].parent].children
  {
    hide Distinct, KidsLinked;
  }

  lemma LinksGrow(reg: Reg, reg': Reg, root: nat, parent: nat, node: nat)
    requires LinksOk(reg, root) && Grown(reg, reg', parent, node)
    ensures LinksOk(reg', root)
  {
    forall n | n in reg'
      ensures KidsLinked(reg', n) && (n != root ==> reg'[n].parent in reg' && n in reg'[reg'[n].parent].children)
    {
      if n != root { ParentGrow(reg, reg', root, parent, node, n); }
      hide Distinct, Grown, KidsLinked;
      if n in reg { KidsGrow(reg, reg', parent, node, n); } else { LeafLinked(reg, reg', parent, node); }
    }
    assert reg'[root].depth == 0;
  }

  lemma LeafLinked(reg: Reg, reg': Reg, parent: nat, node: nat)
    requires Grown(reg, reg', parent, node)
    ensures node in reg' && KidsLinked(reg', node) && forall n :: n in reg' && n !in reg ==> n == node
  {
    hide Distinct;
    NoneDistinct();
  }

  lemma NoneDistinct()
    ensures Distinct([])
  {
  }

  lemma InsertMembers(s: seq<nat>, k: nat, x: nat)
    requires k <= |s| && Distinct(s) && x !in s
    ensures Distinct(InsertAt(s, k, x)) && forall y :: y in InsertAt(s, k, x) <==> y == x || y in s
  {
    var r := InsertAt(s, k, x);
    forall y | y in s
      ensures y in r
    {
      var i :| 0 <= i < |s| && s[i] == y;
      assert r[if i < k then i else i + 1] == y;
    }
    assert r[k] == x;
  }

  /** add_child, done: the records stand for the tree with one more node in its place. */
  lemma AddedTree(c: Cells, t: Tree, c': Cells, t': Tree, root: nat, parent: nat, node: nat, name: seq<byte>, k: nat)
    requires TreeOk(c, t, root) && Added(c, t, c', t', parent, node, name, k)
    ensures TreeOk(c', t', root)
  {
    AddedNodes(c, t, c', t', root, parent, node, name, k);
    AddedRoles(c, t, c', t', root, parent, node, name, k);
    AddedRing(c, t, c', t', root, parent, node, name, k);
    AddedCounts(c, t, c', t', root, parent, node, name, k);
    AddedLocal(c, t, c', t', root, parent, node, name, k);
    hide NodesOk, RolesOk, RingOk, CountsOk, LinksOk, KidsOk;
    AddedLinks(t.reg, root, parent, node, name, k);
  }
}
