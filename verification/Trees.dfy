/** The registry as a nested tree: reading it back, and what the operations do to it. */
module Trees {
  import opened Bytes
  import opened Registry
  import opened Hives
  import opened Readers
  import opened Values
  import opened Subkeys
  import opened Adding
  import opened AddChild
  import opened Subtrees
  import opened DeleteChild

  datatype Node = Node(name: seq<byte>, values: seq<Value>, kids: seq<Node>)

  lemma SubSmaller(reg: Reg, root: nat, n: nat, i: nat)
    requires LinksOk(reg, root) && n in reg && i < |reg[n].children|
    ensures reg[n].children[i] in reg && Sub(reg, root, reg[n].children[i]) < Sub(reg, root, n)
  {
    hide LinksOk, Under;
    SubKidsStep(reg, root, n, i);
    SubIs(reg, root, n);
    SubKidsGrow(reg, root, n, i);
    assert n in Sub(reg, root, n);
  }

  /** The subtree at n, nested. */
  ghost function Unfold(reg: Reg, root: nat, n: nat): Node
    requires LinksOk(reg, root) && n in reg
    decreases Sub(reg, root, n)
  {
    Node(reg[n].name, reg[n].values,
         seq(|reg[n].children|, i requires 0 <= i < |reg[n].children| =>
           SubSmaller(reg, root, n, i);
           Unfold(reg, root, reg[n].children[i])))
  }

  // ---------- reading the tree back

  /** All values of a node through get_values and the value readers. */
  method ReadAll(h: Hive, n: nat, ghost o: Owner, ghost vals: seq<Value>) returns (r: Result<seq<Value>>)
    requires h.HeapOk()
    ensures HoldsValues(h, o, n, vals) ==> r == if |vals| <= MAX_VALUES then Ok(vals) else Err(ERANGE)
  {
    hide Heap.Tiled, Heap.CellsOk, Hive.HeapOk, Hive.Within, HoldsValues, ValueOk, VkOffsets, LastMatch, ValuesGood,
      ValuesOf;
    if HoldsValues(h, o, n, vals) { ValuesThere(h, o, n, vals); }
    var got := GetValues(h, n, o, vals);
    if got.Err? {
      return Err(got.errno);
    }
    var all := ReadValues(h, got.value.0, [], o, n, vals);
    if all.Err? {
      return Err(all.errno);
    }
    return Ok(all.value.0);
  }

  /** Name, values and children of a node, recursively, through the readers only. */
  method ReadTree(h: Hive, n: nat, ghost S: set<nat>) returns (r: Result<Node>)
    requires h.Valid() && LinksOk(h.t.reg, h.rootoffs) && n in h.t.reg && S == Sub(h.t.reg, h.rootoffs, n)
    ensures r == if Readable(h.t.reg, S) then Ok(Unfold(h.t.reg, h.rootoffs, n)) else Err(ERANGE)
    decreases S
  {
    hide Heap.Tiled, Heap.CellsOk, Hive.HeapOk, Hive.Within, TreeOk, LinksOk, KidsOk, ValsOk, NodeOk, Under, Sub,
      SubKids, ValueRolesOk, ChildrenGood, ChildrenOf, BlocksFound, NameGood;
    ghost var reg, root := h.t.reg, h.rootoffs;
    SubIs(reg, root, n);
    NoKidsYet(reg, root, n);
    LiveNode(h, n);
    NodeParts(h.cells, h.t.owner, n, reg[n]);
    LiveKids(h, n);
    var name := NodeName(h, n);
    if name.Err? {
      return Err(EFAULT);
    }
    var values := ReadAll(h, n, h.t.owner, reg[n].values);
    if values.Err? {
      return Err(values.errno);
    }
    var got := GetChildren(h, n, true, h.t.owner, reg[n].children);
    if got.Err? {
      return Err(got.errno);
    }
    var children, kids := got.value.0, [];
    for i := 0 to |children|
      invariant |kids| == i && forall j :: 0 <= j < i ==> kids[j] == Unfold(reg, root, reg[n].children[j])
      invariant Readable(reg, SubKids(reg, root, n, i))
    {
      SubSmaller(reg, root, n, i);
      SubKidsStep(reg, root, n, i);
      var kid := ReadTree(h, children[i], Sub(reg, root, children[i]));
      if kid.Err? {
        return Err(kid.errno);
      }
      kids := kids + [kid.value];
    }
    assert kids == Unfold(reg, root, n).kids;
    return Ok(Node(name.value, values.value, kids));
  }

  // ---------- what the operations do to nested trees

  /** A subtree depends only on the nodes in it. */
  lemma {:induction false} UnfoldFrame(reg: Reg, reg': Reg, root: nat, n: nat)
    requires LinksOk(reg, root) && LinksOk(reg', root) && n in reg
    requires forall m :: m in Sub(reg, root, n) ==> m in reg' && reg'[m].name == reg[m].name && reg'[m].values == reg[m].values
                                                    && reg'[m].children == reg[m].children
    ensures n in reg' && Unfold(reg', root, n) == Unfold(reg, root, n)
    decreases Sub(reg, root, n)
  {
    hide LinksOk, Sub;
    SubIs(reg, root, n);
    var kids := reg[n].children;
    forall i | 0 <= i < |kids|
      ensures kids[i] in reg && kids[i] in reg' && Unfold(reg', root, kids[i]) == Unfold(reg, root, kids[i])
    {
      SubSmaller(reg, root, n, i);
      UnfoldFrame(reg, reg', root, kids[i]);
    }
  }

  /** set_values leaves every subtree without the node as it was, and the node's own children. */
  lemma SetUntouched(reg: Reg, root: nat, n: nat, vals: seq<Value>, m: nat)
    requires LinksOk(reg, root) && n in reg && m in reg && n !in Sub(reg, root, m)
    ensures var reg' := reg[n := reg[n].(values := vals)];
            LinksOk(reg', root) && Unfold(reg', root, m) == Unfold(reg, root, m)
  {
    hide LinksOk, Sub, Unfold;
    var reg' := reg[n := reg[n].(values := vals)];
    LinksFrame(reg, reg', root);
    UntouchedBy(reg, reg', root, n, m);
  }

  /** A change of one node is not seen in subtrees without it. */
  lemma UntouchedBy(reg: Reg, reg': Reg, root: nat, n: nat, m: nat)
    requires LinksOk(reg, root) && LinksOk(reg', root) && m in reg && n !in Sub(reg, root, m)
    requires forall x :: x in reg && x != n ==> x in reg' && reg'[x] == reg[x]
    ensures m in reg' && Unfold(reg', root, m) == Unfold(reg, root, m)
  {
    hide LinksOk, Sub, Unfold;
    SubIn(reg, root, m);
    UnfoldFrame(reg, reg', root, m);
  }

  /** add_child leaves every subtree without the parent as it was. */
  lemma AddUntouched(reg: Reg, root: nat, parent: nat, node: nat, name: seq<byte>, k: nat, m: nat)
    requires LinksOk(reg, root) && parent in reg && node !in reg && k <= |reg[parent].children|
    requires m in reg && parent !in Sub(reg, root, m)
    ensures var reg' := AddNode(reg, parent, node, name, k);
            LinksOk(reg', root) && m in reg' && Unfold(reg', root, m) == Unfold(reg, root, m)
  {
    hide LinksOk, Sub, Unfold, InsertAt;
    AddedLinks(reg, root, parent, node, name, k);
    UntouchedBy(reg, AddNode(reg, parent, node, name, k), root, parent, m);
  }

  /** ... and gives the parent one more leaf, its other children as they were. */
  lemma AddAtParent(reg: Reg, root: nat, parent: nat, node: nat, name: seq<byte>, k: nat)
    requires LinksOk(reg, root) && parent in reg && node !in reg && k <= |reg[parent].children|
    ensures var reg' := AddNode(reg, parent, node, name, k);
            LinksOk(reg', root) && parent in reg'
            && Unfold(reg', root, parent) == Node(reg[parent].name, reg[parent].values,
                                                  InsertAt(Unfold(reg, root, parent).kids, k, Node(name, [], [])))
  {
    hide LinksOk, Sub;
    AddedLinks(reg, root, parent, node, name, k);
    var reg', kids := AddNode(reg, parent, node, name, k), reg[parent].children;
    forall i | 0 <= i < |kids|
      ensures kids[i] in reg && kids[i] in reg' && Unfold(reg', root, kids[i]) == Unfold(reg, root, kids[i])
    {
      hide Unfold, InsertAt;
      SubSmaller(reg, root, parent, i);
      ParentNotUnder(reg, root, parent, i);
      AddUntouched(reg, root, parent, node, name, k, kids[i]);
    }
    var a, b := Unfold(reg', root, parent).kids, InsertAt(Unfold(reg, root, parent).kids, k, Node(name, [], []));
    assert Unfold(reg', root, node) == Node(name, [], []);
    forall i | 0 <= i < |a|
      ensures a[i] == b[i]
    {
    }
    assert a == b;
  }

  lemma ParentNotUnder(reg: Reg, root: nat, n: nat, i: nat)
    requires LinksOk(reg, root) && n in reg && i < |reg[n].children| && reg[n].children[i] in reg
    ensures n !in Sub(reg, root, reg[n].children[i])
  {
    var c := reg[n].children[i];
    KidNotRoot(reg, root, n, c);
    if n in Sub(reg, root, c) { UnderDeeper(reg, root, n, c); }
  }

  /** delete_child leaves every subtree that holds neither parent nor node as it was. */
  lemma DeleteUntouched(reg: Reg, root: nat, node: nat, m: nat)
    requires LinksOk(reg, root) && node in reg && node != root && reg[node].parent in reg
    requires m in reg && reg[node].parent !in Sub(reg, root, m) && m !in Sub(reg, root, node)
    ensures var reg' := DropNode(reg, root, node);
            LinksOk(reg', root) && m in reg' && Unfold(reg', root, m) == Unfold(reg, root, m)
  {
    hide LinksOk, Unfold, Under;
    DroppedLinks(reg, root, node);
    forall x | x in Sub(reg, root, m)
      ensures x !in Sub(reg, root, node)
    {
      if x in Sub(reg, root, node) { Nested(reg, root, x, m, node); }
    }
    UnfoldFrame(reg, DropNode(reg, root, node), root, m);
  }

  /** Two subtrees with a common node lie one in the other. */
  lemma {:induction false} Nested(reg: Reg, root: nat, x: nat, m: nat, node: nat)
    requires LinksOk(reg, root) && x in reg && m in reg && node in reg && Under(reg, root, x, m) && Under(reg, root, x, node)
    requires node != root && reg[node].parent in reg
    ensures Under(reg, root, reg[node].parent, m) || Under(reg, root, m, node)
    decreases reg[x].depth
  {
    if x != m {
      ParentAbove(reg, root, x);
      if x != node { Nested(reg, root, reg[x].parent, m, node); }
    }
  }
}
