/** On a well-formed hive the visitor reaches every node of the subtree, each once. */
module VisitTree {
  import opened Bitmap
  import opened Registry
  import opened Hives
  import opened Readers
  import opened Values
  import opened AddChild
  import opened Subtrees
  import opened DeleteChild
  import opened Trees
  import opened Visitor

  /** The readers find the nodes S of reg as they are. */
  ghost predicate Reads(g: Image, reg: Reg, S: set<nat>) {
    forall n :: n in S && n in reg ==> ValuesFit(g, n) && g.children(n) == Ok(reg[n].children)
  }

  lemma {:induction false} TreeForest(g: Image, reg: Reg, root: nat, n: nat, S: set<nat>) returns (f: Forest)
    requires LinksOk(reg, root) && Reads(g, reg, S) && n in reg && Sub(reg, root, n) <= S
    ensures Visitor.Fits(g, f) && Roots(f) == [n] && Once(f) && Nodes(f) == Sub(reg, root, n)
    decreases Sub(reg, root, n), |reg[n].children| + 1
  {
    hide LinksOk, Sub, SubKids, ValuesFit;
    SubIs(reg, root, n);
    NoKidsYet(reg, root, n);
    var kids := KidsForest(g, reg, root, n, 0, S);
    f := Cons(n, kids, Nil);
    assert Roots(Nil) == [] && reg[n].children[0..] == reg[n].children;
  }

  lemma {:induction false} KidsForest(g: Image, reg: Reg, root: nat, n: nat, i: nat, S: set<nat>) returns (f: Forest)
    requires LinksOk(reg, root) && Reads(g, reg, S) && n in reg && Sub(reg, root, n) <= S && i <= |reg[n].children|
    ensures Visitor.Fits(g, f) && Roots(f) == reg[n].children[i..] && Once(f)
    ensures Nodes(f) == SubKids(reg, root, n, |reg[n].children|) - SubKids(reg, root, n, i)
    decreases Sub(reg, root, n), |reg[n].children| - i
  {
    hide LinksOk, Sub, SubKids, ValuesFit, Reads;
    if i == |reg[n].children| {
      f := Nil;
    } else {
      SubKidsStep(reg, root, n, i);
      SubKidsGrow(reg, root, n, i);
      SubSmaller(reg, root, n, i);
      var k := reg[n].children[i];
      var tree := TreeForest(g, reg, root, k, S);
      var rest := KidsForest(g, reg, root, n, i + 1, S);
      assert tree.n == Roots(tree)[0] && Roots(tree.rest) == Roots(tree)[1..];
      f := Cons(k, tree.kids, rest);
      assert Nodes(tree) == {k} + Nodes(tree.kids);
      assert reg[n].children[i..] == [k] + reg[n].children[i + 1..];
    }
  }

  /** The readers of a valid hive find every node that is within their limits. */
  lemma HiveReads(h: Hive, S: set<nat>)
    requires h.Valid() && Readable(h.t.reg, S)
    ensures Reads(ImageOf(h.addr, h.bitmap), h.t.reg, S)
  {
    hide Heap.Tiled, Heap.CellsOk, Hive.HeapOk, TreeOk, ChildrenGood, ChildrenOf, NodeOk, ValuesFit, KidsOk;
    forall n | n in S && n in h.t.reg
      ensures ValuesFit(ImageOf(h.addr, h.bitmap), n) && ImageOf(h.addr, h.bitmap).children(n) == Ok(h.t.reg[n].children)
    {
      NodeReads(h, n);
      LiveKids(h, n);
      ChildrenHold(h, h.t.owner, n, h.t.reg[n].children, true);
    }
  }

  lemma NodeReads(h: Hive, n: nat)
    requires h.Valid() && n in h.t.reg && |h.t.reg[n].values| <= MAX_VALUES
    ensures ValuesFit(ImageOf(h.addr, h.bitmap), n)
  {
    hide Heap.Tiled, Heap.CellsOk, Hive.HeapOk, TreeOk, NameGood, ValuesOf, KeyGood, DataGood, ValueRolesOk,
      VkOffsets, ChildrenGood, ChildrenOf, KidsOk, ValsOk, ValueOk;
    var vals := h.t.reg[n].values;
    LiveNode(h, n);
    NodeParts(h.cells, h.t.owner, n, h.t.reg[n]);
    NameHolds(h, n);
    ValuesHold(h, h.t.owner, n, vals);
    ValuesThere(h, h.t.owner, n, vals);
    forall k | k in ValuesOf(h.addr, n)
      ensures ValueGood(h.addr, h.bitmap, k)
    {
      var i :| 0 <= i < |vals| && VkOffsets(h.cells, n)[i] == k;
      KeyThere(h, h.t.owner, n, i, k, vals[i]);
      KeyHolds(h, k);
      DataHolds(h, h.t.owner, n, i, k, vals[i]);
    }
  }

  /** Callbacks that never refuse: the visit completes and starts exactly the nodes of the subtree, each once. */
  lemma VisitsAll(h: Hive, n: nat, refuse: seq<Event> -> bool) returns (f: Forest)
    requires h.Valid() && LinksOk(h.t.reg, h.rootoffs) && n in h.t.reg && (forall t :: !refuse(t))
    requires Readable(h.t.reg, Sub(h.t.reg, h.rootoffs, n))
    ensures var g, S := ImageOf(h.addr, h.bitmap), Sub(h.t.reg, h.rootoffs, n);
            Completes(g, f, [n], h.bitmap, refuse, []) && Nodes(f) == S && OnceIn(Trace(g, f), S)
            && (forall m :: m in S ==> Start(m) in Trace(g, f) && End(m) in Trace(g, f))
  {
    hide LinksOk, Reads, Sub, Marks, Heap.Tiled, Heap.CellsOk, Hive.HeapOk, TreeOk, ImageOf;
    var g, S := ImageOf(h.addr, h.bitmap), Sub(h.t.reg, h.rootoffs, n);
    HiveReads(h, S);
    SubIn(h.t.reg, h.rootoffs, n);
    LiveMarked(h, S);
    f := TreeForest(g, h.t.reg, h.rootoffs, n, S);
    TraceOnce(g, f);
  }

  /** hivex_visit_node on a node of a valid hive, with callbacks that never refuse. */
  method VisitSubtree(h: Hive, n: nat, skipBad: bool) returns (ok: bool, trace: seq<Event>)
    requires h.Valid() && LinksOk(h.t.reg, h.rootoffs) && n in h.t.reg && Readable(h.t.reg, Sub(h.t.reg, h.rootoffs, n))
    ensures ok && OnceIn(trace, Sub(h.t.reg, h.rootoffs, n))
    ensures forall m :: m in Sub(h.t.reg, h.rootoffs, n) ==> Start(m) in trace && End(m) in trace
    ensures Visitor.Nested(ImageOf(h.addr, h.bitmap), [Frame(0, [], [n])], trace)
    ensures exists f :: Visitor.Fits(ImageOf(h.addr, h.bitmap), f) && Roots(f) == [n] && trace == Trace(ImageOf(h.addr, h.bitmap), f)
  {
    hide LinksOk, Sub, Marks, Heap.Tiled, Heap.CellsOk, Hive.HeapOk, TreeOk, ImageOf, Visitor.Fits, Trace, Once,
      Nodes, OnceIn, Accepts, Tst, Visitor.Nested, Pruned, Ran;
    LiveBit(h, n);
    ghost var f := VisitsAll(h, n, _ => false);
    TraceNested(ImageOf(h.addr, h.bitmap), f);
    ok, trace := VisitHive(h, n, skipBad, _ => false);
  }

  lemma LiveBit(h: Hive, n: nat)
    requires h.Valid() && n in h.t.reg
    ensures n < 32 * |h.bitmap| && n % 4 == 0
  {
    hide Heap.Tiled, Heap.CellsOk, Hive.HeapOk, TreeOk, Tst;
    LiveMarked(h, {n});
  }
}
