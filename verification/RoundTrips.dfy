/** Calls that undo or read back one another. */
module RoundTrips {
  import opened Bytes
  import opened Names
  import opened Registry
  import opened Hives
  import opened Readers
  import opened Values
  import opened Adding
  import opened AddChild
  import opened Subtrees
  import opened DeleteChild
  import opened Sorted
  import opened Trees
  import opened Plans
  import opened Runs
  import opened OpenCommit
  import Edits

  /** set_values, then the readers: key, type and bytes of every value, in order. */
  method SetThenRead(h: Hive, n: nat, vals: seq<Value>) returns (r: Result<()>, back: Result<seq<Value>>)
    requires h.Valid() && n in h.t.reg && forall i :: 0 <= i < |vals| ==> IsName(vals[i].key)
    modifies h`addr, h`bitmap, h`endpages, h`endblocks, h`cells, h`t, h`base, h`license
    ensures h.HeapOk() && (r.Ok? ==> back == if |vals| <= MAX_VALUES then Ok(vals) else Err(ERANGE))
    ensures h.writable ==> SetOutcome(|old(h.t.reg)[n].values|, vals, old(h.endpages), r)
  {
    hide Heap.Tiled, Heap.CellsOk, Hive.HeapOk, Hive.Within, TreeOk, NodeOk, ValsOk, Small, ListCost, ValueRolesOk;
    r := SetValues(h, n, vals);
    back := Err(EINVAL);
    if r.Ok? {
      LiveNode(h, n);
      NodeParts(h.cells, h.t.owner, n, h.t.reg[n]);
      back := ReadAll(h, n, h.t.owner, vals);
    }
  }

  /** Child count and security reference count of every node, as the records hold them. */
  ghost predicate CountsAre(c: Cells, reg: Reg) {
    forall n :: n in reg ==> n in c && c[n].Nk? && c[n].nrSubkeys == |reg[n].children|
                             && (reg[n].sk != 0 ==> reg[n].sk in c && c[reg[n].sk].Sk? && c[reg[n].sk].refcount == |Users(reg, reg[n].sk)|)
  }

  lemma CountsHold(h: Hive)
    requires h.Valid()
    ensures CountsAre(h.cells, h.t.reg)
  {
    hide Heap.Tiled, Heap.CellsOk, Hive.HeapOk, RolesOk, RingOk, LinksOk, ListsOk, ValsOk, Users;
    forall n | n in h.t.reg
      ensures n in h.cells && h.cells[n].Nk? && h.cells[n].nrSubkeys == |h.t.reg[n].children|
    {
      NodeIn(h.cells, h.t, n);
    }
  }

  /** A child added and deleted again: the registry, its counts and its security references are as before. */
  method AddThenDelete(h: Hive, parent: nat, name: seq<byte>) returns (added: Result<nat>, deleted: Result<()>)
    requires h.Valid() && parent in h.t.reg && IsName(name)
    modifies h`addr, h`bitmap, h`endpages, h`endblocks, h`cells, h`t, h`base, h`license
    ensures h.HeapOk()
    ensures added.Ok? && deleted.Ok? ==> h.Valid() && h.t.reg == old(h.t.reg) && CountsAre(h.cells, old(h.t.reg))
    ensures old(Enabled(h, parent, Edits.AddKid(name)) && |h.t.reg[parent].children| < MAX_SUBKEYS) ==> added.Ok? && deleted.Ok?
  {
    hide Heap.Tiled, Heap.CellsOk, Hive.HeapOk, Hive.Within, TreeOk, LinksOk, InsertPos, NameFree, DropNode, AddNode,
      Sub, CountsAre;
    ghost var reg, root := h.t.reg, h.rootoffs;
    LinksPart(h);
    added := AddChild.AddChild(h, parent, name);
    deleted := Err(EINVAL);
    match added
    case Err(_) =>
    case Ok(node) =>
      ghost var k := InsertPos(reg, reg[parent].children, name);
      Sorted.AddThenDelete(reg, root, parent, node, name, k);
      AddedReadable(reg, root, parent, node, name, k);
      deleted := DeleteChild.DeleteChild(h, node);
      if deleted.Ok? { CountsHold(h); }
  }

  lemma AddedReadable(reg: Reg, root: nat, parent: nat, node: nat, name: seq<byte>, k: nat)
    requires LinksOk(reg, root) && parent in reg && node !in reg && k <= |reg[parent].children|
    requires LinksOk(AddNode(reg, parent, node, name, k), root)
    ensures Readable(reg, reg.Keys) && |reg[parent].children| < MAX_SUBKEYS ==>
              Readable(AddNode(reg, parent, node, name, k), Sub(AddNode(reg, parent, node, name, k), root, node) + {parent})
    ensures node in AddNode(reg, parent, node, name, k) && AddNode(reg, parent, node, name, k)[node].parent == parent
  {
    hide LinksOk, Sub;
    SubOfNew(reg, root, parent, node, name, k);
  }

  /** A run of calls, a commit, and a new handle on what was written: the readers find the edited tree. */
  method RunCommitReopen(h: Hive, ops: seq<Edits.Op>) returns (ok: bool, r: Result<Node>)
    requires h.Valid() && h.writable && forall i :: 0 <= i < |ops| ==> GoodStrings(ops[i].change)
    modifies h`addr, h`bitmap, h`endpages, h`endblocks, h`cells, h`t, h`base, h`license
    ensures ok ==> h.Valid() && r == ReadBack(Edits.EditedAll(old(TreeOf(h)), ops))
    ensures old(Provided(h, ops)) ==> (ok <==> AllPossible(old(TreeOf(h)), ops))
  {
    hide Heap.Tiled, Heap.CellsOk, Hive.HeapOk, Hive.Within, TreeOk, LinksOk, Unfold, Edits.EditedAll, GoodStrings,
      Under, Affordable, AllPossible, Secured, WithinLimits;
    r := Err(EINVAL);
    ok := Run(h, ops);
    if ok {
      LinksPart(h);
      LimitsAre(h.t.reg, h.rootoffs, h.rootoffs);
      var reopened := CommitThenOpen(h, false);
      var h2 := reopened.value;
      r := ReadTree(h2, h2.rootoffs, Sub(h2.t.reg, h2.rootoffs, h2.rootoffs));
    }
  }
}
