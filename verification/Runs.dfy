/** Whole runs of calls on a hive. */
module Runs {
  import opened Names
  import opened Registry
  import opened Hives
  import opened Readers
  import opened Values
  import opened Adding
  import opened AddChild
  import opened Subtrees
  import opened DeleteChild
  import opened Trees
  import opened Edits
  import opened Plans
  import opened Sorted

  /** The nested tree of a hive. */
  ghost function TreeOf(h: Hive): Node
    reads h
    requires h.Valid()
  {
    LinksPart(h);
    Unfold(h.t.reg, h.rootoffs, h.rootoffs)
  }

  lemma LinksPart(h: Hive)
    requires h.Valid()
    ensures LinksOk(h.t.reg, h.rootoffs) && h.rootoffs in h.t.reg
  {
    hide Heap.Tiled, Heap.CellsOk, Hive.HeapOk, Hive.Within, PartOk, KidsLinked;
  }

  /** Child i of a node, through hivex_node_children. */
  method ChildAt(h: Hive, n: nat, i: nat) returns (r: Result<nat>)
    requires h.Valid() && n in h.t.reg
    ensures r.Ok? ==> i < |h.t.reg[n].children| && r.value == h.t.reg[n].children[i] && r.value in h.t.reg
    ensures i < |h.t.reg[n].children| <= MAX_SUBKEYS ==> r.Ok?
  {
    hide Heap.Tiled, Heap.CellsOk, Hive.HeapOk, Hive.Within, TreeOk, KidsOk, ChildrenGood, ChildrenOf, BlocksFound;
    LiveKids(h, n);
    ghost var kids := h.t.reg[n].children;
    var got := GetChildren(h, n, true, h.t.owner, kids);
    if got.Err? {
      return Err(got.errno);
    }
    if i >= |got.value.0| {
      return Err(EINVAL);
    }
    assert kids[i] in kids;
    return Ok(got.value.0[i]);
  }

  /** Whatever node `at` leads to is the one found. */
  ghost predicate Finds(reg: Reg, m: nat, at: seq<nat>, r: Result<nat>) {
    forall n: nat :: LeadsFrom(reg, m, at, n) ==> r == Ok(n)
  }

  lemma FindsOn(reg: Reg, m: nat, at: seq<nat>, r: Result<nat>)
    requires m in reg && at != []
    ensures |reg[m].children| <= at[0] ==> Finds(reg, m, at, r)
    ensures at[0] < |reg[m].children| && Finds(reg, reg[m].children[at[0]], at[1..], r) ==> Finds(reg, m, at, r)
  {
  }

  /** The node at child positions `at` below m, through hivex_node_children. */
  method Locate(h: Hive, m: nat, at: seq<nat>) returns (r: Result<nat>)
    requires h.Valid() && m in h.t.reg
    ensures r.Ok? ==> LeadsFrom(h.t.reg, m, at, r.value) && r.value in h.t.reg
    ensures Readable(h.t.reg, h.t.reg.Keys) ==> Finds(h.t.reg, m, at, r)
    decreases |at|
  {
    hide Heap.Tiled, Heap.CellsOk, Hive.HeapOk, Hive.Within, Hive.Valid;
    if at == [] {
      return Ok(m);
    }
    var k := ChildAt(h, m, at[0]);
    if k.Err? {
      r := Err(k.errno);
    } else {
      r := Locate(h, k.value, at[1..]);
    }
    FindsOn(h.t.reg, m, at, r);
  }

  predicate GoodStrings(e: Change) {
    match e
    case AddKid(name) => IsName(name)
    case DropKid(_) => true
    case SetAll(vals) => forall i :: 0 <= i < |vals| ==> IsName(vals[i].key)
    case SetOne(val) => IsName(val.key)
  }

  /** Enough for a call at n to succeed: within the readers' limits, and room left below 2 GiB. */
  ghost predicate Enabled(h: Hive, n: nat, e: Change)
    reads h
    requires h.Valid() && n in h.t.reg
  {
    h.writable && Readable(h.t.reg, h.t.reg.Keys) && LinksOk(h.t.reg, h.rootoffs) &&
    match e
    case AddKid(name) => name != [] && NameFree(h.t.reg, n, name) && h.t.reg[n].sk != 0 && h.endpages + Growth(name) <= Heap.MAX_IMAGE
    case DropKid(i) => i < |h.t.reg[n].children|
    case SetAll(vals) => vals == [] || Fits(vals, h.endpages)
    case SetOne(val) => Fits(SetTo(h.t.reg[n].values, val), h.endpages)
  }

  /** One call at a node. */
  method Perform(h: Hive, n: nat, e: Change) returns (ok: bool)
    requires h.Valid() && n in h.t.reg && GoodStrings(e)
    modifies h`addr, h`bitmap, h`endpages, h`endblocks, h`cells, h`t, h`base, h`license
    ensures ok ==> h.Valid() && Done(old(h.t.reg), h.t.reg, h.rootoffs, n, e)
    ensures old(Enabled(h, n, e)) ==> ok
    ensures ok ==> Possible(Unfold(old(h.t.reg), h.rootoffs, n), e)
                   && h.endpages <= old(h.endpages) + Need(Unfold(old(h.t.reg), h.rootoffs, n), e)
  {
    hide Heap.Tiled, Heap.CellsOk, Hive.HeapOk, Hive.Within, TreeOk, KidsOk, LinksOk, InsertPos, NameFree, DropNode,
      Small, ListCost, SetTo, Unfold, Growth, Recased, CString;
    LinksPart(h);
    PossibleHere(h.t.reg, h.rootoffs, n, e);
    match e
    case AddKid(name) =>
      var r := AddChild.AddChild(h, n, name);
      ok := r.Ok?;
    case DropKid(i) =>
      var k := ChildAt(h, n, i);
      if k.Err? {
        return false;
      }
      KidNotRoot(h.t.reg, h.rootoffs, n, k.value);
      var r := DeleteChild.DeleteChild(h, k.value);
      ok := r.Ok?;
    case SetAll(vals) =>
      var r := SetValues(h, n, vals);
      ok := r.Ok?;
    case SetOne(val) =>
      var r := SetValue(h, n, val);
      ok := r.Ok?;
  }

  /** What a successful call does to the registry. */
  ghost predicate Done(g: Reg, g': Reg, root: nat, n: nat, e: Change) {
    n in g && LinksOk(g, root) &&
    match e
    case AddKid(name) =>
      (forall x :: x in g[n].children ==> x in g) && NameFree(g, n, name)
      && exists x :: x !in g && g' == AddNode(g, n, x, name, InsertPos(g, g[n].children, name))
    case DropKid(i) =>
      i < |g[n].children| && (var x := g[n].children[i];
        x in g && x != root && g[x].parent in g && g' == DropNode(g, root, x))
    case SetAll(vals) => g' == g[n := g[n].(values := vals)]
    case SetOne(val) => g' == g[n := g[n].(values := SetTo(g[n].values, val))]
  }

  /** Every successful call edits the nested tree, in its place and nowhere else. */
  lemma DoneEdits(g: Reg, g': Reg, root: nat, at: seq<nat>, n: nat, e: Change)
    requires Done(g, g', root, n, e) && LinksOk(g, root) && root in g && LeadsFrom(g, root, at, n)
    ensures LinksOk(g', root) && root in g' && Unfold(g', root, root) == Edited(Unfold(g, root, root), at, e)
  {
    hide LinksOk, Unfold, Here, Edited, InsertPos, NameFree, AddNode, DropNode, Sub, SetTo, Outside;
    match e {
      case AddKid(name) =>
        var x :| x !in g && g' == AddNode(g, n, x, name, InsertPos(g, g[n].children, name));
        AddEdits(g, root, n, x, name);
      case DropKid(i) =>
        DropEdits(g, root, n, i);
      case SetAll(vals) =>
        SetEdits(g, root, n, vals);
        SetHere(g, root, n, vals);
      case SetOne(val) =>
        SetEdits(g, root, n, SetTo(g[n].values, val));
        SetHereOne(g, root, n, val);
    }
    EditsAbove(g, g', root, root, at, n, e);
  }

  lemma SetHere(g: Reg, root: nat, n: nat, vals: seq<Value>)
    requires LinksOk(g, root) && n in g
    ensures Here(Unfold(g, root, n), SetAll(vals)) == Unfold(g, root, n).(values := vals)
  {
    hide LinksOk, Unfold;
  }

  lemma SetHereOne(g: Reg, root: nat, n: nat, val: Value)
    requires LinksOk(g, root) && n in g
    ensures Here(Unfold(g, root, n), SetOne(val)) == Unfold(g, root, n).(values := SetTo(g[n].values, val))
  {
    hide LinksOk, SetTo, Sub;
  }

  /** Every successful call keeps the children of every node sorted, without duplicates. */
  lemma DoneSorted(g: Reg, g': Reg, root: nat, n: nat, e: Change)
    requires Done(g, g', root, n, e) && LinksOk(g, root) && AllSorted(g)
    ensures AllSorted(g')
  {
    hide LinksOk, InsertPos, NameFree, AddNode, DropNode, Sub, SetTo, CaseCmp, AllSorted;
    match e
    case AddKid(name) =>
      var x :| x !in g && g' == AddNode(g, n, x, name, InsertPos(g, g[n].children, name));
      AddKeepsSorted(g, root, n, x, name);
    case DropKid(i) => DeleteKeepsSorted(g, root, g[n].children[i]);
    case SetAll(vals) => SetKeepsSorted(g, n, vals);
    case SetOne(val) => SetKeepsSorted(g, n, SetTo(g[n].values, val));
  }

  lemma SetKeepsSorted(g: Reg, n: nat, vals: seq<Value>)
    requires n in g && AllSorted(g)
    ensures AllSorted(g[n := g[n].(values := vals)])
  {
    hide CaseCmp;
    forall m | m in g
      ensures Increasing(g[n := g[n].(values := vals)], g[m].children)
    {
      assert Increasing(g, g[m].children);
    }
  }

  /** Every node has a security record. */
  ghost predicate Secured(g: Reg) { forall n :: n in g ==> g[n].sk != 0 }

  lemma DoneSecured(g: Reg, g': Reg, root: nat, n: nat, e: Change)
    requires Done(g, g', root, n, e) && LinksOk(g, root) && Secured(g)
    ensures Secured(g')
  {
    hide LinksOk, InsertPos, NameFree, Sub, SetTo, Growth;
  }

  /** A call that makes sense is enabled within the limits, where there is room. */
  lemma EnabledHere(h: Hive, n: nat, e: Change)
    requires h.Valid() && n in h.t.reg && h.writable && Secured(h.t.reg) && GoodStrings(e)
    requires LinksOk(h.t.reg, h.rootoffs) && WithinLimits(TreeOf(h))
    requires Possible(Unfold(h.t.reg, h.rootoffs, n), e) && h.endpages + Need(Unfold(h.t.reg, h.rootoffs, n), e) <= Heap.MAX_IMAGE
    ensures Enabled(h, n, e)
  {
    hide Hive.Valid, LinksOk, Unfold, NameFree, Small, ListCost, SetTo, Growth, Readable, Recased, CString;
    LinksPart(h);
    LimitsAre(h.t.reg, h.rootoffs, h.rootoffs);
    WholeTree(h.t.reg, h.rootoffs);
    PossibleHere(h.t.reg, h.rootoffs, n, e);
  }

  method Step(h: Hive, op: Op) returns (ok: bool)
    requires h.Valid() && GoodStrings(op.change)
    modifies h`addr, h`bitmap, h`endpages, h`endblocks, h`cells, h`t, h`base, h`license
    ensures ok ==> h.Valid() && TreeOf(h) == Edited(old(TreeOf(h)), op.at, op.change)
    ensures ok && AllSorted(old(h.t.reg)) ==> AllSorted(h.t.reg)
    ensures (exists n :: old(n in h.t.reg && LeadsFrom(h.t.reg, h.rootoffs, op.at, n) && Enabled(h, n, op.change))) ==> ok
    ensures ok ==> PossibleAt(old(TreeOf(h)), op.at, op.change)
                   && h.endpages <= old(h.endpages) + NeedAt(old(TreeOf(h)), op.at, op.change)
    ensures ok && Secured(old(h.t.reg)) ==> Secured(h.t.reg)
    ensures old(Supplied(h, TreeOf(h), op)) ==> ok
  {
    hide Heap.Tiled, Heap.CellsOk, Hive.HeapOk, Hive.Within, TreeOk, LinksOk, Unfold, Edited, AllSorted, Done,
      GoodStrings, Secured, Possible, Need, PossibleAt, NeedAt, Supplied;
    LinksPart(h);
    ghost var g := h.t.reg;
    SuppliedStep(h, op);
    var at := Locate(h, h.rootoffs, op.at);
    match at
    case Err(e) => return false;
    case Ok(n) =>
      ok := Perform(h, n, op.change);
      if ok {
        DoneEdits(g, h.t.reg, h.rootoffs, op.at, n, op.change);
        AtNode(g, h.rootoffs, h.rootoffs, op.at, n, op.change);
        if Secured(g) { DoneSecured(g, h.t.reg, h.rootoffs, n, op.change); }
        if AllSorted(g) { DoneSorted(g, h.t.reg, h.rootoffs, n, op.change); }
      }
  }

  /** What a call needs besides making sense: a writable hive with security records, within the limits, and room. */
  ghost predicate Supplied(h: Hive, t: Node, op: Op)
    reads h
  {
    h.writable && Secured(h.t.reg) && WithinLimits(t) && PossibleAt(t, op.at, op.change)
    && h.endpages + NeedAt(t, op.at, op.change) <= Heap.MAX_IMAGE
  }

  lemma SuppliedStep(h: Hive, op: Op)
    requires h.Valid() && GoodStrings(op.change)
    ensures Supplied(h, TreeOf(h), op) ==>
              exists n :: n in h.t.reg && LeadsFrom(h.t.reg, h.rootoffs, op.at, n) && Enabled(h, n, op.change)
  {
    hide Hive.Valid, LinksOk, Unfold, Possible, Need, PossibleAt, NeedAt, Enabled, GoodStrings, Secured, WithinLimits;
    LinksPart(h);
    if Supplied(h, TreeOf(h), op) {
      var n := AtFound(h.t.reg, h.rootoffs, h.rootoffs, op.at, op.change);
      AtNode(h.t.reg, h.rootoffs, h.rootoffs, op.at, n, op.change);
      EnabledHere(h, n, op.change);
    }
  }

  /** A writable hive whose nodes have security records, with room for a run whose trees keep within the limits. */
  ghost predicate Provided(h: Hive, ops: seq<Op>)
    reads h
    requires h.Valid()
  {
    h.writable && Secured(h.t.reg) && Affordable(TreeOf(h), ops, Heap.MAX_IMAGE - h.endpages)
  }

  /** A run of calls that all succeed leaves a valid hive, whose tree is the first one after the same edits. So provided, it
      succeeds exactly when every call makes sense in its turn. */
  method Run(h: Hive, ops: seq<Op>) returns (ok: bool)
    requires h.Valid() && forall i :: 0 <= i < |ops| ==> GoodStrings(ops[i].change)
    modifies h`addr, h`bitmap, h`endpages, h`endblocks, h`cells, h`t, h`base, h`license
    ensures ok ==> h.Valid() && TreeOf(h) == EditedAll(old(TreeOf(h)), ops)
    ensures ok && AllSorted(old(h.t.reg)) ==> AllSorted(h.t.reg)
    ensures ok ==> AllPossible(old(TreeOf(h)), ops)
    ensures old(Provided(h, ops)) ==> (ok <==> AllPossible(old(TreeOf(h)), ops))
  {
    hide Heap.Tiled, Heap.CellsOk, Hive.HeapOk, Hive.Within, Hive.Valid, TreeOk, TreeOf, Edited, EditedAll, AllSorted,
      GoodStrings, PossibleAt, NeedAt, WithinLimits, Secured;
    ghost var t := TreeOf(h);
    ghost var rich := Provided(h, ops);
    assert ops[0..] == ops;
    ghost var sorted := AllSorted(h.t.reg);
    NoEdits(t, ops);
    for i := 0 to |ops|
      invariant h.Valid() && TreeOf(h) == EditedAll(t, ops[..i]) && (sorted ==> AllSorted(h.t.reg))
      invariant AllPossible(t, ops) <==> AllPossible(TreeOf(h), ops[i..])
      invariant rich ==> Secured(h.t.reg) && Affordable(TreeOf(h), ops[i..], Heap.MAX_IMAGE - h.endpages)
    {
      ghost var ti, room := TreeOf(h), Heap.MAX_IMAGE - h.endpages;
      assert ops[i..][0] == ops[i] && ops[i..][1..] == ops[i + 1..];
      ok := Step(h, ops[i]);
      if !ok {
        return;
      }
      EditedSnoc(t, ops, i);
      if rich {
        MoreRoom(TreeOf(h), ops[i + 1..], room - NeedAt(ti, ops[i].at, ops[i].change), Heap.MAX_IMAGE - h.endpages);
      }
    }
    assert ops[..|ops|] == ops;
    return true;
  }

  lemma NoEdits(t: Node, ops: seq<Op>)
    ensures EditedAll(t, ops[..0]) == t
  {
  }

  /** What the readers make of a tree. */
  ghost function ReadBack(t: Node): Result<Node> { if WithinLimits(t) then Ok(t) else Err(ERANGE) }

  /** ... and that is the tree the readers then find. */
  method RunThenRead(h: Hive, ops: seq<Op>) returns (ok: bool, r: Result<Node>)
    requires h.Valid() && forall i :: 0 <= i < |ops| ==> GoodStrings(ops[i].change)
    modifies h`addr, h`bitmap, h`endpages, h`endblocks, h`cells, h`t, h`base, h`license
    ensures ok ==> h.Valid() && r == ReadBack(EditedAll(old(TreeOf(h)), ops))
    ensures old(Provided(h, ops)) ==> (ok <==> AllPossible(old(TreeOf(h)), ops))
  {
    hide Heap.Tiled, Heap.CellsOk, Hive.HeapOk, Hive.Within, TreeOk, LinksOk, Unfold, EditedAll, GoodStrings, Under,
      Affordable, AllPossible, Secured, WithinLimits;
    ok := Run(h, ops);
    r := Err(EINVAL);
    if ok {
      LinksPart(h);
      LimitsAre(h.t.reg, h.rootoffs, h.rootoffs);
      r := ReadTree(h, h.rootoffs, Sub(h.t.reg, h.rootoffs, h.rootoffs));
    }
  }
}
