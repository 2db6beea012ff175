/** Which runs of calls succeed, told from the nested tree and the room in the image alone. */
module Plans {
  import opened Bytes
  import opened Names
  import opened Registry
  import opened Readers
  import opened Values
  import opened Subkeys
  import opened Adding
  import opened AddChild
  import opened Subtrees
  import opened DeleteChild
  import opened Trees
  import opened Edits

  /** No node has more children or values than the readers allow. */
  ghost predicate WithinLimits(t: Node) {
    |t.kids| <= MAX_SUBKEYS && |t.values| <= MAX_VALUES && forall i :: 0 <= i < |t.kids| ==> WithinLimits(t.kids[i])
  }

  /** The call makes sense at this node: a new name that no child bears in any case, a child that is there, blocks that are
      not too long. */
  ghost predicate Possible(t: Node, e: Change) {
    match e
    case AddKid(name) => name != [] && forall i :: 0 <= i < |t.kids| ==> !Recased(CString(t.kids[i].name), name)
    case DropKid(i) => i < |t.kids|
    case SetAll(vals) => vals == [] || Small(vals)
    case SetOne(val) => Small(SetTo(t.values, val))
  }

  /** The most the call adds to the image. */
  function Need(t: Node, e: Change): nat {
    match e
    case AddKid(name) => Growth(name)
    case DropKid(_) => 0
    case SetAll(vals) => if vals == [] then 0 else ListCost(vals)
    case SetOne(val) => ListCost(SetTo(t.values, val))
  }

  ghost predicate PossibleAt(t: Node, at: seq<nat>, e: Change)
    decreases |at|
  {
    if at == [] then Possible(t, e) else at[0] < |t.kids| && PossibleAt(t.kids[at[0]], at[1..], e)
  }

  function NeedAt(t: Node, at: seq<nat>, e: Change): nat
    decreases |at|
  {
    if at == [] then Need(t, e) else if at[0] < |t.kids| then NeedAt(t.kids[at[0]], at[1..], e) else 0
  }

  /** Every call of the run makes sense when its turn comes. */
  ghost predicate AllPossible(t: Node, ops: seq<Op>)
    decreases |ops|
  {
    ops == [] || (PossibleAt(t, ops[0].at, ops[0].change) && AllPossible(Edited(t, ops[0].at, ops[0].change), ops[1..]))
  }

  /** The readers accept every tree on the way, and the image has room for all calls. */
  ghost predicate Affordable(t: Node, ops: seq<Op>, room: int)
    decreases |ops|
  {
    ops == [] || (var need := NeedAt(t, ops[0].at, ops[0].change);
      WithinLimits(t) && need <= room && Affordable(Edited(t, ops[0].at, ops[0].change), ops[1..], room - need))
  }

  /** More room does no harm. */
  lemma {:induction false} MoreRoom(t: Node, ops: seq<Op>, room: int, more: int)
    requires Affordable(t, ops, room) && room <= more
    ensures Affordable(t, ops, more)
    decreases |ops|
  {
    hide WithinLimits, Edited, NeedAt;
    if ops != [] {
      var need := NeedAt(t, ops[0].at, ops[0].change);
      MoreRoom(Edited(t, ops[0].at, ops[0].change), ops[1..], room - need, more - need);
    }
  }

  // ---------- the same, told from the registry

  /** Every node lies below the root. */
  lemma {:induction false} BelowRoot(reg: Reg, root: nat, m: nat)
    requires LinksOk(reg, root) && m in reg
    ensures Under(reg, root, m, root)
    decreases reg[m].depth
  {
    if m != root {
      ParentAbove(reg, root, m);
      BelowRoot(reg, root, reg[m].parent);
    }
  }

  lemma WholeTree(reg: Reg, root: nat)
    requires LinksOk(reg, root)
    ensures Sub(reg, root, root) == reg.Keys
  {
    hide LinksOk, Under;
    forall m | m in reg
      ensures m in Sub(reg, root, root)
    {
      BelowRoot(reg, root, m);
    }
  }

  ghost predicate FirstWithin(ts: seq<Node>, i: nat) { i <= |ts| && forall j :: 0 <= j < i ==> WithinLimits(ts[j]) }

  lemma OneMoreWithin(ts: seq<Node>, i: nat)
    requires i < |ts|
    ensures FirstWithin(ts, i + 1) <==> FirstWithin(ts, i) && WithinLimits(ts[i])
  {
    hide WithinLimits;
  }

  /** The nested tree at n is within the limits exactly when every node of the subtree is. */
  lemma {:induction false} LimitsAre(reg: Reg, root: nat, n: nat)
    requires LinksOk(reg, root) && n in reg
    ensures WithinLimits(Unfold(reg, root, n)) <==> Readable(reg, Sub(reg, root, n))
    decreases Sub(reg, root, n)
  {
    hide LinksOk, Under, Sub, SubKids;
    var kids, ts := reg[n].children, Unfold(reg, root, n).kids;
    SubIs(reg, root, n);
    NoKidsYet(reg, root, n);
    for i := 0 to |kids|
      invariant Readable(reg, SubKids(reg, root, n, i)) <==> FirstWithin(ts, i)
    {
      SubSmaller(reg, root, n, i);
      SubKidsStep(reg, root, n, i);
      LimitsAre(reg, root, kids[i]);
      BothReadable(reg, SubKids(reg, root, n, i), Sub(reg, root, kids[i]));
      assert ts[i] == Unfold(reg, root, kids[i]);
      OneMoreWithin(ts, i);
    }
    BothReadable(reg, SubKids(reg, root, n, |kids|), {n});
  }

  lemma BothReadable(reg: Reg, S: set<nat>, S': set<nat>)
    ensures Readable(reg, S + S') <==> Readable(reg, S) && Readable(reg, S')
  {
  }

  lemma PossibleHere(reg: Reg, root: nat, n: nat, e: Change)
    requires LinksOk(reg, root) && n in reg && (e.AddKid? ==> 0 !in e.name)
    ensures var t := Unfold(reg, root, n);
            |t.kids| == |reg[n].children| && t.values == reg[n].values
            && (e.AddKid? ==> (Possible(t, e) <==> e.name != [] && NameFree(reg, n, e.name)))
  {
    hide LinksOk, Under, Sub, CString, Recased, NameFree;
    var t, kids := Unfold(reg, root, n), reg[n].children;
    forall i | 0 <= i < |kids|
      ensures kids[i] in reg && t.kids[i].name == reg[kids[i]].name
    {
      SubSmaller(reg, root, n, i);
      assert t.kids[i] == Unfold(reg, root, kids[i]);
    }
    if e.AddKid? {
      NameFreeMeans(reg, n, e.name);
      assert (forall x :: x in kids && x in reg ==> !Recased(CString(reg[x].name), e.name)) <==>
             forall i :: 0 <= i < |kids| ==> !Recased(CString(reg[kids[i]].name), e.name);
    }
  }

  /** Where the child positions lead is where the call works. */
  lemma {:induction false} AtNode(reg: Reg, root: nat, m: nat, at: seq<nat>, n: nat, e: Change)
    requires LinksOk(reg, root) && LeadsFrom(reg, m, at, n)
    ensures n in reg && PossibleAt(Unfold(reg, root, m), at, e) == Possible(Unfold(reg, root, n), e)
    ensures NeedAt(Unfold(reg, root, m), at, e) == Need(Unfold(reg, root, n), e)
    decreases |at|
  {
    hide LinksOk, Under, Sub, Possible, Need;
    if at != [] {
      SubSmaller(reg, root, m, at[0]);
      AtNode(reg, root, reg[m].children[at[0]], at[1..], n, e);
    }
  }

  /** A call that makes sense has a node to work on. */
  lemma {:induction false} AtFound(reg: Reg, root: nat, m: nat, at: seq<nat>, e: Change) returns (n: nat)
    requires LinksOk(reg, root) && m in reg && PossibleAt(Unfold(reg, root, m), at, e)
    ensures n in reg && LeadsFrom(reg, m, at, n)
    decreases |at|
  {
    hide LinksOk, Under, Sub, Possible;
    if at == [] {
      n := m;
    } else {
      SubSmaller(reg, root, m, at[0]);
      n := AtFound(reg, root, reg[m].children[at[0]], at[1..], e);
    }
  }
}
