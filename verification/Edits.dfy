/** Edits of nested trees, and why the operations on the registry carry them out. */
module Edits {
  import opened Bytes
  import opened Names
  import opened Registry
  import opened Security
  import opened Values
  import opened Subkeys
  import opened Adding
  import opened AddChild
  import opened Subtrees
  import opened Unlinking
  import opened DeleteChild
  import opened Trees

  /** What a call does to the node it is given. */
  datatype Change = AddKid(name: seq<byte>) | DropKid(i: nat) | SetAll(vals: seq<Value>) | SetOne(val: Value)

  /** A call: the node it works on, as child positions from the root, and the change. */
  datatype Op = Op(at: seq<nat>, change: Change)

  /** The first child whose name is after `name`. */
  function Place(kids: seq<Node>, name: seq<byte>): (k: nat)
    ensures k <= |kids|
  {
    if kids == [] || CaseCmp(name, kids[0].name) < 0 then 0 else 1 + Place(kids[1..], name)
  }

  function Here(t: Node, e: Change): Node {
    match e
    case AddKid(name) => t.(kids := InsertAt(t.kids, Place(t.kids, name), Node(name, [], [])))
    case DropKid(i) => if i < |t.kids| then t.(kids := RemoveAt(t.kids, i)) else t
    case SetAll(vals) => t.(values := vals)
    case SetOne(val) => t.(values := SetTo(t.values, val))
  }

  function Edited(t: Node, at: seq<nat>, e: Change): Node {
    if at == [] then Here(t, e)
    else if at[0] < |t.kids| then t.(kids := t.kids[at[0] := Edited(t.kids[at[0]], at[1..], e)])
    else t
  }

  /** A whole run on the nested tree. */
  function EditedAll(t: Node, ops: seq<Op>): Node
    decreases |ops|
  {
    if ops == [] then t else EditedAll(Edited(t, ops[0].at, ops[0].change), ops[1..])
  }

  lemma {:induction false} EditedSnoc(t: Node, ops: seq<Op>, i: nat)
    requires i < |ops|
    ensures EditedAll(t, ops[..i + 1]) == (var t' := EditedAll(t, ops[..i]); Edited(t', ops[i].at, ops[i].change))
    decreases i
  {
    hide Edited;
    if i > 0 {
      assert ops[..i + 1][1..] == ops[1..][..i] && ops[..i][1..] == ops[1..][..i - 1];
      EditedSnoc(Edited(t, ops[0].at, ops[0].change), ops[1..], i - 1);
    } else {
      assert ops[..1][1..] == [];
    }
  }

  /** The node reached from m by child positions. */
  ghost predicate LeadsFrom(reg: Reg, m: nat, at: seq<nat>, n: nat)
    decreases |at|
  {
    m in reg && if at == [] then m == n else at[0] < |reg[m].children| && LeadsFrom(reg, reg[m].children[at[0]], at[1..], n)
  }

  lemma {:induction false} LeadsUnder(reg: Reg, root: nat, m: nat, at: seq<nat>, n: nat)
    requires LinksOk(reg, root) && LeadsFrom(reg, m, at, n)
    ensures n in reg && Under(reg, root, n, m) && (at != [] ==> reg[m].depth < reg[n].depth)
    decreases |at|
  {
    hide LinksOk;
    if at == [] {
      UnderSelf(reg, root, n);
    } else {
      var k := reg[m].children[at[0]];
      KidNotRoot(reg, root, m, k);
      LeadsUnder(reg, root, k, at[1..], n);
      UnderDeeper(reg, root, n, k);
      UnderChild(reg, root, n, k, m);
    }
  }

  /** What the registry of an operation at n keeps: everything outside the subtree of n. */
  ghost predicate Outside(reg: Reg, reg': Reg, root: nat, n: nat)
    requires LinksOk(reg, root)
  {
    forall x :: x in reg && x !in Sub(reg, root, n) ==> x in reg' && reg'[x] == reg[x]
  }

  /** A subtree away from n is not changed by an operation at n. */
  lemma Aside(reg: Reg, reg': Reg, root: nat, n: nat, a: nat, b: nat)
    requires LinksOk(reg, root) && LinksOk(reg', root) && Outside(reg, reg', root, n)
    requires n in reg && a in reg && b in reg && a != b && reg[a].depth == reg[b].depth && Under(reg, root, n, b)
    ensures a in reg' && Unfold(reg', root, a) == Unfold(reg, root, a)
  {
    hide LinksOk, Under, Unfold;
    forall x | x in Sub(reg, root, a)
      ensures x !in Sub(reg, root, n)
    {
      if x in Sub(reg, root, n) {
        UnderTrans(reg, root, x, n, b);
        OneAncestor(reg, root, x, a, b);
      }
    }
    UnfoldFrame(reg, reg', root, a);
  }

  lemma {:induction false} UnderTrans(reg: Reg, root: nat, x: nat, n: nat, b: nat)
    requires LinksOk(reg, root) && x in reg && n in reg && Under(reg, root, x, n) && Under(reg, root, n, b)
    ensures Under(reg, root, x, b)
    decreases reg[x].depth
  {
    if x != n {
      ParentAbove(reg, root, x);
      UnderTrans(reg, root, reg[x].parent, n, b);
    }
  }

  /** An operation that edits the subtree of n edits every tree above it in the same place. */
  lemma {:induction false} EditsAbove(reg: Reg, reg': Reg, root: nat, m: nat, at: seq<nat>, n: nat, e: Change)
    requires LinksOk(reg, root) && LinksOk(reg', root) && LeadsFrom(reg, m, at, n)
    requires n in reg && n in reg' && Outside(reg, reg', root, n)
    requires Unfold(reg', root, n) == Here(Unfold(reg, root, n), e)
    ensures m in reg' && Unfold(reg', root, m) == Edited(Unfold(reg, root, m), at, e)
    decreases |at|
  {
    hide LinksOk, Under, Here;
    if at != [] {
      var kids, j := reg[m].children, at[0];
      LeadsUnder(reg, root, m, at, n);
      assert m !in Sub(reg, root, n) by { if m in Sub(reg, root, n) { UnderDeeper(reg, root, m, n); } }
      assert reg'[m] == reg[m];
      LeadsUnder(reg, root, kids[j], at[1..], n);
      EditsAbove(reg, reg', root, kids[j], at[1..], n, e);
      forall i | 0 <= i < |kids|
        ensures kids[i] in reg && kids[i] in reg'
                && Unfold(reg', root, kids[i])
                   == if i == j then Edited(Unfold(reg, root, kids[j]), at[1..], e) else Unfold(reg, root, kids[i])
      {
        if i != j { KidsApart(reg, root, m, i, j); Aside(reg, reg', root, n, kids[i], kids[j]); }
      }
      OneKidChanged(reg, reg', root, m, j, Edited(Unfold(reg, root, kids[j]), at[1..], e));
    }
  }

  lemma KidsApart(reg: Reg, root: nat, m: nat, i: nat, j: nat)
    requires LinksOk(reg, root) && m in reg && i < |reg[m].children| && j < |reg[m].children| && i != j
    ensures var kids := reg[m].children;
            kids[i] in reg && kids[j] in reg && kids[i] != kids[j] && reg[kids[i]].depth == reg[kids[j]].depth
  {
    assert KidsLinked(reg, m);
  }

  lemma OneKidChanged(reg: Reg, reg': Reg, root: nat, m: nat, j: nat, t: Node)
    requires LinksOk(reg, root) && LinksOk(reg', root) && m in reg && m in reg' && reg'[m] == reg[m] && j < |reg[m].children|
    requires forall i :: 0 <= i < |reg[m].children| ==>
               reg[m].children[i] in reg && reg[m].children[i] in reg'
               && Unfold(reg', root, reg[m].children[i]) == if i == j then t else Unfold(reg, root, reg[m].children[i])
    ensures Unfold(reg', root, m) == (var u := Unfold(reg, root, m); u.(kids := u.kids[j := t]))
  {
    hide LinksOk, Sub;
    var a, b := Unfold(reg', root, m).kids, Unfold(reg, root, m).kids[j := t];
    forall i | 0 <= i < |a|
      ensures a[i] == b[i]
    {
    }
    assert a == b;
  }

  // ---------- each operation edits its own node

  lemma {:induction false} PlaceIs(reg: Reg, kids: seq<nat>, nodes: seq<Node>, name: seq<byte>)
    requires (forall x :: x in kids ==> x in reg) && |nodes| == |kids|
    requires forall i :: 0 <= i < |kids| ==> kids[i] in reg && nodes[i].name == reg[kids[i]].name
    ensures InsertPos(reg, kids, name) == Place(nodes, name)
  {
    hide CaseCmp;
    if kids != [] { PlaceIs(reg, kids[1..], nodes[1..], name); }
  }

  lemma PlaceThere(reg: Reg, root: nat, n: nat, name: seq<byte>)
    requires LinksOk(reg, root) && n in reg && forall x :: x in reg[n].children ==> x in reg
    ensures InsertPos(reg, reg[n].children, name) == Place(Unfold(reg, root, n).kids, name)
  {
    hide LinksOk, CaseCmp, InsertPos, Place;
    var kids, nodes := reg[n].children, Unfold(reg, root, n).kids;
    forall i | 0 <= i < |kids|
      ensures kids[i] in reg && nodes[i].name == reg[kids[i]].name
    {
      assert kids[i] in reg;
      assert nodes[i] == Unfold(reg, root, kids[i]);
    }
    PlaceIs(reg, kids, nodes, name);
  }

  lemma AddOutside(reg: Reg, root: nat, parent: nat, node: nat, name: seq<byte>, k: nat)
    requires LinksOk(reg, root) && parent in reg && node !in reg && k <= |reg[parent].children|
    ensures Outside(reg, AddNode(reg, parent, node, name, k), root, parent)
  {
    hide LinksOk, InsertAt, Under;
    UnderSelf(reg, root, parent);
  }

  lemma AddEdits(reg: Reg, root: nat, parent: nat, node: nat, name: seq<byte>)
    requires LinksOk(reg, root) && parent in reg && node !in reg && forall x :: x in reg[parent].children ==> x in reg
    ensures var reg' := AddNode(reg, parent, node, name, InsertPos(reg, reg[parent].children, name));
            LinksOk(reg', root) && parent in reg' && Outside(reg, reg', root, parent)
            && Unfold(reg', root, parent) == Here(Unfold(reg, root, parent), AddKid(name))
  {
    hide LinksOk, Sub, CaseCmp, InsertPos, InsertAt, Place, AddNode, Outside;
    var k := InsertPos(reg, reg[parent].children, name);
    PlaceThere(reg, root, parent, name);
    AddOutside(reg, root, parent, node, name, k);
    AddAtParent(reg, root, parent, node, name, k);
  }

  lemma SetEdits(reg: Reg, root: nat, n: nat, vals: seq<Value>)
    requires LinksOk(reg, root) && n in reg
    ensures var reg' := reg[n := reg[n].(values := vals)];
            LinksOk(reg', root) && Outside(reg, reg', root, n)
            && Unfold(reg', root, n) == Unfold(reg, root, n).(values := vals)
  {
    hide LinksOk, Sub;
    var reg', kids := reg[n := reg[n].(values := vals)], reg[n].children;
    LinksFrame(reg, reg', root);
    SubIs(reg, root, n);
    forall i | 0 <= i < |kids|
      ensures kids[i] in reg && kids[i] in reg' && Unfold(reg', root, kids[i]) == Unfold(reg, root, kids[i])
    {
      hide Unfold;
      SubSmaller(reg, root, n, i);
      ParentNotUnder(reg, root, n, i);
      SetUntouched(reg, root, n, vals, kids[i]);
    }
    var a, b := Unfold(reg', root, n).kids, Unfold(reg, root, n).kids;
    forall i | 0 <= i < |a|
      ensures a[i] == b[i]
    {
    }
    assert a == b;
  }

  lemma DropSplits(reg: Reg, root: nat, parent: nat, i: nat)
    requires LinksOk(reg, root) && parent in reg && i < |reg[parent].children|
    ensures var node := reg[parent].children[i];
            node in reg && node != root && reg[node].parent == parent
            && Without(reg[parent].children, node) == RemoveAt(reg[parent].children, i)
  {
    var kids := reg[parent].children;
    assert KidsLinked(reg, parent);
    KidNotRoot(reg, root, parent, kids[i]);
    hide LinksOk;
    WithoutAt(kids, kids[i], i);
  }

  lemma DropOutside(reg: Reg, root: nat, parent: nat, node: nat)
    requires LinksOk(reg, root) && parent in reg && node in reg && node != root && reg[node].parent == parent
    ensures LinksOk(DropNode(reg, root, node), root) && Outside(reg, DropNode(reg, root, node), root, parent)
    ensures parent in DropNode(reg, root, node)
  {
    DroppedLinks(reg, root, node);
    ParentAbove(reg, root, node);
    hide LinksOk, Under, Without;
    SubIs(reg, root, parent);
    forall x | x in reg && x !in Sub(reg, root, parent)
      ensures x !in Sub(reg, root, node)
    {
      if x in Sub(reg, root, node) { UnderChild(reg, root, x, node, parent); }
    }
  }

  lemma DropEdits(reg: Reg, root: nat, parent: nat, i: nat)
    requires LinksOk(reg, root) && parent in reg && i < |reg[parent].children|
    ensures var node := reg[parent].children[i];
            node in reg && node != root && reg[node].parent == parent
            && (var reg' := DropNode(reg, root, node);
                LinksOk(reg', root) && parent in reg' && Outside(reg, reg', root, parent)
                && Unfold(reg', root, parent) == Here(Unfold(reg, root, parent), DropKid(i)))
  {
    var kids := reg[parent].children;
    var node := kids[i];
    DropSplits(reg, root, parent, i);
    DropOutside(reg, root, parent, node);
    hide LinksOk, Sub, Without, Outside;
    var reg' := DropNode(reg, root, node);
    assert reg'[parent].children == RemoveAt(kids, i) && reg'[parent].name == reg[parent].name && reg'[parent].values == reg[parent].values;
    forall j | 0 <= j < |kids| && j != i
      ensures kids[j] in reg && kids[j] in reg' && Unfold(reg', root, kids[j]) == Unfold(reg, root, kids[j])
    {
      DropAside(reg, root, parent, i, j);
    }
    hide DropNode;
    KidsShrink(reg, reg', root, parent, i);
  }

  lemma KidsShrink(reg: Reg, reg': Reg, root: nat, n: nat, i: nat)
    requires LinksOk(reg, root) && LinksOk(reg', root) && n in reg && n in reg' && i < |reg[n].children|
    requires reg'[n].name == reg[n].name && reg'[n].values == reg[n].values
    requires reg'[n].children == RemoveAt(reg[n].children, i)
    requires forall j :: 0 <= j < |reg[n].children| && j != i ==>
               reg[n].children[j] in reg && reg[n].children[j] in reg'
               && Unfold(reg', root, reg[n].children[j]) == Unfold(reg, root, reg[n].children[j])
    ensures Unfold(reg', root, n) == Here(Unfold(reg, root, n), DropKid(i))
  {
    hide LinksOk, Sub;
    var a, b, kids := Unfold(reg', root, n).kids, RemoveAt(Unfold(reg, root, n).kids, i), reg[n].children;
    forall j | 0 <= j < |a|
      ensures a[j] == b[j]
    {
      assert kids[if j < i then j else j + 1] in reg;
    }
    assert a == b;
  }

  lemma DropAside(reg: Reg, root: nat, parent: nat, i: nat, j: nat)
    requires LinksOk(reg, root) && parent in reg && i < |reg[parent].children| && j < |reg[parent].children| && i != j
    requires var node := reg[parent].children[i]; node in reg && node != root && reg[node].parent == parent
    ensures var reg', k := DropNode(reg, root, reg[parent].children[i]), reg[parent].children[j];
            LinksOk(reg', root) && k in reg && k in reg' && Unfold(reg', root, k) == Unfold(reg, root, k)
  {
    hide LinksOk, Unfold, Without;
    KidsApart(reg, root, parent, i, j);
    var node, k := reg[parent].children[i], reg[parent].children[j];
    ParentNotUnder(reg, root, parent, j);
    assert k !in Sub(reg, root, node) by {
      if k in Sub(reg, root, node) { UnderDeeper(reg, root, k, node); }
    }
    hide Sub;
    DeleteUntouched(reg, root, node, k);
  }
}
