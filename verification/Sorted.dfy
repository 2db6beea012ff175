/** Children stay sorted by name, and adding then deleting a child changes nothing. */
module Sorted {
  import opened Bytes
  import opened Names
  import opened Registry
  import opened Subkeys
  import opened Adding
  import opened AddChild
  import opened Subtrees
  import opened Unlinking
  import opened DeleteChild

  /** Names strictly increase, whatever the case, so no two are alike. */
  ghost predicate Increasing(reg: Reg, kids: seq<nat>) {
    (forall x :: x in kids ==> x in reg)
    && forall i, j :: 0 <= i < j < |kids| ==> CaseCmp(reg[kids[i]].name, reg[kids[j]].name) < 0
  }

  ghost predicate AllSorted(reg: Reg) {
    forall n :: n in reg ==> Increasing(reg, reg[n].children)
  }

  /** Sorted means dictionary order, letters in any case; so no name occurs twice, in whatever case. */
  lemma IncreasingMeans(reg: Reg, kids: seq<nat>)
    requires forall x :: x in kids ==> x in reg
    ensures Increasing(reg, kids) <==>
            forall i, j :: 0 <= i < j < |kids| ==> Precedes(CString(reg[kids[i]].name), CString(reg[kids[j]].name))
    ensures Increasing(reg, kids) ==>
            forall i, j :: 0 <= i < j < |kids| ==> !Recased(CString(reg[kids[i]].name), CString(reg[kids[j]].name))
  {
    hide CaseCmp, Recased, Precedes, CString;
    forall i, j | 0 <= i < j < |kids|
      ensures CaseCmp(reg[kids[i]].name, reg[kids[j]].name) < 0 <==> Precedes(CString(reg[kids[i]].name), CString(reg[kids[j]].name))
      ensures CaseCmp(reg[kids[i]].name, reg[kids[j]].name) == 0 <==> Recased(CString(reg[kids[i]].name), CString(reg[kids[j]].name))
    {
      CmpLess(reg[kids[i]].name, reg[kids[j]].name);
      CmpZero(reg[kids[i]].name, reg[kids[j]].name);
    }
  }

  lemma {:induction false} PosSplits(reg: Reg, kids: seq<nat>, name: seq<byte>)
    requires Increasing(reg, kids) && forall x :: x in kids ==> CaseCmp(reg[x].name, name) != 0
    ensures var k := InsertPos(reg, kids, name);
            (forall i :: 0 <= i < k ==> CaseCmp(reg[kids[i]].name, name) < 0)
            && (forall i :: k <= i < |kids| ==> CaseCmp(name, reg[kids[i]].name) < 0)
  {
    hide CaseCmp;
    if kids != [] {
      var x := kids[0];
      CmpSym(reg[x].name, name);
      if CaseCmp(name, reg[x].name) < 0 {
        forall i | 0 <= i < |kids|
          ensures CaseCmp(name, reg[kids[i]].name) < 0
        {
          if i > 0 { CmpTrans(name, reg[x].name, reg[kids[i]].name); }
        }
      } else {
        assert x in kids;
        PosSplits(reg, kids[1..], name);
        var k := InsertPos(reg, kids[1..], name);
        forall i | 0 <= i < 1 + k
          ensures CaseCmp(reg[kids[i]].name, name) < 0
        {
          if i > 0 { assert kids[i] == kids[1..][i - 1]; }
        }
        forall i | 1 + k <= i < |kids|
          ensures CaseCmp(name, reg[kids[i]].name) < 0
        {
          assert kids[i] == kids[1..][i - 1];
        }
      }
    }
  }

  /** The new child goes where the order wants it. */
  lemma InsertSorted(reg: Reg, parent: nat, node: nat, name: seq<byte>)
    requires parent in reg && node !in reg && Increasing(reg, reg[parent].children) && NameFree(reg, parent, name)
    ensures var reg' := AddNode(reg, parent, node, name, InsertPos(reg, reg[parent].children, name));
            Increasing(reg', reg'[parent].children)
  {
    hide CaseCmp, InsertPos;
    var kids := reg[parent].children;
    var k := InsertPos(reg, kids, name);
    PosSplits(reg, kids, name);
    var reg' := AddNode(reg, parent, node, name, k);
    NamesKept(reg, parent, node, name, k);
    assert reg'[parent].children == InsertAt(kids, k, node);
    hide AddNode;
    InsertedOrder(reg, reg', kids, k, node, name);
  }

  lemma NamesKept(reg: Reg, parent: nat, node: nat, name: seq<byte>, k: nat)
    requires parent in reg && node !in reg && k <= |reg[parent].children|
    ensures var reg' := AddNode(reg, parent, node, name, k);
            node in reg' && reg'[node].name == name && forall x :: x in reg ==> x in reg' && reg'[x].name == reg[x].name
  {
    hide InsertAt;
  }

  lemma InsertedOrder(reg: Reg, reg': Reg, kids: seq<nat>, k: nat, node: nat, name: seq<byte>)
    requires Increasing(reg, kids) && k <= |kids| && node in reg' && reg'[node].name == name
    requires forall x :: x in reg ==> x in reg' && reg'[x].name == reg[x].name
    requires forall i :: 0 <= i < k ==> CaseCmp(reg[kids[i]].name, name) < 0
    requires forall i :: k <= i < |kids| ==> CaseCmp(name, reg[kids[i]].name) < 0
    ensures Increasing(reg', InsertAt(kids, k, node))
  {
    hide CaseCmp;
    var kids' := InsertAt(kids, k, node);
    forall x | x in kids'
      ensures x in reg'
    {
      if x != node { assert x in kids; }
    }
    forall i, j | 0 <= i < j < |kids'|
      ensures CaseCmp(reg'[kids'[i]].name, reg'[kids'[j]].name) < 0
    {
      InsertedAt(kids, k, node, i);
      InsertedAt(kids, k, node, j);
      hide InsertAt;
      assert kids'[i] in kids' && kids'[j] in kids';
      if i < k { assert kids[i] in kids; } else if i > k { assert kids[i - 1] in kids; }
      if j < k { assert kids[j] in kids; } else if j > k { assert kids[j - 1] in kids; }
    }
  }

  lemma InsertedAt(kids: seq<nat>, k: nat, node: nat, i: nat)
    requires k <= |kids| && i <= |kids|
    ensures InsertAt(kids, k, node)[i] == if i < k then kids[i] else if i == k then node else kids[i - 1]
  {
  }

  /** add_child keeps every node's children sorted and free of duplicates. */
  lemma AddKeepsSorted(reg: Reg, root: nat, parent: nat, node: nat, name: seq<byte>)
    requires AllSorted(reg) && parent in reg && node !in reg && NameFree(reg, parent, name)
    ensures Increasing(reg, reg[parent].children)
    ensures AllSorted(AddNode(reg, parent, node, name, InsertPos(reg, reg[parent].children, name)))
  {
    hide CaseCmp, InsertAt, InsertPos;
    var reg' := AddNode(reg, parent, node, name, InsertPos(reg, reg[parent].children, name));
    forall n | n in reg'
      ensures Increasing(reg', reg'[n].children)
    {
      if n == parent {
        InsertSorted(reg, parent, node, name);
      } else if n != node {
        assert Increasing(reg, reg[n].children);
      }
    }
  }

  lemma {:induction false} WithoutIndex(s: seq<nat>, x: nat, i: nat, j: nat) returns (i': nat, j': nat)
    requires i < j < |Without(s, x)|
    ensures i' < j' < |s| && s[i'] == Without(s, x)[i] && s[j'] == Without(s, x)[j]
  {
    if s[0] == x {
      i', j' := i + 1, j + 1;
    } else if i == 0 {
      j' := WithoutOne(s[1..], x, j - 1);
      i', j' := 0, j' + 1;
    } else {
      i', j' := WithoutIndex(s[1..], x, i - 1, j - 1);
      i', j' := i' + 1, j' + 1;
    }
  }

  lemma {:induction false} WithoutOne(s: seq<nat>, x: nat, j: nat) returns (j': nat)
    requires j < |Without(s, x)|
    ensures j' < |s| && s[j'] == Without(s, x)[j]
  {
    if s[0] == x {
      j' := j + 1;
    } else if j == 0 {
      j' := 0;
    } else {
      j' := WithoutOne(s[1..], x, j - 1);
      j' := j' + 1;
    }
  }

  /** delete_child keeps the order of what stays. */
  lemma DeleteKeepsSorted(reg: Reg, root: nat, node: nat)
    requires LinksOk(reg, root) && node in reg && node != root && reg[node].parent in reg && AllSorted(reg)
    ensures AllSorted(DropNode(reg, root, node))
  {
    hide CaseCmp, Without, Sub, LinksOk, KidsLinked;
    var reg' := DropNode(reg, root, node);
    DroppedLinks(reg, root, node);
    forall n | n in reg'
      ensures Increasing(reg', reg'[n].children)
    {
      assert Increasing(reg, reg[n].children);
      KidsStay(reg', root, n);
      if n == reg[node].parent {
        OrderWithout(reg, reg', reg[n].children, node);
      } else {
        OrderKept(reg, reg', reg[n].children);
      }
    }
  }

  lemma KidsStay(reg: Reg, root: nat, n: nat)
    requires LinksOk(reg, root) && n in reg
    ensures forall x :: x in reg[n].children ==> x in reg
  {
    assert KidsLinked(reg, n);
  }

  /** Names as they were, for the nodes that stay. */
  ghost predicate NamesStay(reg: Reg, reg': Reg) {
    forall x :: x in reg' && x in reg ==> reg'[x].name == reg[x].name
  }

  lemma OrderKept(reg: Reg, reg': Reg, kids: seq<nat>)
    requires Increasing(reg, kids) && NamesStay(reg, reg') && forall x :: x in kids ==> x in reg'
    ensures Increasing(reg', kids)
  {
    hide CaseCmp;
    forall i, j | 0 <= i < j < |kids|
      ensures CaseCmp(reg'[kids[i]].name, reg'[kids[j]].name) < 0
    {
      assert kids[i] in kids && kids[j] in kids;
    }
  }

  lemma OrderWithout(reg: Reg, reg': Reg, kids: seq<nat>, node: nat)
    requires Increasing(reg, kids) && NamesStay(reg, reg') && forall x :: x in Without(kids, node) ==> x in reg'
    ensures Increasing(reg', Without(kids, node))
  {
    hide CaseCmp, Without;
    var kids' := Without(kids, node);
    forall i, j | 0 <= i < j < |kids'|
      ensures CaseCmp(reg'[kids'[i]].name, reg'[kids'[j]].name) < 0
    {
      var i', j' := WithoutIndex(kids, node, i, j);
      assert kids[i'] in kids && kids[j'] in kids && kids'[i] in kids' && kids'[j] in kids';
    }
  }

  // ---------- add, then delete

  lemma {:induction false} WithoutInserted(s: seq<nat>, k: nat, x: nat)
    requires k <= |s| && x !in s
    ensures Without(InsertAt(s, k, x), x) == s
  {
    if k == 0 {
      assert InsertAt(s, 0, x) == [x] + s;
    } else {
      assert InsertAt(s, k, x) == [s[0]] + InsertAt(s[1..], k - 1, x);
      WithoutInserted(s[1..], k - 1, x);
    }
  }

  lemma {:induction false} OnlyItself(reg: Reg, root: nat, node: nat, m: nat)
    requires LinksOk(reg, root) && node in reg && reg[node].children == [] && m in reg && Under(reg, root, m, node)
    ensures m == node
  {
    if m != node { var c := ChildBetween(reg, root, m, node); }
  }

  /** Deleting the node just added gives back the registry as it was. */
  lemma AddThenDelete(reg: Reg, root: nat, parent: nat, node: nat, name: seq<byte>, k: nat)
    requires LinksOk(reg, root) && parent in reg && node !in reg && k <= |reg[parent].children|
    ensures var reg' := AddNode(reg, parent, node, name, k);
            LinksOk(reg', root) && node in reg' && node != root && reg'[node].parent in reg' && DropNode(reg', root, node) == reg
  {
    AddedLinks(reg, root, parent, node, name, k);
    assert KidsLinked(reg, parent);
    hide LinksOk, KidsLinked, Under, Without, InsertAt;
    SubOfNew(reg, root, parent, node, name, k);
    WithoutInserted(reg[parent].children, k, node);
    Restored(reg, parent, node, name, k);
  }

  lemma Restored(reg: Reg, parent: nat, node: nat, name: seq<byte>, k: nat)
    requires parent in reg && node !in reg && k <= |reg[parent].children|
    ensures var reg' := AddNode(reg, parent, node, name, k);
            (reg' - {node})[parent := reg'[parent].(children := reg[parent].children)] == reg
  {
    hide InsertAt;
  }

  lemma SubOfNew(reg: Reg, root: nat, parent: nat, node: nat, name: seq<byte>, k: nat)
    requires LinksOk(reg, root) && parent in reg && node !in reg && k <= |reg[parent].children|
    requires LinksOk(AddNode(reg, parent, node, name, k), root)
    ensures node !in reg[parent].children && node != root && Sub(AddNode(reg, parent, node, name, k), root, node) == {node}
  {
    assert KidsLinked(reg, parent);
    hide InsertAt, LinksOk, Under, KidsLinked;
    var reg' := AddNode(reg, parent, node, name, k);
    assert node in reg' && reg'[node].children == [];
    hide AddNode;
    UnderSelf(reg', root, node);
    forall m | m in reg' && Under(reg', root, m, node)
      ensures m == node
    {
      OnlyItself(reg', root, node, m);
    }
  }
}
