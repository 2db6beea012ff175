/** Subtrees of the registry: a node and everything below it. */
module Subtrees {
  import opened Registry

  lemma ParentAbove(reg: Reg, root: nat, m: nat)
    requires LinksOk(reg, root) && m in reg && m != root
    ensures reg[m].parent in reg && m in reg[reg[m].parent].children && reg[m].depth == reg[reg[m].parent].depth + 1
  {
    assert KidsLinked(reg, reg[m].parent);
  }

  /** m is n or lies below it. */
  ghost predicate Under(reg: Reg, root: nat, m: nat, n: nat)
    requires LinksOk(reg, root) && m in reg
    decreases reg[m].depth
  {
    m == n || (m != root && (ParentAbove(reg, root, m); Under(reg, root, reg[m].parent, n)))
  }

  ghost function Sub(reg: Reg, root: nat, n: nat): set<nat>
    requires LinksOk(reg, root)
  {
    set m | m in reg && Under(reg, root, m, n)
  }

  lemma {:induction false} UnderDeeper(reg: Reg, root: nat, m: nat, n: nat)
    requires LinksOk(reg, root) && m in reg && n in reg && Under(reg, root, m, n)
    ensures reg[n].depth <= reg[m].depth && (reg[n].depth == reg[m].depth ==> m == n)
    decreases reg[m].depth
  {
    if m != n {
      ParentAbove(reg, root, m);
      UnderDeeper(reg, root, reg[m].parent, n);
    }
  }

  /** Two nodes of one depth have no common descendant. */
  lemma {:induction false} OneAncestor(reg: Reg, root: nat, m: nat, a: nat, b: nat)
    requires LinksOk(reg, root) && m in reg && a in reg && b in reg && reg[a].depth == reg[b].depth
    requires Under(reg, root, m, a) && Under(reg, root, m, b)
    ensures a == b
    decreases reg[m].depth
  {
    UnderDeeper(reg, root, m, a);
    UnderDeeper(reg, root, m, b);
    if m != a && m != b {
      ParentAbove(reg, root, m);
      OneAncestor(reg, root, reg[m].parent, a, b);
    }
  }

  /** What lies strictly below n lies under one of its children. */
  lemma {:induction false} ChildBetween(reg: Reg, root: nat, m: nat, n: nat) returns (c: nat)
    requires LinksOk(reg, root) && m in reg && n in reg && m != n && Under(reg, root, m, n)
    ensures c in reg[n].children && c in reg && Under(reg, root, m, c)
    decreases reg[m].depth
  {
    ParentAbove(reg, root, m);
    if reg[m].parent == n {
      c := m;
    } else {
      c := ChildBetween(reg, root, reg[m].parent, n);
    }
  }

  lemma {:induction false} UnderChild(reg: Reg, root: nat, m: nat, c: nat, n: nat)
    requires LinksOk(reg, root) && m in reg && n in reg && c in reg[n].children && c in reg && c != root && Under(reg, root, m, c)
    ensures Under(reg, root, m, n)
    decreases reg[m].depth
  {
    if m == c {
      assert KidsLinked(reg, n);
      assert Under(reg, root, n, n);
    } else {
      ParentAbove(reg, root, m);
      UnderChild(reg, root, reg[m].parent, c, n);
    }
  }

  lemma KidNotRoot(reg: Reg, root: nat, n: nat, c: nat)
    requires LinksOk(reg, root) && n in reg && c in reg[n].children
    ensures c in reg && c != root && reg[c].parent == n && reg[c].depth == reg[n].depth + 1
  {
    assert KidsLinked(reg, n);
  }

  /** The subtrees of the first i children of n. */
  ghost function SubKids(reg: Reg, root: nat, n: nat, i: nat): set<nat>
    requires LinksOk(reg, root) && n in reg && i <= |reg[n].children|
  {
    set m | m in reg && exists j :: 0 <= j < i && Under(reg, root, m, reg[n].children[j])
  }

  lemma SubKidsStep(reg: Reg, root: nat, n: nat, i: nat)
    requires LinksOk(reg, root) && n in reg && i < |reg[n].children|
    ensures reg[n].children[i] in reg && reg[n].children[i] != root
    ensures SubKids(reg, root, n, i + 1) == SubKids(reg, root, n, i) + Sub(reg, root, reg[n].children[i])
    ensures SubKids(reg, root, n, i) !! Sub(reg, root, reg[n].children[i])
  {
    var kids := reg[n].children;
    KidNotRoot(reg, root, n, kids[i]);
    assert KidsLinked(reg, n);
    forall m | m in SubKids(reg, root, n, i)
      ensures m !in Sub(reg, root, kids[i])
    {
      var j :| 0 <= j < i && Under(reg, root, m, kids[j]);
      KidNotRoot(reg, root, n, kids[j]);
      if m in Sub(reg, root, kids[i]) { OneAncestor(reg, root, m, kids[j], kids[i]); }
    }
    forall m | m in Sub(reg, root, kids[i])
      ensures m in SubKids(reg, root, n, i + 1)
    {
    }
  }

  /** A subtree is its node and the subtrees of its children. */
  lemma SubIs(reg: Reg, root: nat, n: nat)
    requires LinksOk(reg, root) && n in reg
    ensures Sub(reg, root, n) == SubKids(reg, root, n, |reg[n].children|) + {n}
    ensures n !in SubKids(reg, root, n, |reg[n].children|)
  {
    hide LinksOk, Under;
    var kids := reg[n].children;
    assert Under(reg, root, n, n) by { UnderSelf(reg, root, n); }
    forall m | m in Sub(reg, root, n) && m != n
      ensures m in SubKids(reg, root, n, |kids|)
    {
      var c := ChildBetween(reg, root, m, n);
      var j :| 0 <= j < |kids| && kids[j] == c;
    }
    forall m | m in SubKids(reg, root, n, |kids|)
      ensures m in Sub(reg, root, n) && m != n
    {
      var j :| 0 <= j < |kids| && Under(reg, root, m, kids[j]);
      KidNotRoot(reg, root, n, kids[j]);
      UnderChild(reg, root, m, kids[j], n);
      UnderDeeper(reg, root, m, kids[j]);
    }
  }

  lemma UnderSelf(reg: Reg, root: nat, n: nat)
    requires LinksOk(reg, root) && n in reg
    ensures Under(reg, root, n, n)
  {
  }

  lemma NoKidsYet(reg: Reg, root: nat, n: nat)
    requires LinksOk(reg, root) && n in reg
    ensures SubKids(reg, root, n, 0) == {}
  {
  }
}
