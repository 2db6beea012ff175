/** The shell's current key: printing its path, and cd, which walks such a path. */
module Paths {
  import opened Bytes
  import opened Names
  import opened Registry
  import opened Hives
  import opened Readers
  import opened AddChild
  import opened Subtrees
  import opened DeleteChild

  const BACKSLASH: byte := '\\' as int
  const DOT: byte := '.' as int

  // ---------- print_node_path

  /** The path of n: its names from below the root, each after a backslash. */
  ghost function PathOf(reg: Reg, root: nat, n: nat): seq<byte>
    requires LinksOk(reg, root) && n in reg
    decreases reg[n].depth
  {
    if n == root then [BACKSLASH] else
      ParentAbove(reg, root, n);
      PathOf(reg, root, reg[n].parent) + (if reg[n].parent != root then [BACKSLASH] else []) + CString(reg[n].name)
  }

  /** print_node_path; what it prints is returned. */
  method PrintNodePath(h: Hive, node: nat) returns (out: seq<byte>)
    requires h.Valid() && LinksOk(h.t.reg, h.rootoffs) && node in h.t.reg
    ensures out == PathOf(h.t.reg, h.rootoffs, node)
    decreases h.t.reg[node].depth
  {
    hide Heap.Tiled, Heap.CellsOk, Hive.HeapOk, Hive.Within, TreeOk, LinksOk, NodeOk, NameGood;
    if node == h.rootoffs {
      return [BACKSLASH];
    }
    ParentAbove(h.t.reg, h.rootoffs, node);
    ParentField(h, node);
    NameField(h, node);
    var parent := NodeParent(h, node);
    out := PrintNodePath(h, parent.value);
    if parent.value != h.rootoffs {
      out := out + [BACKSLASH];
    }
    var name := NodeName(h, node);
    out := out + CString(name.value);   // fputs stops at a zero byte
  }

  lemma NameField(h: Hive, node: nat)
    requires h.Valid() && node in h.t.reg
    ensures node in h.cells && h.cells[node].Nk? && h.cells[node].name == h.t.reg[node].name
  {
    hide Heap.Tiled, Heap.CellsOk, Hive.HeapOk, Hive.Within, RolesOk, RingOk, CountsOk, LinksOk, KidsOk, ValsOk;
    NodeIn(h.cells, h.t, node);
  }

  // ---------- cd

  /** strcspn (path, "\\"): how many characters before the first backslash. */
  function Span(path: seq<byte>): (len: nat)
    ensures len <= |path| && BACKSLASH !in path[..len] && (len < |path| ==> path[len] == BACKSLASH)
  {
    if path == [] || path[0] == BACKSLASH then 0 else
      var len := 1 + Span(path[1..]);
      assert path[..len] == [path[0]] + path[1..][..len - 1];
      len
  }

  /** The child a path element names, 0 if there is none. */
  ghost function Named(reg: Reg, kids: seq<nat>, name: seq<byte>): nat {
    if kids == [] then 0
    else if kids[0] in reg && CaseCmp(reg[kids[0]].name, name) == 0 then kids[0]
    else Named(reg, kids[1..], name)
  }

  /** One path element. */
  ghost function StepTo(reg: Reg, root: nat, cur: nat, elem: seq<byte>): nat {
    if elem == [DOT] then cur
    else if elem == [DOT, DOT] then (if cur != root && cur in reg then reg[cur].parent else cur)
    else if cur in reg && |reg[cur].children| <= MAX_SUBKEYS then Named(reg, reg[cur].children, elem)
    else 0
  }

  /** The rest of a path, from cur; 0 when an element is not found. */
  ghost function Walk(reg: Reg, root: nat, cur: nat, path: seq<byte>): nat
    decreases |path|
  {
    var len := Span(path);
    if cur == 0 || path == [] then cur
    else if len == 0 then Walk(reg, root, cur, path[1..])
    else Walk(reg, root, StepTo(reg, root, cur, path[..len]), if len == |path| then [] else path[len + 1..])
  }

  /** Where cd goes: 0 for an error. */
  ghost function Cd(reg: Reg, root: nat, cwd: nat, path: seq<byte>): nat {
    if path == [] then cwd
    else if |path| >= 2 && path[0] == BACKSLASH && path[1] == BACKSLASH then 0
    else if path[0] == BACKSLASH then Walk(reg, root, root, path[1..])
    else Walk(reg, root, cwd, path)
  }

  lemma {:induction false} FirstIsNamed(h: Hive, kids: seq<nat>, name: seq<byte>)
    requires forall x :: x in kids ==> x in h.t.reg && x in h.cells && h.cells[x].Nk? && h.cells[x].name == h.t.reg[x].name
    ensures FirstNamed(h.cells, kids, name) == Named(h.t.reg, kids, name)
  {
    hide CaseCmp;
    if kids != [] {
      assert kids[0] in kids;
      FirstIsNamed(h, kids[1..], name);
    }
  }

  lemma {:induction false} NamedIn(reg: Reg, kids: seq<nat>, name: seq<byte>)
    ensures Named(reg, kids, name) == 0 || (Named(reg, kids, name) in kids && Named(reg, kids, name) in reg)
  {
    if kids != [] && !(kids[0] in reg && CaseCmp(reg[kids[0]].name, name) == 0) { NamedIn(reg, kids[1..], name); }
  }

  /** One element of the path: the new current key, 0 if there is no such child. */
  method CdElem(h: Hive, cur: nat, elem: seq<byte>) returns (next: nat)
    requires h.Valid() && cur in h.t.reg
    ensures next == StepTo(h.t.reg, h.rootoffs, cur, elem) && (next == 0 || next in h.t.reg)
  {
    hide Heap.Tiled, Heap.CellsOk, Hive.HeapOk, Hive.Within, TreeOk, NodeOk, KidsOk, CaseCmp;
    if |elem| == 1 && elem == [DOT] {
      return cur;
    }
    if |elem| == 2 && elem == [DOT, DOT] {
      if cur != h.rootoffs {
        AboveLive(h, cur);
        var parent := NodeParent(h, cur);
        return parent.value;
      }
      return cur;
    }
    LiveKids(h, cur);
    FirstIsNamed(h, h.t.reg[cur].children, elem);
    NamedIn(h.t.reg, h.t.reg[cur].children, elem);
    next := GetChild(h, cur, elem, h.t.owner, h.t.reg[cur].children);
  }

  lemma AboveLive(h: Hive, cur: nat)
    requires h.Valid() && cur in h.t.reg && cur != h.rootoffs
    ensures h.t.reg[cur].parent in h.t.reg && cur in h.cells && h.cells[cur].Nk?
            && P(h.cells[cur].parent) == h.t.reg[cur].parent && P(h.cells[cur].parent) in h.cells
  {
    hide Heap.Tiled, Heap.CellsOk, Hive.HeapOk, Hive.Within, PartOk;
    ParentAbove(h.t.reg, h.rootoffs, cur);
    hide LinksOk;
    ParentField(h, cur);
  }

  /** The walk of cmd_cd: the new current key, 0 for an error. */
  method WalkPath(h: Hive, cwd: nat, path: seq<byte>) returns (r: nat)
    requires h.Valid() && cwd in h.t.reg && cwd != 0 && h.rootoffs in h.t.reg && h.rootoffs != 0
    ensures r == Cd(h.t.reg, h.rootoffs, cwd, path) && (r == 0 || r in h.t.reg)
  {
    hide Heap.Tiled, Heap.CellsOk, Hive.HeapOk, Hive.Within, TreeOk, StepTo;
    if |path| == 0 {
      return cwd;
    }
    if |path| >= 2 && path[0] == BACKSLASH && path[1] == BACKSLASH {
      return 0;
    }
    var cur, rest := cwd, path;
    if path[0] == BACKSLASH {
      cur, rest := h.rootoffs, path[1..];
    }
    while rest != []
      invariant cur != 0 && cur in h.t.reg
      invariant Cd(h.t.reg, h.rootoffs, cwd, path) == Walk(h.t.reg, h.rootoffs, cur, rest)
      decreases |rest|
    {
      var len := Span(rest);
      if len == 0 {
        rest := rest[1..];
        continue;
      }
      var elem := rest[..len];
      rest := if len == |rest| then [] else rest[len + 1..];
      cur := CdElem(h, cur, elem);
      if cur == 0 {
        return 0;
      }
    }
    return cur;
  }

  lemma DotsLead(h: Hive, cwd: nat)
    requires h.Valid() && cwd in h.t.reg && cwd != 0
    ensures Cd(h.t.reg, h.rootoffs, cwd, [46]) == cwd
    ensures var up := Cd(h.t.reg, h.rootoffs, cwd, [46, 46]);
            up != 0 && up in h.t.reg && if cwd == h.rootoffs then up == cwd else cwd in h.t.reg[up].children
  {
    hide Heap.Tiled, Heap.CellsOk, Hive.HeapOk, PartOk, KidsLinked;
    NoZero(h);
    WalkOne(h.t.reg, h.rootoffs, cwd, [46]);
    CdUp(h.t.reg, h.rootoffs, cwd);
  }

  class Shell {
    const h: Hive
    var cwd: nat

    constructor (hive: Hive, start: nat)
      ensures h == hive && cwd == start
    {
      h, cwd := hive, start;
    }

    /** cmd_cd: goes where the path leads, or stays when it leads nowhere. */
    method CmdCd(path: seq<byte>) returns (ok: bool)
      requires h.Valid() && cwd in h.t.reg && cwd != 0 && h.rootoffs in h.t.reg && h.rootoffs != 0
      modifies this`cwd
      ensures ok <==> Cd(h.t.reg, h.rootoffs, old(cwd), path) != 0
      ensures cwd == (if ok then Cd(h.t.reg, h.rootoffs, old(cwd), path) else old(cwd)) && cwd in h.t.reg
      ensures path == [46] ==> ok && cwd == old(cwd)
      ensures path == [46, 46] ==> ok && if old(cwd) == h.rootoffs then cwd == h.rootoffs else old(cwd) in h.t.reg[cwd].children
    {
      hide Heap.Tiled, Heap.CellsOk, Hive.HeapOk, TreeOk, Walk, Cd;
      var to := WalkPath(h, cwd, path);
      DotsLead(h, cwd);
      if to == 0 {
        return false;
      }
      cwd := to;
      return true;
    }
  }

  // ---------- the printed path leads back

  ghost predicate GoodName(name: seq<byte>) {
    name != [] && BACKSLASH !in name && name != [DOT] && name != [DOT, DOT]
  }

  ghost predicate NamesDiffer(reg: Reg, kids: seq<nat>) {
    forall i, j :: 0 <= i < j < |kids| ==>
      kids[i] in reg && kids[j] in reg && CaseCmp(reg[kids[i]].name, reg[kids[j]].name) != 0
  }

  /** Every child has a good name, and no two children of a node match. */
  ghost predicate GoodNames(reg: Reg, root: nat) {
    (forall n :: n in reg && n != root ==> GoodName(CString(reg[n].name)))
    && (forall n :: n in reg ==> NamesDiffer(reg, reg[n].children))
  }

  /** The first element of a path does not depend on what follows its backslash. */
  lemma {:induction false} SpanPrefix(p: seq<byte>, q: seq<byte>)
    ensures Span(p + [BACKSLASH] + q) == Span(p)
  {
    var w := p + [BACKSLASH] + q;
    if p == [] {
      assert w[0] == BACKSLASH;
    } else if p[0] != BACKSLASH {
      SpanPrefix(p[1..], q);
      assert w[1..] == p[1..] + [BACKSLASH] + q;
    }
  }

  lemma {:induction false} SpanAll(p: seq<byte>)
    requires BACKSLASH !in p
    ensures Span(p) == |p|
  {
    if p != [] { SpanAll(p[1..]); }
  }

  /** One path element: some characters, no backslash. */
  predicate Element(e: seq<byte>) { e != [] && BACKSLASH !in e }

  lemma WalkOne(reg: Reg, root: nat, cur: nat, name: seq<byte>)
    requires Element(name) && cur != 0
    ensures Walk(reg, root, cur, name) == StepTo(reg, root, cur, name)
  {
    hide StepTo, Span;
    SpanAll(name);
    assert name[..|name|] == name;
  }

  /** The three ways a walk goes on. */
  lemma WalkNext(reg: Reg, root: nat, cur: nat, p: seq<byte>)
    requires cur != 0 && p != []
    ensures Span(p) == 0 ==> Walk(reg, root, cur, p) == Walk(reg, root, cur, p[1..])
    ensures 0 < Span(p) == |p| ==> Walk(reg, root, cur, p) == StepTo(reg, root, cur, p)
    ensures 0 < Span(p) < |p| ==> Walk(reg, root, cur, p) == Walk(reg, root, StepTo(reg, root, cur, p[..Span(p)]), p[Span(p) + 1..])
  {
    hide StepTo, Span;
    assert p[..|p|] == p;
  }

  /** Walking a longer path is walking its beginning and taking one more step. */
  lemma {:induction false} WalkSnoc(reg: Reg, root: nat, cur: nat, p: seq<byte>, name: seq<byte>)
    requires Element(name) && Walk(reg, root, cur, p) != 0
    ensures Walk(reg, root, cur, p + [BACKSLASH] + name) == StepTo(reg, root, Walk(reg, root, cur, p), name)
    decreases |p|
  {
    hide StepTo, Span, Element, Walk;
    var w, len := p + [BACKSLASH] + name, Span(p);
    Stuck(reg, root, p);
    SpanPrefix(p, name);
    WalkNext(reg, root, cur, w);
    if p == [] {
      SpanNone(reg, root, cur);
      assert w[1..] == name;
      WalkOne(reg, root, cur, name);
    } else if len == 0 {
      WalkNext(reg, root, cur, p);
      assert w[1..] == p[1..] + [BACKSLASH] + name;
      WalkSnoc(reg, root, cur, p[1..], name);
    } else if len == |p| {
      WalkNext(reg, root, cur, p);
      assert w[..len] == p && w[len + 1..] == name;
      WalkOne(reg, root, StepTo(reg, root, cur, p), name);
    } else {
      WalkNext(reg, root, cur, p);
      var next := StepTo(reg, root, cur, p[..len]);
      assert w[..len] == p[..len] && w[len + 1..] == p[len + 1..] + [BACKSLASH] + name;
      WalkSnoc(reg, root, next, p[len + 1..], name);
    }
  }

  lemma SpanNone(reg: Reg, root: nat, cur: nat)
    ensures Span([]) == 0 && Walk(reg, root, cur, []) == cur
  {
  }

  /** A walk that has failed goes nowhere. */
  lemma Stuck(reg: Reg, root: nat, p: seq<byte>)
    ensures Walk(reg, root, 0, p) == 0
  {
  }

  /** Among children with distinct names, a child's own name finds it. */
  lemma {:induction false} NamedFinds(reg: Reg, kids: seq<nat>, i: nat)
    requires i < |kids| && forall k :: k in kids ==> k in reg
    requires NamesDiffer(reg, kids)
    ensures Named(reg, kids, CString(reg[kids[i]].name)) == kids[i]
  {
    hide CaseCmp;
    assert kids[0] in kids;
    CmpCString(reg[kids[0]].name, reg[kids[i]].name);
    if i == 0 {
      CmpSelf(reg[kids[0]].name);
    } else {
      NamedFinds(reg, kids[1..], i - 1);
    }
  }

  lemma StepDown(reg: Reg, root: nat, n: nat)
    requires LinksOk(reg, root) && GoodNames(reg, root) && n in reg && n != root && reg[n].parent in reg
    requires |reg[reg[n].parent].children| <= MAX_SUBKEYS
    ensures StepTo(reg, root, reg[n].parent, CString(reg[n].name)) == n
  {
    hide CaseCmp, Named;
    var p := reg[n].parent;
    assert KidsLinked(reg, p);
    var i :| 0 <= i < |reg[p].children| && reg[p].children[i] == n;
    NamedFinds(reg, reg[p].children, i);
  }

  /** No node above n has more children than can be read. */
  ghost predicate FewAbove(reg: Reg, root: nat, n: nat)
    requires LinksOk(reg, root) && n in reg
    decreases reg[n].depth
  {
    n == root || (ParentAbove(reg, root, n);
                  |reg[reg[n].parent].children| <= MAX_SUBKEYS && FewAbove(reg, root, reg[n].parent))
  }

  /** p starts with a single backslash, and the rest of it leads from the root to n. */
  ghost predicate LeadsTo(reg: Reg, root: nat, p: seq<byte>, n: nat) {
    |p| >= 1 && p[0] == BACKSLASH && (|p| >= 2 ==> p[1] != BACKSLASH) && (n != root ==> |p| >= 2)
    && Walk(reg, root, root, p[1..]) == n
  }

  lemma LeadsOne(reg: Reg, root: nat, name: seq<byte>, n: nat)
    requires root != 0 && GoodName(name) && StepTo(reg, root, root, name) == n
    ensures LeadsTo(reg, root, [BACKSLASH] + name, n)
  {
    hide Walk, StepTo;
    assert ([BACKSLASH] + name)[1..] == name;
    WalkOne(reg, root, root, name);
  }

  lemma LeadsOn(reg: Reg, root: nat, p: seq<byte>, q: nat, name: seq<byte>, n: nat)
    requires LeadsTo(reg, root, p, q) && q != 0 && q != root && GoodName(name) && StepTo(reg, root, q, name) == n
    ensures LeadsTo(reg, root, p + [BACKSLASH] + name, n)
  {
    hide Walk, StepTo;
    assert (p + [BACKSLASH] + name)[1..] == p[1..] + [BACKSLASH] + name;
    WalkSnoc(reg, root, root, p[1..], name);
  }

  /** One step of the printed path. */
  lemma PathStep(reg: Reg, root: nat, n: nat)
    requires LinksOk(reg, root) && GoodNames(reg, root) && n in reg && n != root && FewAbove(reg, root, n)
    ensures reg[n].parent in reg && reg[n].depth == reg[reg[n].parent].depth + 1 && FewAbove(reg, root, reg[n].parent)
    ensures GoodName(CString(reg[n].name)) && StepTo(reg, root, reg[n].parent, CString(reg[n].name)) == n
    ensures PathOf(reg, root, n) == (if reg[n].parent == root then [BACKSLASH] else PathOf(reg, root, reg[n].parent) + [BACKSLASH])
                                    + CString(reg[n].name)
  {
    hide StepTo, Span, Named, CaseCmp, CString, NamesDiffer, GoodName, KidsLinked;
    ParentAbove(reg, root, n);
    StepDown(reg, root, n);
    hide LinksOk, GoodNames;
    PathText(reg, root, n);
  }

  lemma PathText(reg: Reg, root: nat, n: nat)
    requires LinksOk(reg, root) && n in reg && n != root && reg[n].parent in reg
    ensures PathOf(reg, root, n) == (if reg[n].parent == root then [BACKSLASH] else PathOf(reg, root, reg[n].parent) + [BACKSLASH])
                                    + CString(reg[n].name)
  {
    hide LinksOk, CString;
    if reg[n].parent == root { assert PathOf(reg, root, root) + [] == [BACKSLASH]; }
  }

  lemma PathOfRoot(reg: Reg, root: nat)
    requires LinksOk(reg, root) && root in reg
    ensures LeadsTo(reg, root, PathOf(reg, root, root), root)
  {
    hide LinksOk;
    assert [BACKSLASH][1..] == [];
  }

  lemma {:induction false} PathLeads(reg: Reg, root: nat, n: nat)
    requires LinksOk(reg, root) && GoodNames(reg, root) && 0 !in reg && root in reg && n in reg && FewAbove(reg, root, n)
    ensures LeadsTo(reg, root, PathOf(reg, root, n), n)
    decreases reg[n].depth
  {
    hide StepTo, LinksOk, GoodNames, LeadsTo, PathOf, FewAbove, CString;
    if n == root {
      PathOfRoot(reg, root);
    } else {
      PathStep(reg, root, n);
      var q, name := reg[n].parent, CString(reg[n].name);
      PathLeads(reg, root, q);
      if q == root { LeadsOne(reg, root, name, n); } else { LeadsOn(reg, root, PathOf(reg, root, q), q, name, n); }
    }
  }

  /** cd to the path printed for n goes to n, from anywhere. */
  lemma CdOfPath(reg: Reg, root: nat, cwd: nat, n: nat)
    requires LinksOk(reg, root) && GoodNames(reg, root) && 0 !in reg && n in reg && FewAbove(reg, root, n)
    ensures Cd(reg, root, cwd, PathOf(reg, root, n)) == n
  {
    hide Walk, GoodNames;
    PathLeads(reg, root, n);
  }

  /** print_node_path, then cd to what it printed. */
  method PrintThenCd(h: Hive, node: nat, cwd: nat) returns (ok: bool, r: nat)
    requires h.Valid() && LinksOk(h.t.reg, h.rootoffs) && GoodNames(h.t.reg, h.rootoffs)
    requires node in h.t.reg && cwd in h.t.reg && FewAbove(h.t.reg, h.rootoffs, node)
    ensures ok && r == node
  {
    hide Heap.Tiled, Heap.CellsOk, Hive.HeapOk, Hive.Within, TreeOk, LinksOk, GoodNames;
    NoZero(h);
    var path := PrintNodePath(h, node);
    CdOfPath(h.t.reg, h.rootoffs, cwd, node);
    var sh := new Shell(h, cwd);
    ok := sh.CmdCd(path);
    r := sh.cwd;
  }

  /** No node is at offset 0. */
  lemma NoZero(h: Hive)
    requires h.Valid()
    ensures 0 !in h.t.reg && h.rootoffs in h.t.reg
  {
    hide Heap.Tiled, Heap.CellsOk, Hive.HeapOk, Hive.Within, NodeOk, RolesOk, RingOk, CountsOk;
    if 0 in h.t.reg {
      NkRole(h.cells, h.t, 0);
      h.CellValid(0);
    }
  }

  // ---------- dots

  /** A path that leads somewhere leads one element further when that element is appended. */
  lemma CdAppend(reg: Reg, root: nat, cwd: nat, path: seq<byte>, e: seq<byte>)
    requires path != [] && path != [BACKSLASH] && Element(e) && cwd != 0 && Cd(reg, root, cwd, path) != 0
    ensures Cd(reg, root, cwd, path + [BACKSLASH] + e) == StepTo(reg, root, Cd(reg, root, cwd, path), e)
  {
    hide Walk, StepTo, Element;
    var longer := path + [BACKSLASH] + e;
    if path[0] == BACKSLASH {
      assert longer[1..] == path[1..] + [BACKSLASH] + e;
      WalkSnoc(reg, root, root, path[1..], e);
    } else {
      WalkSnoc(reg, root, cwd, path, e);
    }
  }

  /** n is the parent of m: its children list m. */
  ghost predicate Lists(reg: Reg, n: nat, m: nat) { n in reg && m in reg[n].children }

  /** cd .. goes to the key that lists the current one, and stays at the root. */
  lemma CdUp(reg: Reg, root: nat, cwd: nat)
    requires LinksOk(reg, root) && cwd in reg && cwd != 0
    ensures cwd == root ==> Cd(reg, root, cwd, [46, 46]) == root
    ensures cwd != root ==> Lists(reg, Cd(reg, root, cwd, [46, 46]), cwd)
  {
    WalkOne(reg, root, cwd, [46, 46]);
    if cwd != root { ParentAbove(reg, root, cwd); }
  }

  /** Appending `\.` changes nothing; appending `\..` leads to the key that lists the one it led to. */
  lemma CdDots(reg: Reg, root: nat, cwd: nat, path: seq<byte>)
    requires LinksOk(reg, root) && cwd != 0 && path != [] && path != [BACKSLASH]
    requires Cd(reg, root, cwd, path) != 0 && Cd(reg, root, cwd, path) in reg
    ensures Cd(reg, root, cwd, path + [BACKSLASH] + [46]) == Cd(reg, root, cwd, path)
    ensures Cd(reg, root, cwd, path) == root ==> Cd(reg, root, cwd, path + [BACKSLASH] + [46, 46]) == root
    ensures Cd(reg, root, cwd, path) != root ==>
              Lists(reg, Cd(reg, root, cwd, path + [BACKSLASH] + [46, 46]), Cd(reg, root, cwd, path))
  {
    hide Cd;
    CdAppend(reg, root, cwd, path, [46]);
    CdAppend(reg, root, cwd, path, [46, 46]);
    var to := Cd(reg, root, cwd, path);
    if to != root { ParentAbove(reg, root, to); }
  }

  /** Down to a child and up again: cd of its name and `\..` comes back. */
  lemma CdThereAndBack(reg: Reg, root: nat, cwd: nat, child: nat)
    requires LinksOk(reg, root) && GoodNames(reg, root) && 0 !in reg && cwd in reg && child in reg[cwd].children
    requires |reg[cwd].children| <= MAX_SUBKEYS
    ensures child in reg && Cd(reg, root, cwd, CString(reg[child].name) + [BACKSLASH] + [46, 46]) == cwd
  {
    KidNotRoot(reg, root, cwd, child);
    StepDown(reg, root, child);
    assert GoodName(CString(reg[child].name));
    hide LinksOk, GoodNames, NamesDiffer, CString;
    CdName(reg, root, cwd, CString(reg[child].name), child);
    CdAppend(reg, root, cwd, CString(reg[child].name), [46, 46]);
  }

  lemma CdName(reg: Reg, root: nat, cwd: nat, name: seq<byte>, to: nat)
    requires GoodName(name) && cwd != 0 && StepTo(reg, root, cwd, name) == to
    ensures Cd(reg, root, cwd, name) == to && name != [BACKSLASH]
  {
    hide StepTo, Walk;
    WalkOne(reg, root, cwd, name);
    assert name[0] in name;
  }

  // ---------- the printed path, written out

  /** The names from below the root down to n. */
  ghost function NamesTo(reg: Reg, root: nat, n: nat): seq<seq<byte>>
    requires LinksOk(reg, root) && n in reg
    decreases reg[n].depth
  {
    if n == root then [] else
      ParentAbove(reg, root, n);
      NamesTo(reg, root, reg[n].parent) + [CString(reg[n].name)]
  }

  /** Names with one backslash before each. */
  function Slashed(names: seq<seq<byte>>): seq<byte> {
    if names == [] then [] else Slashed(names[..|names| - 1]) + [BACKSLASH] + names[|names| - 1]
  }

  /** The path of the root is a backslash; any other is its names with one backslash before each. */
  lemma {:induction false} PathIs(reg: Reg, root: nat, n: nat)
    requires LinksOk(reg, root) && n in reg
    ensures PathOf(reg, root, n) == if n == root then [BACKSLASH] else Slashed(NamesTo(reg, root, n))
    decreases reg[n].depth
  {
    hide LinksOk, Slashed;
    if n != root {
      ParentAbove(reg, root, n);
      var q, name := reg[n].parent, CString(reg[n].name);
      hide CString;
      PathIs(reg, root, q);
      assert NamesTo(reg, root, n) == NamesTo(reg, root, q) + [name];
      SlashedSnoc(NamesTo(reg, root, q), name);
      if q == root { RootSlashed(reg, root); }
    }
  }

  lemma SlashedSnoc(names: seq<seq<byte>>, name: seq<byte>)
    ensures Slashed(names + [name]) == Slashed(names) + [BACKSLASH] + name
  {
    var all := names + [name];
    assert all[..|all| - 1] == names;
  }

  lemma RootSlashed(reg: Reg, root: nat)
    requires LinksOk(reg, root) && root in reg
    ensures Slashed(NamesTo(reg, root, root)) + [BACKSLASH] == [BACKSLASH]
  {
    hide LinksOk;
  }
}
