/** The registry tree that the records of a hive stand for, and when they do. */
module Registry {
  import opened Bytes
  import opened Records

  /** A value of a node: key, type and bytes. */
  datatype Value = Value(key: seq<byte>, typ: u32, data: seq<byte>)

  /** A node, named by the offset of its nk record; sk is the offset of its security record, 0 if none. */
  datatype Info = Info(name: seq<byte>, parent: nat, depth: nat, children: seq<nat>, values: seq<Value>, sk: nat)

  /** What a block is for. Every block has one role, so blocks of different roles are different. */
  datatype Role = NkOf(n: nat) | RiOf(n: nat) | LfOf(n: nat, i: nat) | ValListOf(n: nat) | VkOf(n: nat, i: nat)
                | DataOf(n: nat, i: nat) | ClassOf(n: nat) | SkOf

  type Cells = map<nat, Rec>
  type Reg = map<nat, Info>
  type Owner = map<nat, Role>

  /** Nodes, block roles, and the security records in the order of their ring. */
  datatype Tree = Tree(reg: Reg, owner: Owner, ring: seq<nat>)

  /** Offset of the block a stored 32-bit offset points to. */
  function P(x: u32): nat { x as int + 0x1000 }
  function Ps(xs: seq<u32>): (r: seq<nat>)
    ensures |r| == |xs| && forall i :: 0 <= i < |xs| ==> r[i] == P(xs[i])
  {
    seq(|xs|, i requires 0 <= i < |xs| => P(xs[i]))
  }
  function KeyPs(ks: seq<Key>): (r: seq<nat>)
    ensures |r| == |ks| && forall i :: 0 <= i < |ks| ==> r[i] == P(ks[i].off)
  {
    seq(|ks|, i requires 0 <= i < |ks| => P(ks[i].off))
  }

  ghost predicate Is(c: Cells, o: Owner, b: nat, r: Role) {
    b in c && b in o && o[b] == r
  }

  // ---------- the subkey lists of a node

  ghost predicate AllLf(c: Cells, ls: seq<nat>) {
    forall i :: 0 <= i < |ls| ==> ls[i] in c && c[ls[i]].Lf?
  }

  /** The children listed by lf/lh blocks, in reading order. */
  ghost function Flat(c: Cells, ls: seq<nat>): seq<nat>
    requires AllLf(c, ls)
  {
    if ls == [] then [] else
      assert ls[0] in c;
      KeyPs(c[ls[0]].keys) + Flat(c, ls[1..])
  }

  /** The lf/lh blocks reached from subkey_lf = l: l itself, or those its ri lists. */
  ghost function Lfs(c: Cells, l: nat): seq<nat>
    requires l in c
  {
    if c[l].Ri? then Ps(c[l].offs) else [l]
  }

  ghost predicate LfsOk(c: Cells, o: Owner, n: nat, ls: seq<nat>) {
    forall i :: 0 <= i < |ls| ==> Is(c, o, ls[i], LfOf(n, i)) && c[ls[i]].Lf?
  }

  ghost predicate ListsOk(c: Cells, o: Owner, n: nat, l: nat, kids: seq<nat>) {
    l in c && l in o && (c[l].Ri? || c[l].Lf?) && (c[l].Ri? ==> o[l] == RiOf(n))
    && LfsOk(c, o, n, Lfs(c, l)) && Flat(c, Lfs(c, l)) == kids
  }

  ghost predicate KidsOk(c: Cells, o: Owner, n: nat, kids: seq<nat>)
    requires n in c && c[n].Nk?
  {
    c[n].nrSubkeys == |kids| && (kids != [] ==> ListsOk(c, o, n, P(c[n].subkeyLf), kids))
  }

  // ---------- the values of a node

  const INLINE := 0x8000_0000     // top bit of data_len: the data is in the vk record itself
  const MAX_VALUE_LEN := 1_000_000

  ghost predicate DataOk(c: Cells, o: Owner, n: nat, i: nat, vk: Rec, data: seq<byte>)
    requires vk.Vk?
  {
    if vk.dataLen >= INLINE then
      vk.dataLen - INLINE <= 4 && data == Le32(vk.data)[..vk.dataLen - INLINE]
    else
      vk.dataLen <= MAX_VALUE_LEN
      && Is(c, o, P(vk.data), DataOf(n, i)) && c[P(vk.data)].Blob?
      && data == (var b := c[P(vk.data)].bytes; if vk.dataLen > |b| then b else b[..vk.dataLen])
  }

  ghost predicate ValueOk(c: Cells, o: Owner, n: nat, i: nat, k: nat, val: Value) {
    Is(c, o, k, VkOf(n, i)) && c[k].Vk? && c[k].key == val.key && c[k].typ == val.typ
    && DataOk(c, o, n, i, c[k], val.data)
  }

  ghost predicate ValListOk(c: Cells, o: Owner, n: nat, v: nat, count: nat, vals: seq<Value>) {
    Is(c, o, v, ValListOf(n)) && c[v].ValList? && |c[v].vks| == count && |vals| <= count
    && forall i :: 0 <= i < |vals| ==> ValueOk(c, o, n, i, P(c[v].vks[i]), vals[i])
  }

  ghost predicate ValsOk(c: Cells, o: Owner, n: nat, vals: seq<Value>)
    requires n in c && c[n].Nk?
  {
    c[n].nrValues == |vals| && (vals != [] ==> ValListOk(c, o, n, P(c[n].vallist), |vals|, vals))
  }

  // ---------- nodes, roles, security records, links

  function SkPtr(x: u32): nat { if x == NONE then 0 else P(x) }

  ghost predicate NkOk(c: Cells, o: Owner, n: nat, info: Info) {
    Is(c, o, n, NkOf(n)) && c[n].Nk? && c[n].name == info.name && P(c[n].parent) == info.parent
    && SkPtr(c[n].sk) == info.sk
    && (c[n].classname != NONE ==> Is(c, o, P(c[n].classname), ClassOf(n)))
  }

  ghost predicate NodeOk(c: Cells, o: Owner, n: nat, info: Info) {
    NkOk(c, o, n, info) && KidsOk(c, o, n, info.children) && ValsOk(c, o, n, info.values)
  }

  ghost predicate VkIs(c: Cells, n: nat, i: nat, b: nat)
    requires n in c && c[n].Nk?
  {
    var v := P(c[n].vallist);
    c[n].nrValues > 0 && v in c && c[v].ValList? && i < |c[v].vks| && P(c[v].vks[i]) == b
  }

  /** A role names a block only when the node's records really lead to that block. */
  ghost predicate RoleOk(c: Cells, reg: Reg, b: nat, r: Role) {
    if r.SkOf? then b in c && c[b].Sk? else
      r.n in reg && r.n in c && c[r.n].Nk? &&
      var n, nk := r.n, c[r.n];
      match r
      case NkOf(_) => b == n
      case RiOf(_) => nk.nrSubkeys > 0 && P(nk.subkeyLf) == b && b in c && c[b].Ri?
      case LfOf(_, i) => nk.nrSubkeys > 0 && P(nk.subkeyLf) in c && i < |Lfs(c, P(nk.subkeyLf))|
                         && Lfs(c, P(nk.subkeyLf))[i] == b && b in c && c[b].Lf?
      case ValListOf(_) => nk.nrValues > 0 && P(nk.vallist) == b
      case VkOf(_, i) => i < |reg[n].values| && VkIs(c, n, i, b) && b in c && c[b].Vk?
      case DataOf(_, i) => i < |reg[n].values| && P(nk.vallist) in c && c[P(nk.vallist)].ValList?
                           && i < |c[P(nk.vallist)].vks| && nk.nrValues > 0
                           && (var k := P(c[P(nk.vallist)].vks[i]);
                               k in c && c[k].Vk? && c[k].dataLen < INLINE && P(c[k].data) == b)
      case ClassOf(_) => nk.classname != NONE && P(nk.classname) == b
  }

  ghost predicate RolesOk(c: Cells, t: Tree) {
    c.Keys == t.owner.Keys && forall b :: b in t.owner ==> RoleOk(c, t.reg, b, t.owner[b])
  }

  ghost function Users(reg: Reg, s: nat): set<nat> {
    set n | n in reg && reg[n].sk == s
  }

  function Succ(i: nat, k: nat): (j: nat)
    ensures i < k ==> j < k
  {
     if i + 1 == k then 0 else i + 1
  }

  function Pred(i: nat, k: nat): nat
    requires i < k
  {
    if i == 0 then k - 1 else i - 1
  }

  /** Member i of the ring is a security record linked to its two neighbours. */
  ghost predicate LinkedAt(c: Cells, o: Owner, ring: seq<nat>, i: nat)
    requires i < |ring|
  {
    Is(c, o, ring[i], SkOf) && c[ring[i]].Sk?
    && P(c[ring[i]].next) == ring[Succ(i, |ring|)] && P(c[ring[i]].prev) == ring[Pred(i, |ring|)]
  }

  /** The security records form one closed doubly linked ring. */
  ghost predicate RingOk(c: Cells, t: Tree) {
    (forall i :: 0 <= i < |t.ring| ==> LinkedAt(c, t.owner, t.ring, i)) && Distinct(t.ring)
    && (forall s :: s in t.owner && t.owner[s].SkOf? ==> s in t.ring)
  }

  ghost predicate CountsOk(c: Cells, t: Tree) {
    (forall s :: s in t.owner && t.owner[s].SkOf? ==> s in c && c[s].Sk? && c[s].refcount == |Users(t.reg, s)|)
    && (forall n :: n in t.reg && t.reg[n].sk != 0 ==> t.reg[n].sk in t.owner && t.owner[t.reg[n].sk].SkOf?)
  }

  ghost predicate Distinct(s: seq<nat>) {
    forall i, j :: 0 <= i < j < |s| ==> s[i] != s[j]
  }

  ghost predicate KidsLinked(reg: Reg, n: nat)
    requires n in reg
  {
    Distinct(reg[n].children)
    && forall c :: c in reg[n].children ==> c in reg && reg[c].parent == n && reg[c].depth == reg[n].depth + 1
  }

  /** Nodes form a tree under root: parents list their children and children name their parent. */
  ghost predicate LinksOk(reg: Reg, root: nat) {
    root in reg && reg[root].depth == 0
    && (forall n :: n in reg ==> KidsLinked(reg, n))
    && (forall n :: n in reg && n != root ==> reg[n].parent in reg && n in reg[reg[n].parent].children)
  }

  ghost predicate NodesOk(c: Cells, t: Tree) {
    forall n :: n in t.reg ==> NodeOk(c, t.owner, n, t.reg[n])
  }

  /** All of TreeOk but the links: holds also while a subtree is being deleted. */
  ghost predicate PartOk(c: Cells, t: Tree) {
    NodesOk(c, t) && RolesOk(c, t) && RingOk(c, t) && CountsOk(c, t)
  }

  ghost predicate TreeOk(c: Cells, t: Tree, root: nat) {
    PartOk(c, t) && LinksOk(t.reg, root)
  }

  // ---------- what depends on what

  ghost predicate OwnedBy(r: Role, n: nat) { !r.SkOf? && r.n == n }
  predicate ListRole(r: Role) { r.RiOf? || r.LfOf? }
  predicate ValueRole(r: Role) { r.ValListOf? || r.VkOf? || r.DataOf? }

  /** The blocks that list the children of n. */
  ghost function ListSet(o: Owner, n: nat): set<nat> {
    set b | b in o && OwnedBy(o[b], n) && ListRole(o[b])
  }

  /** Block b keeps its role and its record. */
  ghost predicate Kept(c: Cells, o: Owner, c': Cells, o': Owner, b: nat) {
    b in c && b in o && b in c' && b in o' && o'[b] == o[b] && c'[b] == c[b]
  }

  ghost predicate ListsKept(c: Cells, o: Owner, c': Cells, o': Owner, n: nat) {
    forall b :: b in o && OwnedBy(o[b], n) && ListRole(o[b]) ==> Kept(c, o, c', o', b)
  }

  ghost predicate ValuesKept(c: Cells, o: Owner, c': Cells, o': Owner, n: nat) {
    forall b :: b in o && OwnedBy(o[b], n) && ValueRole(o[b]) ==> Kept(c, o, c', o', b)
  }

  ghost predicate AllKept(c: Cells, o: Owner, c': Cells, o': Owner, n: nat) {
    forall b :: b in o && OwnedBy(o[b], n) ==> Kept(c, o, c', o', b)
  }

  lemma {:induction false} FlatKept(c: Cells, c': Cells, ls: seq<nat>)
    requires AllLf(c, ls) && AllLf(c', ls)
    requires forall i :: 0 <= i < |ls| ==> c'[ls[i]].keys == c[ls[i]].keys
    ensures Flat(c', ls) == Flat(c, ls)
  {
    if ls != [] {
      assert ls[0] in c;
      FlatKept(c, c', ls[1..]);
    }
  }

  /** Flat distributes over concatenation of lists. */
  lemma {:induction false} FlatCat(c: Cells, xs: seq<nat>, ys: seq<nat>)
    requires AllLf(c, xs) && AllLf(c, ys)
    ensures AllLf(c, xs + ys) && Flat(c, xs + ys) == Flat(c, xs) + Flat(c, ys)
  {
    if xs == [] {
      assert xs + ys == ys;
    } else {
      assert xs[0] in c;
      FlatCat(c, xs[1..], ys);
      assert (xs + ys)[1..] == xs[1..] + ys;
    }
  }

  lemma FlatOne(c: Cells, l: nat)
    requires l in c && c[l].Lf?
    ensures AllLf(c, [l]) && Flat(c, [l]) == KeyPs(c[l].keys)
  {
    assert Flat(c, [l][1..]) == [];
  }

  lemma FlatSnoc(c: Cells, ls: seq<nat>, i: nat)
    requires AllLf(c, ls) && i < |ls|
    ensures ls[i] in c && AllLf(c, ls[..i]) && AllLf(c, ls[..i + 1])
    ensures Flat(c, ls[..i + 1]) == Flat(c, ls[..i]) + KeyPs(c[ls[i]].keys)
  {
    assert ls[..i + 1] == ls[..i] + [ls[i]];
    FlatOne(c, ls[i]);
    FlatCat(c, ls[..i], [ls[i]]);
  }

  lemma KidsFrame(c: Cells, o: Owner, c': Cells, o': Owner, n: nat, kids: seq<nat>)
    requires n in c && c[n].Nk? && KidsOk(c, o, n, kids) && ListsKept(c, o, c', o', n)
    requires n in c' && c'[n].Nk? && c'[n].nrSubkeys == c[n].nrSubkeys && c'[n].subkeyLf == c[n].subkeyLf
    ensures KidsOk(c', o', n, kids)
  {
    if kids != [] {
      var l := P(c[n].subkeyLf);
      var ls := Lfs(c, l);
      assert c[l].Lf? ==> ls[0] == l;
      assert Kept(c, o, c', o', l);
      forall i | 0 <= i < |ls|
        ensures Kept(c, o, c', o', ls[i])
      {
        assert Is(c, o, ls[i], LfOf(n, i));
      }
      assert LfsOk(c', o', n, ls);
      FlatKept(c, c', ls);
    }
  }

  lemma ValueFrame(c: Cells, o: Owner, c': Cells, o': Owner, n: nat, i: nat, k: nat, val: Value)
    requires ValueOk(c, o, n, i, k, val) && ValuesKept(c, o, c', o', n)
    ensures ValueOk(c', o', n, i, k, val)
  {
    assert Kept(c, o, c', o', k);
    if c[k].dataLen < INLINE { assert Kept(c, o, c', o', P(c[k].data)); }
  }

  lemma ValsFrame(c: Cells, o: Owner, c': Cells, o': Owner, n: nat, vals: seq<Value>)
    requires n in c && c[n].Nk? && ValsOk(c, o, n, vals) && ValuesKept(c, o, c', o', n)
    requires n in c' && c'[n].Nk? && c'[n].nrValues == c[n].nrValues && c'[n].vallist == c[n].vallist
    ensures ValsOk(c', o', n, vals)
  {
    hide ValueOk;
    if vals != [] {
      var v := P(c[n].vallist);
      assert Kept(c, o, c', o', v);
      forall i | 0 <= i < |vals|
        ensures ValueOk(c', o', n, i, P(c'[v].vks[i]), vals[i])
      {
        ValueFrame(c, o, c', o', n, i, P(c[v].vks[i]), vals[i]);
      }
    }
  }

  lemma NodeFrame(c: Cells, o: Owner, c': Cells, o': Owner, n: nat, info: Info)
    requires NodeOk(c, o, n, info) && AllKept(c, o, c', o', n)
    ensures NodeOk(c', o', n, info)
  {
    hide KidsOk, ValsOk;
    assert Kept(c, o, c', o', n);
    if c[n].classname != NONE { assert Kept(c, o, c', o', P(c[n].classname)); }
    KidsFrame(c, o, c', o', n, info.children);
    ValsFrame(c, o, c', o', n, info.values);
  }

  /** List roles stay right when the node keeps its lists. */
  lemma ListRoleFrame(c: Cells, o: Owner, reg: Reg, c': Cells, o': Owner, reg': Reg, b: nat)
    requires b in o && ListRole(o[b]) && RoleOk(c, reg, b, o[b])
    requires var n := o[b].n;
             n in c && c[n].Nk? && n in reg && KidsOk(c, o, n, reg[n].children) && ListsKept(c, o, c', o', n)
             && n in reg' && n in c' && c'[n].Nk? && c'[n].nrSubkeys == c[n].nrSubkeys && c'[n].subkeyLf == c[n].subkeyLf
    ensures RoleOk(c', reg', b, o[b])
  {
    hide Flat, ValsOk;
    var n := o[b].n;
    var l := P(c[n].subkeyLf);
    assert c[l].Lf? ==> Lfs(c, l)[0] == l;
    assert Kept(c, o, c', o', l);
    assert Kept(c, o, c', o', b);
  }

  /** Value roles stay right when the node keeps its value blocks. */
  lemma ValueRoleFrame(c: Cells, o: Owner, reg: Reg, c': Cells, o': Owner, reg': Reg, b: nat)
    requires b in o && ValueRole(o[b]) && RoleOk(c, reg, b, o[b])
    requires var n := o[b].n;
             n in c && c[n].Nk? && n in reg && ValsOk(c, o, n, reg[n].values) && ValuesKept(c, o, c', o', n)
             && n in reg' && reg'[n].values == reg[n].values
             && n in c' && c'[n].Nk? && c'[n].nrValues == c[n].nrValues && c'[n].vallist == c[n].vallist
    ensures RoleOk(c', reg', b, o[b])
  {
    hide Flat, KidsOk, DataOk;
    var n := o[b].n;
    var v := P(c[n].vallist);
    assert Kept(c, o, c', o', v);
    assert Kept(c, o, c', o', b);
    if o[b].DataOf? {
      var i := o[b].i;
      assert ValueOk(c, o, n, i, P(c[v].vks[i]), reg[n].values[i]);
      assert Kept(c, o, c', o', P(c[v].vks[i]));
    }
  }

  /** A role stays right when the node keeps all its blocks and its values. */
  lemma RoleFrame(c: Cells, t: Tree, c': Cells, t': Tree, b: nat)
    requires RolesOk(c, t) && NodesOk(c, t) && b in t.owner && !t.owner[b].SkOf?
    requires var n := t.owner[b].n; AllKept(c, t.owner, c', t'.owner, n) && n in t'.reg && t'.reg[n] == t.reg[n]
    ensures RoleOk(c', t'.reg, b, t.owner[b])
  {
    hide KidsOk, ValsOk;
    var n := t.owner[b].n;
    assert RoleOk(c, t.reg, b, t.owner[b]);
    assert NodeOk(c, t.owner, n, t.reg[n]);
    assert Kept(c, t.owner, c', t'.owner, n);
    if ListRole(t.owner[b]) { ListRoleFrame(c, t.owner, t.reg, c', t'.owner, t'.reg, b); }
    if ValueRole(t.owner[b]) { ValueRoleFrame(c, t.owner, t.reg, c', t'.owner, t'.reg, b); }
  }

  lemma NodeParts(c: Cells, o: Owner, n: nat, info: Info)
    requires NodeOk(c, o, n, info)
    ensures NkOk(c, o, n, info) && KidsOk(c, o, n, info.children) && ValsOk(c, o, n, info.values)
  {
  }

  /** Roles that only look at the nk record. */
  lemma PlainRole(c: Cells, reg: Reg, c': Cells, reg': Reg, b: nat, r: Role)
    requires RoleOk(c, reg, b, r) && !ListRole(r) && !ValueRole(r)
    requires r.SkOf? ==> b in c' && c'[b].Sk?
    requires !r.SkOf? ==> r.n in reg' && r.n in c' && c'[r.n].Nk? && c'[r.n].classname == c[r.n].classname
    ensures RoleOk(c', reg', b, r)
  {
  }

  // ---------- changes local to one node

  /** Nodes other than n keep all their blocks and everything the tree says of them. */
  ghost predicate LocalTo(c: Cells, t: Tree, c': Cells, t': Tree, n: nat) {
    (forall m :: m in t.reg && m != n ==> m in t'.reg && t'.reg[m] == t.reg[m])
    && (forall b :: b in t.owner && !t.owner[b].SkOf? && t.owner[b].n != n ==> Kept(c, t.owner, c', t'.owner, b))
  }

  lemma LocalNodes(c: Cells, t: Tree, c': Cells, t': Tree, n: nat)
    requires NodesOk(c, t) && LocalTo(c, t, c', t', n)
    ensures forall m :: m in t.reg && m != n ==> NodeOk(c', t'.owner, m, t'.reg[m])
  {
    hide NodeOk, Kept;
    forall m | m in t.reg && m != n
      ensures NodeOk(c', t'.owner, m, t'.reg[m])
    {
      assert NodeOk(c, t.owner, m, t.reg[m]);
      NodeFrame(c, t.owner, c', t'.owner, m, t.reg[m]);
    }
  }

  lemma LocalRoles(c: Cells, t: Tree, c': Cells, t': Tree, n: nat)
    requires NodesOk(c, t) && RolesOk(c, t) && LocalTo(c, t, c', t', n)
    ensures forall b :: b in t.owner && !t.owner[b].SkOf? && t.owner[b].n != n ==>
              b in c' && b in t'.owner && t'.owner[b] == t.owner[b] && RoleOk(c', t'.reg, b, t.owner[b])
  {
    hide NodeOk;
    forall b | b in t.owner && !t.owner[b].SkOf? && t.owner[b].n != n
      ensures b in c' && b in t'.owner && t'.owner[b] == t.owner[b] && RoleOk(c', t'.reg, b, t.owner[b])
    {
      assert RoleOk(c, t.reg, b, t.owner[b]);
      assert Kept(c, t.owner, c', t'.owner, b);
      hide Kept, RolesOk, NodesOk, RoleOk;
      RoleFrame(c, t, c', t', b);
    }
  }

  ghost predicate SkLinksKept(c: Cells, o: Owner, c': Cells, o': Owner, b: nat) {
    Is(c, o, b, SkOf) && Is(c', o', b, SkOf) && c[b].Sk? && c'[b].Sk? && c'[b].next == c[b].next && c'[b].prev == c[b].prev
  }

  /** The rings, counts and links do not look at anything else. */
  lemma RingFrame(c: Cells, t: Tree, c': Cells, t': Tree)
    requires RingOk(c, t) && t'.ring == t.ring
    requires forall b :: b in t.owner && t.owner[b].SkOf? ==> SkLinksKept(c, t.owner, c', t'.owner, b)
    requires forall b :: b in t'.owner && t'.owner[b].SkOf? ==> b in t.owner && t.owner[b].SkOf?
    ensures RingOk(c', t')
  {
    forall i | 0 <= i < |t'.ring|
      ensures LinkedAt(c', t'.owner, t'.ring, i)
    {
      assert LinkedAt(c, t.owner, t.ring, i);
      assert SkLinksKept(c, t.owner, c', t'.owner, t.ring[i]);
    }
    hide Distinct;
  }

  lemma CountsFrame(c: Cells, t: Tree, c': Cells, t': Tree)
    requires CountsOk(c, t) && t'.reg.Keys == t.reg.Keys && forall n :: n in t.reg ==> t'.reg[n].sk == t.reg[n].sk
    requires forall b :: b in t.owner && t.owner[b].SkOf? ==> Kept(c, t.owner, c', t'.owner, b)
    requires forall b :: b in t'.owner && t'.owner[b].SkOf? ==> b in t.owner && t.owner[b].SkOf?
    ensures CountsOk(c', t')
  {
    forall s
      ensures Users(t'.reg, s) == Users(t.reg, s)
    {
    }
    forall s | s in t'.owner && t'.owner[s].SkOf?
      ensures s in c' && c'[s].Sk? && c'[s].refcount == |Users(t'.reg, s)|
    {
      assert Kept(c, t.owner, c', t'.owner, s);
    }
  }

  lemma LinksFrame(reg: Reg, reg': Reg, root: nat)
    requires LinksOk(reg, root) && reg'.Keys == reg.Keys
    requires forall n :: n in reg ==> reg'[n].children == reg[n].children && reg'[n].parent == reg[n].parent
                                      && reg'[n].depth == reg[n].depth
    ensures LinksOk(reg', root)
  {
    forall n | n in reg'
      ensures KidsLinked(reg', n)
    {
      assert KidsLinked(reg, n);
    }
  }

  ghost predicate SksKept(c: Cells, t: Tree, c': Cells, t': Tree) {
    t'.ring == t.ring
    && (forall b :: b in t.owner && t.owner[b].SkOf? ==> Kept(c, t.owner, c', t'.owner, b))
    && (forall b :: b in t'.owner && t'.owner[b].SkOf? ==> b in t.owner && t.owner[b].SkOf?)
  }

  /** Same nodes, children, parents and security records. */
  ghost predicate SameShape(reg: Reg, reg': Reg) {
    reg'.Keys == reg.Keys
    && forall n :: n in reg ==> reg'[n].children == reg[n].children && reg'[n].parent == reg[n].parent
                                && reg'[n].depth == reg[n].depth && reg'[n].sk == reg[n].sk
  }

  /** A change of one node that is right for that node is right for all. */
  lemma LocalPart(c: Cells, t: Tree, c': Cells, t': Tree, n: nat)
    requires PartOk(c, t) && n in t.reg && LocalTo(c, t, c', t', n) && SksKept(c, t, c', t')
    requires t'.reg.Keys == t.reg.Keys && (forall m :: m in t.reg ==> t'.reg[m].sk == t.reg[m].sk)
    requires c'.Keys == t'.owner.Keys && NodeOk(c', t'.owner, n, t'.reg[n])
    requires forall b :: b in t'.owner && OwnedBy(t'.owner[b], n) ==> RoleOk(c', t'.reg, b, t'.owner[b])
    requires forall b :: b in t'.owner && !OwnedBy(t'.owner[b], n) ==> b in t.owner && t.owner[b] == t'.owner[b]
    ensures PartOk(c', t')
  {
    hide NodeOk, RoleOk, RingOk, CountsOk;
    LocalNodes(c, t, c', t', n);
    assert NodesOk(c', t');
    hide NodesOk, LocalTo;
    LocalTreeRoles(c, t, c', t', n);
    forall b | b in t.owner && t.owner[b].SkOf?
      ensures SkLinksKept(c, t.owner, c', t'.owner, b)
    {
      assert Kept(c, t.owner, c', t'.owner, b);
      SkRole(c, t, b);
    }
    hide RolesOk;
    RingFrame(c, t, c', t');
    CountsFrame(c, t, c', t');
  }

  /** A change of one node's values that is right for that node is right for the whole tree. */
  lemma LocalTree(c: Cells, t: Tree, c': Cells, t': Tree, root: nat, n: nat)
    requires TreeOk(c, t, root) && n in t.reg && LocalTo(c, t, c', t', n) && SksKept(c, t, c', t')
    requires SameShape(t.reg, t'.reg) && c'.Keys == t'.owner.Keys && NodeOk(c', t'.owner, n, t'.reg[n])
    requires forall b :: b in t'.owner && OwnedBy(t'.owner[b], n) ==> RoleOk(c', t'.reg, b, t'.owner[b])
    requires forall b :: b in t'.owner && !OwnedBy(t'.owner[b], n) ==> b in t.owner && t.owner[b] == t'.owner[b]
    ensures TreeOk(c', t', root)
  {
    hide NodeOk, RoleOk, RingOk, CountsOk, LinksOk, NodesOk, RolesOk, LocalTo, SksKept;
    LocalPart(c, t, c', t', n);
    LinksFrame(t.reg, t'.reg, root);
  }

  lemma LocalTreeRoles(c: Cells, t: Tree, c': Cells, t': Tree, n: nat)
    requires NodesOk(c, t) && RolesOk(c, t) && LocalTo(c, t, c', t', n) && SksKept(c, t, c', t')
    requires c'.Keys == t'.owner.Keys
    requires forall b :: b in t'.owner && OwnedBy(t'.owner[b], n) ==> RoleOk(c', t'.reg, b, t'.owner[b])
    requires forall b :: b in t'.owner && !OwnedBy(t'.owner[b], n) ==> b in t.owner && t.owner[b] == t'.owner[b]
    ensures RolesOk(c', t')
  {
    hide NodeOk, RoleOk, LocalTo, NodesOk;
    LocalRoles(c, t, c', t', n);
    forall b | b in t'.owner
      ensures RoleOk(c', t'.reg, b, t'.owner[b])
    {
      if t'.owner[b].SkOf? {
        assert Kept(c, t.owner, c', t'.owner, b);
        SkRole(c, t, b);
        PlainRole(c, t.reg, c', t'.reg, b, SkOf);
      }
    }
  }

  lemma SkRole(c: Cells, t: Tree, b: nat)
    requires RolesOk(c, t) && b in t.owner && t.owner[b].SkOf?
    ensures b in c && c[b].Sk? && RoleOk(c, t.reg, b, SkOf)
  {
    assert RoleOk(c, t.reg, b, t.owner[b]);
  }

  lemma NodeIn(c: Cells, t: Tree, n: nat)
    requires NodesOk(c, t) && n in t.reg
    ensures NodeOk(c, t.owner, n, t.reg[n])
  {
  }

  lemma NkRole(c: Cells, t: Tree, n: nat)
    requires NodesOk(c, t) && n in t.reg
    ensures Is(c, t.owner, n, NkOf(n)) && c[n].Nk?
  {
    assert NodeOk(c, t.owner, n, t.reg[n]);
  }
}
