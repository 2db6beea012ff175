/** Deleting and rewriting the values of a node. */
module Values {
  import opened Bytes
  import opened Records
  import opened Registry
  import opened Heap
  import opened Hives
  import opened Readers
  import opened Names

  /** The blocks holding the values of n: value list, vk records, out-of-line data. */
  ghost function ValueBlocks(o: Owner, n: nat): set<nat> {
    set b | b in o && OwnedBy(o[b], n) && ValueRole(o[b])
  }

  /** Those of them freed once the first k values are gone. */
  ghost function Freed(o: Owner, n: nat, k: nat): set<nat> {
    set b | b in o && OwnedBy(o[b], n) && (o[b].ValListOf? || ((o[b].VkOf? || o[b].DataOf?) && o[b].i < k))
  }

  ghost predicate ValueRolesOk(c: Cells, o: Owner, reg: Reg, n: nat) {
    forall b :: b in o && OwnedBy(o[b], n) && ValueRole(o[b]) ==> RoleOk(c, reg, b, o[b])
  }

  ghost predicate FreesOne(c: Cells, o: Owner, n: nat, i: nat, k: nat) {
    k in c && c[k].Vk? && k !in Freed(o, n, i) &&
    if c[k].dataLen < INLINE then
      P(c[k].data) in c && P(c[k].data) !in Freed(o, n, i) && P(c[k].data) != k
      && Freed(o, n, i + 1) == Freed(o, n, i) + {P(c[k].data)} + {k}
    else
      Freed(o, n, i + 1) == Freed(o, n, i) + {k}
  }

  /** What one round of delete_values frees. */
  lemma FreedStep(c: Cells, o: Owner, reg: Reg, n: nat, i: nat)
    requires n in c && c[n].Nk? && n in reg && ValsOk(c, o, n, reg[n].values) && ValueRolesOk(c, o, reg, n)
    requires i < |reg[n].values|
    ensures P(c[n].vallist) in c && c[P(c[n].vallist)].ValList? && |c[P(c[n].vallist)].vks| == |reg[n].values|
    ensures FreesOne(c, o, n, i, P(c[P(c[n].vallist)].vks[i]))
  {
    var v := P(c[n].vallist);
    var k := P(c[v].vks[i]);
    assert ValueOk(c, o, n, i, k, reg[n].values[i]);
    forall b | b in Freed(o, n, i + 1)
      ensures b in Freed(o, n, i) || b == k || (c[k].dataLen < INLINE && b == P(c[k].data))
    {
      assert RoleOk(c, reg, b, o[b]);
    }
  }

  lemma FreedIn(o: Owner, n: nat, k: nat)
    ensures Freed(o, n, k) <= ValueBlocks(o, n)
  {
  }

  lemma FreedAll(c: Cells, o: Owner, reg: Reg, n: nat)
    requires n in c && c[n].Nk? && n in reg && ValsOk(c, o, n, reg[n].values) && ValueRolesOk(c, o, reg, n)
    ensures Freed(o, n, |reg[n].values|) == ValueBlocks(o, n)
    ensures reg[n].values == [] ==> ValueBlocks(o, n) == {} && Freed(o, n, 0) == {}
    ensures reg[n].values != [] ==> Freed(o, n, 0) == {P(c[n].vallist)}
  {
    forall b | b in ValueBlocks(o, n)
      ensures b in Freed(o, n, |reg[n].values|) && reg[n].values != []
    {
      assert RoleOk(c, reg, b, o[b]);
    }
    forall b | b in Freed(o, n, 0)
      ensures b == P(c[n].vallist)
    {
      assert RoleOk(c, reg, b, o[b]);
    }
  }

  /** The records left once the values of n are deleted. */
  ghost function WithoutValues(c: Cells, o: Owner, n: nat): Cells
    requires n in c && c[n].Nk?
  {
    (c - ValueBlocks(o, n))[n := c[n].(nrValues := 0, vallist := NONE)]
  }

  /** The loop of delete_values over the vk records. */
  method FreeVks(h: Hive, values: seq<nat>, ghost c: Cells, ghost o: Owner, ghost reg: Reg, ghost n: nat)
    requires h.HeapOk() && h.writable && n in c && c[n].Nk? && n in reg && ValsOk(c, o, n, reg[n].values)
    requires ValueRolesOk(c, o, reg, n) && values == VkOffsets(c, n) && h.cells == c - Freed(o, n, 0)
    modifies h`addr, h`bitmap, h`cells
    ensures h.HeapOk() && h.cells == c - Freed(o, n, |values|)
    ensures FreedOnly(old(h.bitmap), old(h.cells), h.bitmap, h.cells)
    ensures old(h.Within()) && MayFree(h.license, ValueBlocks(o, n)) ==> h.Within()
  {
    hide Heap.Tiled, Heap.CellsOk, Bitmap.Tst, Bitmap.Marks, ValsOk, ValueRolesOk, Freed, Hive.HeapOk, Hive.Within,
      ValueBlocks, FreedOnly;
    ValuesPlace(c, o, n, reg[n].values);
    FreedNone(h.bitmap, h.cells, h.cells);
    for i := 0 to |values|
      invariant h.HeapOk() && h.cells == c - Freed(o, n, i)
      invariant FreedOnly(old(h.bitmap), old(h.cells), h.bitmap, h.cells)
      invariant old(h.Within()) && MayFree(h.license, ValueBlocks(o, n)) ==> h.Within()
    {
      FreedStep(c, o, reg, n, i);
      FreedIn(o, n, i + 1);
      ghost var b0, c0 := h.bitmap, h.cells;
      FreeVk(h, values[i]);
      FreedTrans(old(h.bitmap), old(h.cells), b0, c0, h.bitmap, h.cells);
    }
  }

  /** The blocks of one vk record: itself, and its data when out of line. */
  ghost function VkSet(c: Cells, k: nat): set<nat>
    requires k in c && c[k].Vk?
  {
    if c[k].dataLen < INLINE then {P(c[k].data), k} else {k}
  }

  /** One round of that loop. */
  method FreeVk(h: Hive, k: nat)
    requires h.HeapOk() && h.writable && k in h.cells && h.cells[k].Vk?
    requires h.cells[k].dataLen < INLINE ==> P(h.cells[k].data) in h.cells && P(h.cells[k].data) != k
    modifies h`addr, h`bitmap, h`cells
    ensures h.HeapOk() && h.cells == old(h.cells) - VkSet(old(h.cells), k)
    ensures FreedOnly(old(h.bitmap), old(h.cells), h.bitmap, h.cells)
    ensures old(h.Within()) && MayFree(h.license, VkSet(old(h.cells), k)) ==> h.Within()
  {
    hide Heap.Tiled, Heap.CellsOk, Hive.HeapOk, Hive.Within, Bitmap.Marks, FreedOnly;
    ghost var b0, c0 := h.bitmap, h.cells;
    FreedNone(b0, c0, c0);
    var (raw, data, _) := h.VkGet(k);
    if raw < INLINE {
      h.MarkBlockUnused(P(data));
    }
    ghost var b1, c1 := h.bitmap, h.cells;
    h.MarkBlockUnused(k);
    FreedTrans(b0, c0, b1, c1, h.bitmap, h.cells);
  }

  /** delete_values: frees the value list, every vk record and every out-of-line data block. */
  method DeleteValues(h: Hive, n: nat, ghost o: Owner, ghost reg: Reg) returns (r: Result<()>)
    requires h.HeapOk() && h.writable && n in reg && HoldsValues(h, o, n, reg[n].values)
    requires ValueRolesOk(h.cells, o, reg, n) && n in o && o[n] == NkOf(n)
    modifies h`addr, h`bitmap, h`cells
    ensures h.HeapOk()
    ensures r == if |reg[n].values| > MAX_VALUES then Err(ERANGE) else Ok(())
    ensures r.Err? ==> h.addr == old(h.addr) && h.bitmap == old(h.bitmap) && h.cells == old(h.cells)
    ensures r.Ok? ==> h.cells == WithoutValues(old(h.cells), o, n)
    ensures r.Ok? ==> FreedOnly(old(h.bitmap), old(h.cells), h.bitmap, h.cells)
    ensures (old(h.Within()) && MayFree(h.license, ValueBlocks(o, n)) && MayPut(h.license, n, n + 40, 8)) ==> h.Within()
  {
    hide Heap.Tiled, Heap.CellsOk, Bitmap.Tst, Bitmap.Marks, ValsOk, ValueRolesOk, Freed, ValueBlocks, Hive.HeapOk,
      VkOffsets, Hive.Within, MayPut, At, ValuesGood, ValuesOf, Bytes.U32, Bytes.U16;
    ghost var c := h.cells;
    var got := GetValues(h, n, o, reg[n].values);
    if got.Err? {
      return Err(got.errno);
    }
    var values, blocks := got.value.0, got.value.1;
    FreedAll(c, o, reg, n);
    ValuesPlace(c, o, n, reg[n].values);
    NkNotValue(o, n);
    FreedIn(o, n, 0);
    for i := 0 to |blocks|
      invariant h.HeapOk() && h.cells == c - (if i == 0 then {} else Freed(o, n, 0))
      invariant FreedOnly(old(h.bitmap), old(h.cells), h.bitmap, h.cells)
      invariant old(h.Within()) && MayFree(h.license, ValueBlocks(o, n)) ==> h.Within()
    {
      h.MarkBlockUnused(blocks[i]);
    }
    FreeVks(h, values, c, o, reg, n);
    ValueFields(h.license, n);
    h.NkSet(n, NrValues, 0);
    h.NkSet(n, Vallist, NONE);
    return Ok(());
  }

  lemma MaximaFields(L: Licence, n: nat)
    ensures MayPut(L, n, n + 64, 8) ==> MayPut(L, n, n + At(MaxVkName), 4) && MayPut(L, n, n + At(MaxVkData), 4)
  {
  }

  lemma AboveFloor(L: Licence, o: nat)
    ensures L.floor <= o ==> forall p, k :: MayPut(L, o, p, k)
  {
  }

  lemma ValueFields(L: Licence, n: nat)
    ensures MayPut(L, n, n + 40, 8) ==> MayPut(L, n, n + At(NrValues), 4) && MayPut(L, n, n + At(Vallist), 4)
  {
  }

  lemma NkNotValue(o: Owner, n: nat)
    requires n in o && o[n] == NkOf(n)
    ensures n !in ValueBlocks(o, n)
  {
  }

  lemma ValuesPlace(c: Cells, o: Owner, n: nat, vals: seq<Value>)
    requires n in c && c[n].Nk? && ValsOk(c, o, n, vals)
    ensures |VkOffsets(c, n)| == |vals|
    ensures vals != [] ==> P(c[n].vallist) in c && c[P(c[n].vallist)].ValList? && P(c[n].vallist) != n
                           && VkOffsets(c, n) == Ps(c[P(c[n].vallist)].vks)
  {
  }

  /** The tree once node n has the values vals; roles of its old value blocks are given up. */
  ghost function DropValues(t: Tree, n: nat): Tree
    requires n in t.reg
  {
    t.(reg := t.reg[n := t.reg[n].(values := [])], owner := t.owner - ValueBlocks(t.owner, n))
  }

  /** Deleting the values of one node leaves a good tree in which only those values are gone. */
  lemma Dropped(c: Cells, t: Tree, root: nat, n: nat)
    requires TreeOk(c, t, root) && n in t.reg
    ensures n in c && c[n].Nk? && TreeOk(WithoutValues(c, t.owner, n), DropValues(t, n), root)
  {
    hide NodeOk, RoleOk, RingOk, CountsOk, LinksOk, NodesOk;
    NkRole(c, t, n);
    var c', t' := WithoutValues(c, t.owner, n), DropValues(t, n);
    forall b | b in t.owner && t.owner[b].SkOf?
      ensures Kept(c, t.owner, c', t'.owner, b)
    {
      SkRole(c, t, b);
    }
    DroppedNode(c, t, n);
    forall b | b in t'.owner && OwnedBy(t'.owner[b], n)
      ensures RoleOk(c', t'.reg, b, t'.owner[b])
    {
      DroppedRole(c, t, n, b);
    }
    LocalTree(c, t, c', t', root, n);
  }

  lemma DroppedNode(c: Cells, t: Tree, n: nat)
    requires NodesOk(c, t) && RolesOk(c, t) && n in t.reg && n in c && c[n].Nk?
    ensures NodeOk(WithoutValues(c, t.owner, n), DropValues(t, n).owner, n, DropValues(t, n).reg[n])
  {
    hide NodesOk, KidsOk, RoleOk;
    NkRole(c, t, n);
    assert NodeOk(c, t.owner, n, t.reg[n]) by { NodeIn(c, t, n); }
    KidsFrame(c, t.owner, WithoutValues(c, t.owner, n), DropValues(t, n).owner, n, t.reg[n].children);
  }

  lemma DroppedRole(c: Cells, t: Tree, n: nat, b: nat)
    requires NodesOk(c, t) && RolesOk(c, t) && n in t.reg && n in c && c[n].Nk?
    requires b in DropValues(t, n).owner && OwnedBy(t.owner[b], n)
    ensures RoleOk(WithoutValues(c, t.owner, n), DropValues(t, n).reg, b, t.owner[b])
  {
    hide NodesOk, KidsOk, ValsOk;
    assert RoleOk(c, t.reg, b, t.owner[b]);
    hide RoleOk;
    NodeIn(c, t, n);
    var c', t' := WithoutValues(c, t.owner, n), DropValues(t, n);
    if ListRole(t.owner[b]) {
      ListRoleFrame(c, t.owner, t.reg, c', t'.owner, t'.reg, b);
    } else {
      PlainRole(c, t.reg, c', t'.reg, b, t.owner[b]);
    }
  }

  // ---------- writing values

  /** The data field of an inline value: its bytes, then zeros. */
  function Pack(d: seq<byte>): (v: u32)
    requires |d| <= 4
    ensures Le32(v) == d + Zeros(4 - |d|) && Le32(v)[..|d|] == d
  {
    var s := d + Zeros(4 - |d|);
    Le32U32(s, 0);
    assert s[0..4] == s && s[..|d|] == d;
    U32(s, 0)
  }

  /** Node n of tree t1 (values gone) is being given vals through the value list at v; i of them are in place. */
  ghost predicate Building(c1: Cells, t1: Tree, n: nat, v: nat, vals: seq<Value>, i: nat, c: Cells, o: Owner) {
    n in t1.reg && n in c1 && c1[n].Nk? && i <= |vals| && c.Keys == o.Keys
    && (forall b :: b in c1 ==> b in t1.owner && b in c && o[b] == t1.owner[b] && (b != n ==> c[b] == c1[b]))
    && c[n].Nk? && c[n].nrValues == |vals| && P(c[n].vallist) == v && v !in c1
    && c[n].(nrValues := c1[n].nrValues, vallist := c1[n].vallist, maxVkName := c1[n].maxVkName,
             maxVkData := c1[n].maxVkData) == c1[n]
    && ValListOk(c, o, n, v, |vals|, vals[..i])
    && (forall b :: b in o && b !in c1 ==>
          ValueRole(o[b]) && o[b].n == n && RoleOk(c, t1.reg[n := t1.reg[n].(values := vals[..i])], b, o[b]))
  }

  /** The vk record written for val, its data out of line at offset d (if it does not fit in the record). */
  ghost function VkFor(val: Value, data: u32): Rec {
    Vk(val.key, if |val.data| <= 4 then INLINE + |val.data| else |val.data| % 0x1_0000_0000, data, val.typ,
       if val.key == [] then 0 else 1)
  }

  ghost predicate IsBlobFor(r: Rec, d: seq<byte>) { r.Blob? && d <= r.bytes }

  lemma RoleGrows(c: Cells, o: Owner, c': Cells, reg: Reg, n: nat, v: nat, vals: seq<Value>, i: nat, k: nat, b: nat)
    requires n in reg && i < |vals| && n in c && c[n].Nk? && v in c && c[v].ValList? && |c[v].vks| == |vals|
    requires P(c[n].vallist) == v && c[n].nrValues == |vals| && k !in c && 0x1000 <= k < 0x1_0000_0000
    requires b in o && ValueRole(o[b]) && o[b].n == n && RoleOk(c, reg[n := reg[n].(values := vals[..i])], b, o[b])
    requires v in c' && c'[v] == ValList(c[v].vks[i := k - 0x1000]) && forall x :: x in c && x != v ==> x in c' && c'[x] == c[x]
    ensures RoleOk(c', reg[n := reg[n].(values := vals[..i + 1])], b, o[b])
  {
    hide Flat, KidsOk;
  }

  /** One more value in place: its vk record at k, its data at d when it is longer than four bytes. */
  ghost predicate Placed(n: nat, v: nat, val: Value, i: nat, c: Cells, o: Owner, c': Cells, o': Owner, k: nat, d: nat) {
    k !in c && 0x1000 <= k < 0x1_0000_0000
    && (|val.data| > 4 ==> d !in c && d != k && 0x1000 <= d < 0x1_0000_0000)
    && v in c && c[v].ValList? && i < |c[v].vks| && |val.data| <= MAX_VALUE_LEN
    && c'.Keys == c.Keys + {k} + (if |val.data| <= 4 then {} else {d})
    && c'[v] == ValList(c[v].vks[i := k - 0x1000]) && (forall x :: x in c && x != v ==> c'[x] == c[x])
    && c'[k] == VkFor(val, if |val.data| <= 4 then Pack(val.data) else d - 0x1000)
    && (|val.data| > 4 ==> IsBlobFor(c'[d], val.data))
    && o' == (if |val.data| <= 4 then o[k := VkOf(n, i)] else o[k := VkOf(n, i)][d := DataOf(n, i)])
  }

  lemma PlacedValue(n: nat, v: nat, val: Value, i: nat, c: Cells, o: Owner, c': Cells, o': Owner, k: nat, d: nat)
    requires Placed(n, v, val, i, c, o, c', o', k, d)
    ensures ValueOk(c', o', n, i, k, val)
  {
    hide Le32, Pack;
    if |val.data| <= 4 { assert Le32(Pack(val.data))[..|val.data|] == val.data; }
  }

  lemma PlacedList(n: nat, v: nat, vals: seq<Value>, i: nat, c: Cells, o: Owner, c': Cells, o': Owner, k: nat, d: nat)
    requires i < |vals| && Placed(n, v, vals[i], i, c, o, c', o', k, d) && ValListOk(c, o, n, v, |vals|, vals[..i])
    requires c.Keys == o.Keys
    ensures ValListOk(c', o', n, v, |vals|, vals[..i + 1])
  {
    hide Le32, Pack, ValueOk;
    PlacedValue(n, v, vals[i], i, c, o, c', o', k, d);
    forall j | 0 <= j < i + 1
      ensures ValueOk(c', o', n, j, P(c'[v].vks[j]), vals[j])
    {
      if j < i {
        assert ValueOk(c, o, n, j, P(c[v].vks[j]), vals[..i][j]);
        OneValueKept(n, v, c, o, c', o', j, P(c[v].vks[j]), vals[j]);
      }
    }
  }

  lemma OneValueKept(n: nat, v: nat, c: Cells, o: Owner, c': Cells, o': Owner, j: nat, k: nat, val: Value)
    requires ValueOk(c, o, n, j, k, val) && v in c && c[v].ValList?
    requires forall x :: x in c && x != v ==> x in c' && c'[x] == c[x]
    requires forall x :: x in c && x in o ==> x in o' && o'[x] == o[x]
    ensures ValueOk(c', o', n, j, k, val)
  {
  }

  lemma BuildStep(c1: Cells, t1: Tree, n: nat, v: nat, vals: seq<Value>, i: nat, c: Cells, o: Owner, c': Cells, o': Owner,
                  k: nat, d: nat)
    requires Building(c1, t1, n, v, vals, i, c, o) && i < |vals| && Placed(n, v, vals[i], i, c, o, c', o', k, d)
    ensures Building(c1, t1, n, v, vals, i + 1, c', o')
  {
    hide Le32, Pack, ValListOk, RoleOk, VkFor;
    ListRecord(c, o, n, v, vals, i);
    PlacedList(n, v, vals, i, c, o, c', o', k, d);
    forall b | b in o' && b !in c1
      ensures ValueRole(o'[b]) && o'[b].n == n
      ensures RoleOk(c', t1.reg[n := t1.reg[n].(values := vals[..i + 1])], b, o'[b])
    {
      StepRole(c1, t1, n, v, vals, i, c, o, c', o', k, d, b);
    }
  }

  lemma StepRole(c1: Cells, t1: Tree, n: nat, v: nat, vals: seq<Value>, i: nat, c: Cells, o: Owner, c': Cells, o': Owner,
                 k: nat, d: nat, b: nat)
    requires Building(c1, t1, n, v, vals, i, c, o) && i < |vals| && Placed(n, v, vals[i], i, c, o, c', o', k, d)
    requires b in o' && b !in c1
    ensures ValueRole(o'[b]) && o'[b].n == n && RoleOk(c', t1.reg[n := t1.reg[n].(values := vals[..i + 1])], b, o'[b])
  {
    hide Le32, Pack, ValListOk, RoleOk, VkFor;
    ListRecord(c, o, n, v, vals, i);
    if b in o {
      RoleGrows(c, o, c', t1.reg, n, v, vals, i, k, b);
    } else {
      NewRole(t1.reg, n, v, vals, i, c, o, c', o', k, d, b);
    }
  }

  lemma ListRecord(c: Cells, o: Owner, n: nat, v: nat, vals: seq<Value>, i: nat)
    requires i <= |vals| && ValListOk(c, o, n, v, |vals|, vals[..i])
    ensures v in c && c[v].ValList? && |c[v].vks| == |vals|
  {
  }

  lemma NewRole(reg: Reg, n: nat, v: nat, vals: seq<Value>, i: nat, c: Cells, o: Owner, c': Cells, o': Owner,
                k: nat, d: nat, b: nat)
    requires i < |vals| && Placed(n, v, vals[i], i, c, o, c', o', k, d) && n in reg && n in c && c[n].Nk? && n != v
    requires c[n].nrValues == |vals| && P(c[n].vallist) == v && |c[v].vks| == |vals| && b in o' && b !in o
    ensures ValueRole(o'[b]) && o'[b].n == n && RoleOk(c', reg[n := reg[n].(values := vals[..i + 1])], b, o'[b])
  {
    hide Le32, Pack;
    assert n in c' && c'[n] == c[n];
    assert v in c' && k in c';
  }

  /** The tree in which n has exactly the values vals. */
  ghost function GiveValues(t1: Tree, n: nat, vals: seq<Value>, o: Owner): Tree
    requires n in t1.reg
  {
    t1.(reg := t1.reg[n := t1.reg[n].(values := vals)], owner := o)
  }

  lemma Built(c1: Cells, t1: Tree, root: nat, n: nat, v: nat, vals: seq<Value>, c: Cells, o: Owner)
    requires TreeOk(c1, t1, root) && Building(c1, t1, n, v, vals, |vals|, c, o) && vals != []
    requires ValueBlocks(t1.owner, n) == {}
    ensures TreeOk(c, GiveValues(t1, n, vals, o), root)
  {
    hide NodeOk, RoleOk, RingOk, CountsOk, LinksOk, NodesOk, ValListOk;
    var t' := GiveValues(t1, n, vals, o);
    BuiltNode(c1, t1, n, v, vals, c, o);
    forall b | b in o && OwnedBy(o[b], n)
      ensures RoleOk(c, t'.reg, b, o[b])
    {
      BuiltOwn(c1, t1, n, v, vals, c, o, b);
    }
    BuiltKept(c1, t1, n, v, vals, c, o);
    hide Building;
    LocalTree(c1, t1, c, t', root, n);
  }

  lemma BuiltKept(c1: Cells, t1: Tree, n: nat, v: nat, vals: seq<Value>, c: Cells, o: Owner)
    requires PartOk(c1, t1) && Building(c1, t1, n, v, vals, |vals|, c, o)
    ensures LocalTo(c1, t1, c, GiveValues(t1, n, vals, o), n) && SksKept(c1, t1, c, GiveValues(t1, n, vals, o))
    ensures c.Keys == o.Keys && forall b :: b in o && !OwnedBy(o[b], n) ==> b in t1.owner && t1.owner[b] == o[b]
  {
    hide NodeOk, RoleOk, RingOk, CountsOk, NodesOk, ValListOk;
    NkRole(c1, t1, n);
    forall b | b in t1.owner && t1.owner[b].SkOf?
      ensures Kept(c1, t1.owner, c, o, b)
    {
      SkRole(c1, t1, b);
    }
  }

  lemma BuiltOwn(c1: Cells, t1: Tree, n: nat, v: nat, vals: seq<Value>, c: Cells, o: Owner, b: nat)
    requires NodesOk(c1, t1) && RolesOk(c1, t1) && Building(c1, t1, n, v, vals, |vals|, c, o)
    requires b in o && OwnedBy(o[b], n) && ValueBlocks(t1.owner, n) == {}
    ensures RoleOk(c, t1.reg[n := t1.reg[n].(values := vals)], b, o[b])
  {
    hide NodesOk, RolesOk, RoleOk, ValListOk;
    if b in c1 { BuiltRole(c1, t1, n, v, vals, c, o, b); } else { assert vals[..|vals|] == vals; }
  }

  lemma BuiltNode(c1: Cells, t1: Tree, n: nat, v: nat, vals: seq<Value>, c: Cells, o: Owner)
    requires NodesOk(c1, t1) && RolesOk(c1, t1) && Building(c1, t1, n, v, vals, |vals|, c, o) && vals != []
    ensures NodeOk(c, o, n, t1.reg[n].(values := vals))
  {
    hide NodesOk, KidsOk, ValListOk, RoleOk;
    NodeIn(c1, t1, n);
    assert vals[..|vals|] == vals;
    KidsFrame(c1, t1.owner, c, o, n, t1.reg[n].children);
  }

  lemma BuiltRole(c1: Cells, t1: Tree, n: nat, v: nat, vals: seq<Value>, c: Cells, o: Owner, b: nat)
    requires NodesOk(c1, t1) && RolesOk(c1, t1) && Building(c1, t1, n, v, vals, |vals|, c, o)
    requires b in c1 && b in o && OwnedBy(o[b], n) && ValueBlocks(t1.owner, n) == {}
    ensures RoleOk(c, t1.reg[n := t1.reg[n].(values := vals)], b, o[b])
  {
    hide NodesOk, KidsOk, ValsOk, ValListOk;
    assert RoleOk(c1, t1.reg, b, t1.owner[b]);
    hide RoleOk;
    NodeIn(c1, t1, n);
    assert ValueRole(t1.owner[b]) ==> b in ValueBlocks(t1.owner, n);
    if ListRole(o[b]) {
      ListRoleFrame(c1, t1.owner, t1.reg, c, o, t1.reg[n := t1.reg[n].(values := vals)], b);
    } else {
      PlainRole(c1, t1.reg, c, t1.reg[n := t1.reg[n].(values := vals)], b, o[b]);
    }
  }

  /** Bytes by which the allocations for vals can move the end of pages. */
  function Cost(vals: seq<Value>): nat {
    if vals == [] then 0 else
      (25 + |vals[0].key| + OVERHEAD) + (4 + |vals[0].data| + OVERHEAD) + Cost(vals[1..])
  }

  /** The vk record for val and its entry in the value list. */
  method WriteVk(h: Hive, v: nat, i: nat, val: Value) returns (k: nat)
    requires h.HeapOk() && v in h.cells && h.cells[v].ValList? && i < |h.cells[v].vks| && |val.key| < 0x1_0000
    modifies h`addr, h`bitmap, h`endpages, h`endblocks, h`cells
    ensures h.HeapOk()
    ensures h.writable && old(h.endpages) + (25 + |val.key| + OVERHEAD) <= Heap.MAX_IMAGE ==> k != 0
    ensures k != 0 ==> h.writable && h.endpages <= old(h.endpages) + (25 + |val.key| + OVERHEAD)
    ensures k != 0 ==> k !in old(h.cells) && 0x1000 <= k < Heap.MAX_IMAGE
                       && h.cells == old(h.cells)[k := VkFor(val, 0)][v := ValList(old(h.cells)[v].vks[i := k - 0x1000])]
    ensures (k != 0 && old(h.Within() && h.Roomy()) && h.license.floor <= v) ==> h.Within() && h.Roomy() && h.license.floor <= k
  {
    hide Heap.Tiled, Heap.CellsOk, Hive.HeapOk, Hive.Within, Place, Round8, Hive.Roomy, MayPut;
    var len := if |val.data| <= 4 then INLINE + |val.data| else |val.data| % 0x1_0000_0000;
    PlaceBound(h.endpages, h.endblocks, 25 + |val.key|);
    k := h.NewVk(val.key, val.typ, len, if val.key == [] then 0 else 1);
    if k != 0 {
      h.CellValid(k);
      AboveFloor(h.license, v);
      h.ValListSet(v, i, k - 0x1000);
    }
  }

  /** The data of val: inside its vk record, or in a block of its own at d. */
  method WriteData(h: Hive, k: nat, val: Value) returns (ok: bool, d: nat, e: Errno)
    requires h.HeapOk() && k in h.cells && h.cells[k].Vk? && h.writable
    modifies h`addr, h`bitmap, h`endpages, h`endblocks, h`cells
    ensures h.HeapOk()
    ensures |val.data| + 4 <= MAX_ALLOCATION && old(h.endpages) + (4 + |val.data| + OVERHEAD) <= Heap.MAX_IMAGE ==> ok
    ensures ok ==> h.endpages <= old(h.endpages) + (4 + |val.data| + OVERHEAD) && |val.data| <= MAX_VALUE_LEN
    ensures ok ==> |val.data| + 4 <= MAX_ALLOCATION
    ensures e == if |val.data| + 4 > MAX_ALLOCATION then ERANGE else ENOMEM
    ensures ok && |val.data| <= 4 ==> h.cells == old(h.cells)[k := old(h.cells)[k].(data := Pack(val.data))]
    ensures ok && |val.data| > 4 ==>
              0x1000 <= d < Heap.MAX_IMAGE && d !in old(h.cells) && d in h.cells && IsBlobFor(h.cells[d], val.data)
              && h.cells == old(h.cells)[k := old(h.cells)[k].(data := d - 0x1000)][d := h.cells[d]]
    ensures (ok && old(h.Within() && h.Roomy()) && h.license.floor <= k) ==> h.Within() && h.Roomy()
  {
    hide Heap.Tiled, Heap.CellsOk, Hive.HeapOk, Hive.Within, Place, Round8, Pack, Le32, Hive.Roomy, MayPut;
    AboveFloor(h.license, k);
    // errno of allocate_block
    e := if |val.data| + 4 > MAX_ALLOCATION then ERANGE else ENOMEM;
    if |val.data| <= 4 {
      h.VkSetData(k, Pack(val.data));
      return true, 0, e;
    }
    PlaceBound(h.endpages, h.endblocks, 4 + |val.data|);
    d := h.NewBlob(val.data);
    if d == 0 {
      return false, 0, e;
    }
    h.CellValid(d);
    h.VkSetData(k, d - 0x1000);
    return true, d, e;
  }

  /** The body of the set_values loop: a vk record, an entry of the list, and the data. */
  method WriteValue(h: Hive, n: nat, v: nat, i: nat, val: Value, ghost o: Owner)
    returns (ok: bool, e: Errno, ghost o': Owner, ghost k: nat, ghost d: nat)
    requires h.HeapOk() && v in h.cells && h.cells[v].ValList? && i < |h.cells[v].vks|
    requires |val.key| < 0x1_0000
    modifies h`addr, h`bitmap, h`endpages, h`endblocks, h`cells
    ensures h.HeapOk()
    ensures (h.writable && |val.data| + 4 <= MAX_ALLOCATION
             && old(h.endpages) + (25 + |val.key| + OVERHEAD) + (4 + |val.data| + OVERHEAD) <= Heap.MAX_IMAGE) ==> ok
    ensures ok ==> h.endpages <= old(h.endpages) + (25 + |val.key| + OVERHEAD) + (4 + |val.data| + OVERHEAD)
    ensures ok ==> |val.data| + 4 <= MAX_ALLOCATION
    ensures !ok ==> e == ENOMEM || (e == ERANGE && |val.data| + 4 > MAX_ALLOCATION)
    ensures (h.writable && |val.data| + 4 > MAX_ALLOCATION
             && old(h.endpages) + (25 + |val.key| + OVERHEAD) + (4 + |val.data| + OVERHEAD) <= Heap.MAX_IMAGE) ==> e == ERANGE
    ensures ok ==> Placed(n, v, val, i, old(h.cells), o, h.cells, o', k, d)
    ensures (ok && old(h.Within() && h.Roomy()) && h.license.floor <= v) ==> h.Within() && h.Roomy()
  {
    hide Heap.Tiled, Heap.CellsOk, Hive.HeapOk, Hive.Within, Place, Round8, Le32, Pack, Hive.Roomy, MayPut;
    var k1 := WriteVk(h, v, i, val);
    o', k, d := o, k1, 0;
    if k1 == 0 {
      return false, ENOMEM, o, 0, 0;
    }
    var d1;
    ok, d1, e := WriteData(h, k1, val);
    d := d1;
    o' := if |val.data| <= 4 then o[k := VkOf(n, i)] else o[k := VkOf(n, i)][d := DataOf(n, i)];
  }

  lemma BuildStart(c1: Cells, t1: Tree, root: nat, n: nat, v: nat, vals: seq<Value>, c: Cells)
    requires TreeOk(c1, t1, root) && n in t1.reg && n in c1 && c1[n].Nk? && v !in c1 && 0x1000 <= v < 0x1_0000_0000
    requires vals != [] && |vals| < 0x1_0000_0000
    requires c == c1[v := ValList(NoOffs(|vals|))][n := c1[n].(nrValues := |vals|, vallist := v - 0x1000)]
    ensures Building(c1, t1, n, v, vals, 0, c, t1.owner[v := ValListOf(n)])
  {
    hide NodesOk, RingOk, CountsOk, LinksOk, RoleOk;
    var o := t1.owner[v := ValListOf(n)];
    assert vals[..0] == [];
    assert RoleOk(c, t1.reg[n := t1.reg[n].(values := [])], v, o[v]) by { ListRoleStart(c, t1.reg, n, v); }
  }

  lemma ListRoleStart(c: Cells, reg: Reg, n: nat, v: nat)
    requires n in reg && n in c && c[n].Nk? && c[n].nrValues > 0 && P(c[n].vallist) == v
    ensures RoleOk(c, reg[n := reg[n].(values := [])], v, ValListOf(n))
  {
  }

  lemma SmallSteps(vals: seq<Value>)
    ensures AllSmall(vals[..0])
    ensures forall i :: 0 <= i < |vals| && |vals[i].data| + 4 <= MAX_ALLOCATION && AllSmall(vals[..i]) ==> AllSmall(vals[..i + 1])
    ensures AllSmall(vals) ==> forall i :: 0 <= i < |vals| ==> |vals[i].data| + 4 <= MAX_ALLOCATION
    ensures forall i :: 0 <= i < |vals| && |vals[i].data| + 4 > MAX_ALLOCATION ==> !AllSmall(vals)
  {
  }

  predicate AllSmall(vals: seq<Value>) {
    forall i :: 0 <= i < |vals| ==> |vals[i].data| + 4 <= MAX_ALLOCATION
  }

  function Larger(x: int, y: int): int { if x < y then y else x }

  /** The longest key, in bytes of UTF-16, and the longest data, counting what the record had. */
  function LongestKey(start: int, vals: seq<Value>): int {
    if vals == [] then start else Larger(LongestKey(start, vals[..|vals| - 1]), 2 * |vals[|vals| - 1].key|)
  }

  function LongestData(start: int, vals: seq<Value>): int {
    if vals == [] then start else Larger(LongestData(start, vals[..|vals| - 1]), |vals[|vals| - 1].data|)
  }

  /** The record at k is a vk record, flagged 1 unless its key is empty; the top bit of its length says inline data. */
  ghost predicate FlagIs(c: Cells, k: nat, val: Value) {
    k in c && c[k].Vk? && c[k].vkFlags == (if val.key == [] then 0 else 1)
    && c[k].dataLen == if |val.data| <= 4 then 0x8000_0000 + |val.data| else |val.data|
  }

  /** Flags and maxima once the first i values are written. */
  ghost predicate Noted(c: Cells, n: nat, v: nat, vals: seq<Value>, i: nat, key0: int, data0: int) {
    n in c && c[n].Nk? && v in c && c[v].ValList? && i <= |vals| == |c[v].vks|
    && c[n].maxVkName == LongestKey(key0, vals[..i]) && c[n].maxVkData == LongestData(data0, vals[..i])
    && forall j :: 0 <= j < i ==> FlagIs(c, P(c[v].vks[j]), vals[j])
  }

  ghost predicate Flagged(c: Cells, v: nat, vals: seq<Value>) {
    v in c && c[v].ValList? && |c[v].vks| == |vals| && forall j :: 0 <= j < |vals| ==> FlagIs(c, P(c[v].vks[j]), vals[j])
  }

  /** What set_values leaves in the records of n besides the values: maxima, and flags of the vk records. */
  ghost predicate Recorded(c0: Cells, c: Cells, n: nat, vals: seq<Value>) {
    n in c0 && c0[n].Nk? && n in c && c[n].Nk?
    && c[n].maxVkName == LongestKey(c0[n].maxVkName, vals) && c[n].maxVkData == LongestData(c0[n].maxVkData, vals)
    && (vals != [] ==> Flagged(c, P(c[n].vallist), vals))
  }

  lemma NotedPlaced(c: Cells, n: nat, v: nat, vals: seq<Value>, i: nat, key0: int, data0: int, o: Owner, c': Cells, o': Owner, k: nat, d: nat)
    requires i < |vals| && Noted(c, n, v, vals, i, key0, data0) && Placed(n, v, vals[i], i, c, o, c', o', k, d)
    ensures n in c' && c'[n] == c[n] && v in c' && c'[v].ValList? && |c'[v].vks| == |vals| && n != v
    ensures forall j :: 0 <= j < i + 1 ==> FlagIs(c', P(c'[v].vks[j]), vals[j]) && P(c'[v].vks[j]) != n
  {
    hide LongestKey, LongestData, Pack;
    forall j | 0 <= j < i + 1
      ensures FlagIs(c', P(c'[v].vks[j]), vals[j]) && P(c'[v].vks[j]) != n
    {
      if j < i { assert FlagIs(c, P(c[v].vks[j]), vals[j]); }
    }
  }

  lemma NotedStep(c: Cells, c': Cells, n: nat, v: nat, vals: seq<Value>, i: nat, key0: int, data0: int, key1: int, data1: int)
    requires i < |vals| && n in c && c[n].Nk? && v in c && c[v].ValList? && |c[v].vks| == |vals| && n != v
    requires key1 == LongestKey(key0, vals[..i]) && data1 == LongestData(data0, vals[..i])
    requires c'.Keys == c.Keys && c'[n].Nk? && (forall x :: x in c && x != n ==> c'[x] == c[x])
    requires c'[n].maxVkName == Larger(key1, 2 * |vals[i].key|) && c'[n].maxVkData == Larger(data1, |vals[i].data|)
    requires forall j :: 0 <= j < i + 1 ==> FlagIs(c, P(c[v].vks[j]), vals[j]) && P(c[v].vks[j]) != n
    ensures Noted(c', n, v, vals, i + 1, key0, data0)
  {
    assert vals[..i + 1][..i] == vals[..i];
  }

  /** The maxima kept in the nk record. */
  method RaiseMaxima(h: Hive, n: nat, val: Value)
    requires h.HeapOk() && n in h.cells && h.cells[n].Nk? && |val.key| < 0x1_0000 && |val.data| <= MAX_VALUE_LEN
    modifies h`addr, h`cells
    ensures h.HeapOk() && h.cells.Keys == old(h.cells).Keys && h.cells[n].Nk?
    ensures h.cells == old(h.cells)[n := old(h.cells)[n].(maxVkName := h.cells[n].maxVkName, maxVkData := h.cells[n].maxVkData)]
    ensures h.cells[n].maxVkName == Larger(old(h.cells)[n].maxVkName, 2 * |val.key|)
    ensures h.cells[n].maxVkData == Larger(old(h.cells)[n].maxVkData, |val.data|)
    ensures old(h.Within()) && MayPut(h.license, n, n + 64, 8) ==> h.Within()
  {
    hide Heap.Tiled, Heap.CellsOk, Hive.HeapOk, Hive.Within, MayPut;
    MaximaFields(h.license, n);
    if 2 * |val.key| > h.NkGet(n, MaxVkName) {
      h.NkSet(n, MaxVkName, 2 * |val.key|);
    }
    if |val.data| > h.NkGet(n, MaxVkData) {
      h.NkSet(n, MaxVkData, |val.data|);
    }
  }

  lemma BuildMaxima(c1: Cells, t1: Tree, n: nat, v: nat, vals: seq<Value>, i: nat, c: Cells, o: Owner, c': Cells)
    requires Building(c1, t1, n, v, vals, i, c, o) && c'.Keys == c.Keys && n in c && c[n].Nk? && c'[n].Nk?
    requires c' == c[n := c[n].(maxVkName := c'[n].maxVkName, maxVkData := c'[n].maxVkData)]
    ensures Building(c1, t1, n, v, vals, i, c', o)
  {
    hide ValListOk, RoleOk;
    ListRecord(c, o, n, v, vals, i);
    ValuesIgnoreNk(c, o, n, v, vals, i, c');
    forall b | b in o && b !in c1
      ensures RoleOk(c', t1.reg[n := t1.reg[n].(values := vals[..i])], b, o[b])
    {
      RoleIgnoresMaxima(c, c', t1.reg[n := t1.reg[n].(values := vals[..i])], n, b, o[b]);
    }
  }

  lemma ValuesIgnoreNk(c: Cells, o: Owner, n: nat, v: nat, vals: seq<Value>, i: nat, c': Cells)
    requires i <= |vals| && ValListOk(c, o, n, v, |vals|, vals[..i]) && n in c && c[n].Nk?
    requires c'.Keys == c.Keys && forall x :: x in c && x != n ==> c'[x] == c[x]
    ensures ValListOk(c', o, n, v, |vals|, vals[..i])
  {
    forall j | 0 <= j < i
      ensures ValueOk(c', o, n, j, P(c'[v].vks[j]), vals[..i][j])
    {
      assert ValueOk(c, o, n, j, P(c[v].vks[j]), vals[..i][j]);
    }
  }

  lemma RoleIgnoresMaxima(c: Cells, c': Cells, reg: Reg, n: nat, b: nat, r: Role)
    requires ValueRole(r) && r.n == n && RoleOk(c, reg, b, r) && n in c && c[n].Nk? && c'.Keys == c.Keys && c'[n].Nk?
    requires c' == c[n := c[n].(maxVkName := c'[n].maxVkName, maxVkData := c'[n].maxVkData)]
    ensures RoleOk(c', reg, b, r)
  {
  }

  /** The loop of set_values. */
  method WriteValues(h: Hive, n: nat, v: nat, vals: seq<Value>, ghost c1: Cells, ghost t1: Tree, ghost o0: Owner)
    returns (ok: bool, e: Errno, ghost o: Owner)
    requires h.HeapOk() && Building(c1, t1, n, v, vals, 0, h.cells, o0) && h.writable
    requires forall i :: 0 <= i < |vals| ==> |vals[i].key| < 0x1_0000
    modifies h`addr, h`bitmap, h`endpages, h`endblocks, h`cells
    ensures h.HeapOk()
    ensures ok ==> Building(c1, t1, n, v, vals, |vals|, h.cells, o)
    ensures ok && n in old(h.cells) && old(h.cells)[n].Nk? ==>
              Noted(h.cells, n, v, vals, |vals|, old(h.cells)[n].maxVkName, old(h.cells)[n].maxVkData)
    ensures ok ==> AllSmall(vals) && h.endpages <= old(h.endpages) + Cost(vals)
    ensures !ok ==> e == ENOMEM || (e == ERANGE && !AllSmall(vals))
    ensures old(h.endpages) + Cost(vals) <= Heap.MAX_IMAGE ==> if AllSmall(vals) then ok else e == ERANGE
    ensures (ok && old(h.Within() && h.Roomy()) && h.license.floor <= v && MayPut(h.license, n, n + 64, 8)) ==> h.Within() && h.Roomy()
  {
    hide Heap.Tiled, Heap.CellsOk, Hive.HeapOk, Hive.Within, ValListOk, RoleOk, Placed, Building, Hive.Roomy, MayPut,
      Noted, FlagIs, AllSmall;
    o := o0;
    SmallSteps(vals);
    ghost var budget := h.endpages + Cost(vals);
    ghost var within := h.Within() && h.Roomy() && h.license.floor <= v && MayPut(h.license, n, n + 64, 8);
    BuildingNow(c1, t1, n, v, vals, 0, h.cells, o);
    ghost var key0, data0 := h.cells[n].maxVkName, h.cells[n].maxVkData;
    NothingNoted(h.cells, n, v, vals);
    for i := 0 to |vals|
      invariant h.HeapOk() && Building(c1, t1, n, v, vals, i, h.cells, o)
      invariant h.endpages + Cost(vals[i..]) <= budget && AllSmall(vals[..i])
      invariant within ==> h.Within() && h.Roomy()
      invariant Noted(h.cells, n, v, vals, i, key0, data0)
    {
      BuildingNow(c1, t1, n, v, vals, i, h.cells, o);
      ghost var c, o', k, d := h.cells, o, 0, 0;
      MaximaNow(c, n, v, vals, i, key0, data0);
      ghost var key1, data1 := c[n].maxVkName, c[n].maxVkData;
      assert vals[i..][1..] == vals[i + 1..];
      ok, e, o', k, d := WriteValue(h, n, v, i, vals[i], o);
      if !ok {
        return false, e, o;
      }
      PlacedSize(n, v, vals[i], i, c, o, h.cells, o', k, d);
      BuildStep(c1, t1, n, v, vals, i, c, o, h.cells, o', k, d);
      BuildingNow(c1, t1, n, v, vals, i + 1, h.cells, o');
      NotedPlaced(c, n, v, vals, i, key0, data0, o, h.cells, o', k, d);
      c, o := h.cells, o';
      RaiseMaxima(h, n, vals[i]);
      BuildMaxima(c1, t1, n, v, vals, i + 1, c, o, h.cells);
      NotedStep(c, h.cells, n, v, vals, i, key0, data0, key1, data1);
    }
    assert vals[..|vals|] == vals;
    return true, ENOMEM, o;
  }

  lemma AllNoted(c1: Cells, t1: Tree, c: Cells, n: nat, v: nat, vals: seq<Value>, o: Owner)
    requires n in c1 && c1[n].Nk? && Building(c1, t1, n, v, vals, |vals|, c, o)
    requires Noted(c, n, v, vals, |vals|, c1[n].maxVkName, c1[n].maxVkData)
    ensures Recorded(c1, c, n, vals)
  {
    hide LongestKey, LongestData, FlagIs, RoleOk, ValListOk;
    assert vals[..|vals|] == vals;
  }

  /** Deleting the old values does not touch the maxima. */
  lemma RecordedFrom(c0: Cells, c1: Cells, o: Owner, c: Cells, n: nat, vals: seq<Value>)
    requires n in c0 && c0[n].Nk? && c1 == WithoutValues(c0, o, n) && (if vals == [] then c == c1 else Recorded(c1, c, n, vals))
    ensures Recorded(c0, c, n, vals)
  {
    hide FlagIs, ValueBlocks;
  }

  lemma NothingNoted(c: Cells, n: nat, v: nat, vals: seq<Value>)
    requires n in c && c[n].Nk? && v in c && c[v].ValList? && |c[v].vks| == |vals|
    ensures Noted(c, n, v, vals, 0, c[n].maxVkName, c[n].maxVkData)
  {
    assert vals[..0] == [];
  }

  lemma MaximaNow(c: Cells, n: nat, v: nat, vals: seq<Value>, i: nat, key0: int, data0: int)
    requires Noted(c, n, v, vals, i, key0, data0)
    ensures n in c && c[n].Nk? && i <= |vals|
    ensures c[n].maxVkName == LongestKey(key0, vals[..i]) && c[n].maxVkData == LongestData(data0, vals[..i])
  {
  }

  lemma PlacedSize(n: nat, v: nat, val: Value, i: nat, c: Cells, o: Owner, c': Cells, o': Owner, k: nat, d: nat)
    requires Placed(n, v, val, i, c, o, c', o', k, d)
    ensures |val.data| <= MAX_VALUE_LEN
  {
  }

  lemma BuildingNow(c1: Cells, t1: Tree, n: nat, v: nat, vals: seq<Value>, i: nat, c: Cells, o: Owner)
    requires Building(c1, t1, n, v, vals, i, c, o)
    ensures n in c && c[n].Nk? && v in c && c[v].ValList? && |c[v].vks| == |vals| && i <= |vals|
  {
  }

  /** A node handle as callers hold them: a live node, or an offset the nk check refuses. */
  ghost predicate Handle(h: Hive, n: nat)
    requires h.Valid()
    reads h
  {
    n in h.t.reg || !h.BlockIs(n, 'n', 'k')
  }

  lemma LiveNode(h: Hive, n: nat)
    requires h.Valid() && n in h.t.reg
    ensures Is(h.cells, h.t.owner, n, NkOf(n)) && h.cells[n].Nk? && h.BlockIs(n, 'n', 'k')
    ensures NodeOk(h.cells, h.t.owner, n, h.t.reg[n]) && ValueRolesOk(h.cells, h.t.owner, h.t.reg, n)
  {
    hide Heap.Tiled, Heap.CellsOk, NodeOk, RingOk, CountsOk, LinksOk, RoleOk, Bitmap.Tst;
    NodeIn(h.cells, h.t, n);
    NkRole(h.cells, h.t, n);
    h.CellValid(n);
    assert h.HasId(n, 'n', 'k');
  }

  /** What set_values needs to succeed: limits on sizes and room for the image to grow. */
  /** No single block is refused for its length. */
  predicate Small(vals: seq<Value>) { 4 + 4 * |vals| <= MAX_ALLOCATION && AllSmall(vals) }

  /** The most that values add to the image. */
  function ListCost(vals: seq<Value>): nat { (4 + 4 * |vals| + OVERHEAD) + Cost(vals) }

  predicate Fits(vals: seq<Value>, endpages: nat) { Small(vals) && endpages + ListCost(vals) <= Heap.MAX_IMAGE }

  /** An empty value list, to which the nk record points. */
  method StartList(h: Hive, n: nat, count: nat) returns (v: nat)
    requires h.HeapOk() && n in h.cells && h.cells[n].Nk? && 1 <= count && h.writable
    modifies h`addr, h`bitmap, h`endpages, h`endblocks, h`cells
    ensures h.HeapOk()
    ensures 4 + 4 * count <= MAX_ALLOCATION && old(h.endpages) + (4 + 4 * count + OVERHEAD) <= Heap.MAX_IMAGE ==> v != 0
    ensures 4 + 4 * count > MAX_ALLOCATION ==> v == 0
    ensures v != 0 ==> v !in old(h.cells) && 0x1000 <= v < Heap.MAX_IMAGE && count < 0x1_0000_0000
                       && h.endpages <= old(h.endpages) + (4 + 4 * count + OVERHEAD)
                       && h.cells == old(h.cells)[v := ValList(NoOffs(count))]
                                                 [n := old(h.cells)[n].(nrValues := count, vallist := v - 0x1000)]
    ensures (v != 0 && old(h.Within() && h.Roomy()) && MayPut(h.license, n, n + 40, 8)) ==>
              h.Within() && h.Roomy() && h.license.floor <= v
  {
    hide Heap.Tiled, Heap.CellsOk, Hive.HeapOk, Hive.Within, Place, Round8, Hive.Roomy, MayPut;
    PlaceBound(h.endpages, h.endblocks, 4 + 4 * count);
    v := h.NewValList(count);
    if v == 0 { return; }
    h.CellValid(v);
    ValueFields(h.license, n);
    h.NkSet(n, NrValues, count);
    h.NkSet(n, Vallist, v - 0x1000);
  }

  /** set_values once the old values are gone: list, records and data for the new ones. */
  method FillValues(h: Hive, n: nat, vals: seq<Value>) returns (ok: bool, e: Errno)
    requires h.Valid() && n in h.t.reg && ValueBlocks(h.t.owner, n) == {} && vals != [] && h.writable
    requires forall i :: 0 <= i < |vals| ==> |vals[i].key| < 0x1_0000
    modifies h`addr, h`bitmap, h`endpages, h`endblocks, h`cells, h`t
    ensures h.HeapOk()
    ensures ok ==> h.Valid() && h.t.reg == old(h.t.reg)[n := old(h.t.reg)[n].(values := vals)] && h.t.ring == old(h.t.ring)
    ensures ok ==> Small(vals) && h.endpages <= old(h.endpages) + ListCost(vals)
    ensures !ok ==> e == ENOMEM || (e == ERANGE && !Small(vals))
    ensures old(h.endpages) + ListCost(vals) <= Heap.MAX_IMAGE ==> if Small(vals) then ok else !ok && e == ERANGE
    ensures ok ==> Recorded(old(h.cells), h.cells, n, vals)
    ensures (ok && old(h.Within() && h.Roomy()) && MayPut(h.license, n, n + 40, 8) && MayPut(h.license, n, n + 64, 8)) ==> h.Within()
  {
    hide Heap.Tiled, Heap.CellsOk, Hive.HeapOk, Hive.Within, TreeOk, Place, Round8, Building, Cost, Hive.Roomy,
      MayPut, Recorded, Noted;
    ghost var t1, c1 := h.t, h.cells;
    assert n in c1 && c1[n].Nk? by { LiveNode(h, n); }
    var v := StartList(h, n, |vals|);
    if v == 0 {
      return false, if 4 + 4 * |vals| > MAX_ALLOCATION then ERANGE else ENOMEM;
    }
    BuildStart(c1, t1, h.rootoffs, n, v, vals, h.cells);
    ghost var o;
    ok, e, o := WriteValues(h, n, v, vals, c1, t1, t1.owner[v := ValListOf(n)]);
    if ok {
      Built(c1, t1, h.rootoffs, n, v, vals, h.cells, o);
      AllNoted(c1, t1, h.cells, n, v, vals, o);
      h.t := GiveValues(t1, n, vals, o);
    }
  }

  /** The bytes set_values writes below the first new block: lengths of the freed value blocks, and in the nk record
      count and list of values and the two maxima. */
  ghost predicate SetWrites(t: Tree, n: nat, i: nat) {
    (exists b :: b in ValueBlocks(t.owner, n) && b <= i < b + 4) || n + 40 <= i < n + 48 || n + 64 <= i < n + 72
  }

  ghost predicate OnlySet(t: Tree, n: nat, floor: nat, a: seq<byte>, a': seq<byte>) {
    |a| <= |a'| && forall i :: 0 <= i < |a| && i < floor && a'[i] != a[i] ==> SetWrites(t, n, i)
  }

  ghost function SetLicence(t: Tree, n: nat, floor: nat): Licence {
    Licence((iset i: nat | SetWrites(t, n, i)), floor, {}, false)
  }

  lemma SetCovered(t: Tree, n: nat, floor: nat)
    ensures var L := SetLicence(t, n, floor);
            MayFree(L, ValueBlocks(t.owner, n)) && MayPut(L, n, n + 40, 8) && MayPut(L, n, n + 64, 8)
  {
    hide ValueBlocks;
  }

  lemma SetStart(h: Hive, t: Tree, n: nat)
    requires h.base == h.addr && h.license == SetLicence(t, n, Floor(h.endpages, h.endblocks))
    ensures h.Within() && h.Roomy()
  {
  }

  lemma SetDone(h: Hive, t: Tree, n: nat, floor: nat)
    requires h.Within() && h.license == SetLicence(t, n, floor)
    ensures OnlySet(t, n, floor, h.base, h.addr)
  {
    hide SetWrites;
  }

  /** How set_values ends: ERANGE for too many old values or an overlong block, ENOMEM only where memory does not last. */
  ghost predicate SetOutcome(before: nat, vals: seq<Value>, endpages: nat, r: Result<()>) {
    if before > MAX_VALUES then r == Err(ERANGE)
    else if vals == [] then r.Ok?
    else if endpages + ListCost(vals) <= Heap.MAX_IMAGE then r == if Small(vals) then Ok(()) else Err(ERANGE)
    else r.Ok? || r == Err(ENOMEM) || (r == Err(ERANGE) && !Small(vals))
  }

  /** hivex_node_set_values: the node gets exactly these values; every other node keeps everything. */
  method SetValues(h: Hive, n: nat, vals: seq<Value>) returns (r: Result<()>)
    requires h.Valid() && Handle(h, n)
    requires forall i :: 0 <= i < |vals| ==> IsName(vals[i].key)
    modifies h`addr, h`bitmap, h`endpages, h`endblocks, h`cells, h`t, h`base, h`license
    ensures h.HeapOk()
    ensures r.Ok? ==> OnlySet(old(h.t), n, Floor(old(h.endpages), old(h.endblocks)), old(h.addr), h.addr)
    ensures r.Ok? ==> Recorded(old(h.cells), h.cells, n, vals)
    ensures !h.writable ==> r == Err(EROFS)
    ensures h.writable && n !in old(h.t.reg) ==> r == Err(EINVAL)
    ensures r.Ok? ==> n in old(h.t.reg) && h.Valid()
                      && h.t.reg == old(h.t.reg)[n := old(h.t.reg)[n].(values := vals)] && h.t.ring == old(h.t.ring)
    ensures r.Ok? ==> |old(h.t.reg)[n].values| <= MAX_VALUES && (vals != [] ==> Small(vals))
    ensures r.Ok? ==> h.endpages <= old(h.endpages) + (if vals == [] then 0 else ListCost(vals))
    ensures h.writable && n in old(h.t.reg) ==> SetOutcome(|old(h.t.reg)[n].values|, vals, old(h.endpages), r)
  {
    hide Heap.Tiled, Heap.CellsOk, Hive.HeapOk, Hive.Within, TreeOk, NodeOk, ValueRolesOk, ListCost, Small,
      Hive.Roomy, MayPut, MayFree, SetLicence, OnlySet, Floor, Recorded;
    if !h.writable {
      return Err(EROFS);
    }
    if n in h.t.reg { LiveNode(h, n); NodeParts(h.cells, h.t.owner, n, h.t.reg[n]); }
    if !h.BlockIs(n, 'n', 'k') {
      return Err(EINVAL);
    }
    ghost var t0, c0, a0, floor := h.t, h.cells, h.addr, Floor(h.endpages, h.endblocks);
    h.base, h.license := h.addr, SetLicence(h.t, n, floor);
    SetCovered(t0, n, floor);
    SetStart(h, t0, n);
    var deleted := DeleteValues(h, n, t0.owner, t0.reg);
    if deleted.Err? {
      return Err(deleted.errno);
    }
    Dropped(c0, t0, h.rootoffs, n);
    h.t := DropValues(t0, n);
    assert ValueBlocks(h.t.owner, n) == {};
    ghost var c1 := h.cells;
    if |vals| == 0 {
      SetDone(h, t0, n, floor);
      RecordedFrom(c0, c1, t0.owner, h.cells, n, vals);
      return Ok(());
    }
    var ok, e := FillValues(h, n, vals);
    if ok {
      SetDone(h, t0, n, floor);
      RecordedFrom(c0, c1, t0.owner, h.cells, n, vals);
    }
    return if ok then Ok(()) else Err(e);
  }

  // ---------- hivex_node_set_value

  /** Index of the last value whose key matches, -1 if none does. */
  function LastMatch(vals: seq<Value>, key: seq<byte>): (i: int)
    ensures -1 <= i < |vals|
  {
    if vals == [] then -1
    else if CaseCmp(vals[|vals| - 1].key, key) == 0 then |vals| - 1
    else LastMatch(vals[..|vals| - 1], key)
  }

  /** The values after set_value: the matching one replaced in place, or one more at the end. */
  function Replaced(vals: seq<Value>, val: Value): (r: seq<Value>) {
    var i := LastMatch(vals, val.key);
    if i >= 0 then vals[i := val] else vals + [val]
  }

  /** The values with keys as C sees them. */
  function Terminated(vals: seq<Value>): (r: seq<Value>)
    ensures |r| == |vals| && forall i :: 0 <= i < |vals| ==> r[i] == vals[i].(key := CString(vals[i].key))
  {
    seq(|vals|, i requires 0 <= i < |vals| => vals[i].(key := CString(vals[i].key)))
  }

  /** set_value: keys that hold a zero byte are cut there, then val takes its place. */
  function SetTo(vals: seq<Value>, val: Value): seq<Value> { Replaced(Terminated(vals), val) }

  lemma KeptNames(vals: seq<Value>)
    requires forall i :: 0 <= i < |vals| ==> |vals[i].key| < 0x1_0000
    ensures forall i :: 0 <= i < |vals| ==> IsName(Terminated(vals)[i].key)
  {
    hide CString;
    forall i | 0 <= i < |vals|
      ensures IsName(Terminated(vals)[i].key)
    {
      CStringIs(vals[i].key);
    }
  }

  lemma {:induction false} LastMatchSame(vals: seq<Value>, key: seq<byte>)
    ensures LastMatch(Terminated(vals), key) == LastMatch(vals, key)
  {
    hide CaseCmp;
    if vals != [] {
      CmpCString(vals[|vals| - 1].key, key);
      LastMatchSame(vals[..|vals| - 1], key);
      assert Terminated(vals)[..|vals| - 1] == Terminated(vals[..|vals| - 1]);
    }
  }

  /** With unique keys set_value replaces the match in place or appends one value; every other value keeps type and
      bytes, and its key unless that holds a zero byte. */
  lemma SetExactly(vals: seq<Value>, val: Value)
    requires UniqueKeys(vals)
    ensures UniqueKeys(SetTo(vals, val))
    ensures |SetTo(vals, val)| == if exists i :: 0 <= i < |vals| && CaseCmp(vals[i].key, val.key) == 0 then |vals| else |vals| + 1
    ensures forall i :: 0 <= i < |vals| ==>
              SetTo(vals, val)[i] == if CaseCmp(vals[i].key, val.key) == 0 then val else vals[i].(key := CString(vals[i].key))
    ensures |SetTo(vals, val)| > |vals| ==> SetTo(vals, val)[|vals|] == val
    ensures (forall i :: 0 <= i < |vals| ==> 0 !in vals[i].key) ==> SetTo(vals, val) == Replaced(vals, val)
    ensures forall i :: 0 <= i < |vals| ==> (CaseCmp(vals[i].key, val.key) == 0 <==> Recased(CString(vals[i].key), CString(val.key)))
  {
    hide CaseCmp, Replaced, Recased;
    var cut := Terminated(vals);
    forall i | 0 <= i < |vals|
      ensures CaseCmp(cut[i].key, val.key) == CaseCmp(vals[i].key, val.key)
      ensures CaseCmp(vals[i].key, val.key) == 0 <==> Recased(CString(vals[i].key), CString(val.key))
    {
      CmpZero(vals[i].key, val.key);
      CmpCString(vals[i].key, val.key);
    }
    forall i, j | 0 <= i < j < |vals|
      ensures CaseCmp(cut[i].key, cut[j].key) != 0
    {
      CmpCString(vals[i].key, cut[j].key);
      CmpCString(vals[i].key, vals[j].key);
    }
    ReplacedExactly(cut, val);
    if forall i :: 0 <= i < |vals| ==> 0 !in vals[i].key {
      forall i | 0 <= i < |vals|
        ensures cut[i] == vals[i]
      {
        CStringIs(vals[i].key);
      }
      assert cut == vals;
    }
  }

  /** Keys are unique up to case. */
  ghost predicate UniqueKeys(vals: seq<Value>) {
    forall i, j :: 0 <= i < j < |vals| ==> CaseCmp(vals[i].key, vals[j].key) != 0
  }

  lemma {:induction false} LastMatchIs(vals: seq<Value>, key: seq<byte>)
    ensures LastMatch(vals, key) >= 0 ==> CaseCmp(vals[LastMatch(vals, key)].key, key) == 0
    ensures forall j :: LastMatch(vals, key) < j < |vals| ==> CaseCmp(vals[j].key, key) != 0
  {
    if vals != [] && CaseCmp(vals[|vals| - 1].key, key) != 0 { LastMatchIs(vals[..|vals| - 1], key); }
  }

  /** With unique keys set_value replaces the one match, or appends; nothing else moves and keys stay unique. */
  lemma ReplacedExactly(vals: seq<Value>, val: Value)
    requires UniqueKeys(vals)
    ensures UniqueKeys(Replaced(vals, val))
    ensures forall i :: 0 <= i < |vals| ==>
              Replaced(vals, val)[i] == if CaseCmp(vals[i].key, val.key) == 0 then val else vals[i]
    ensures |Replaced(vals, val)| == if exists i :: 0 <= i < |vals| && CaseCmp(vals[i].key, val.key) == 0
                                     then |vals| else |vals| + 1
    ensures |Replaced(vals, val)| > |vals| ==> Replaced(vals, val)[|vals|] == val
  {
    var m := LastMatch(vals, val.key);
    LastMatchIs(vals, val.key);
    CmpSym(val.key, val.key);
    forall i | 0 <= i < |vals|
      ensures CaseCmp(vals[i].key, val.key) == 0 <==> i == m
    {
      if m >= 0 && i < m && CaseCmp(vals[i].key, val.key) == 0 {
        CmpSym(vals[m].key, val.key);
        CmpTrans(vals[i].key, val.key, vals[m].key);
        CmpSym(vals[i].key, vals[m].key);
        CmpSym(vals[i].key, val.key);
        CmpTrans(vals[m].key, val.key, vals[i].key);
      }
    }
    var r := Replaced(vals, val);
    forall i, j | 0 <= i < j < |r|
      ensures CaseCmp(r[i].key, r[j].key) != 0
    {
      if i == m { MatchesAlike(vals[i].key, val.key, vals[j].key); }
      if j == m { CmpSym(vals[i].key, val.key); }
    }
  }

  lemma MatchesAlike(a: seq<byte>, b: seq<byte>, c: seq<byte>)
    requires CaseCmp(a, b) == 0
    ensures CaseCmp(a, c) == 0 <==> CaseCmp(b, c) == 0
  {
    CmpSym(a, b);
    CmpSym(a, c);
    CmpSym(b, c);
    if CaseCmp(a, c) == 0 { CmpTrans(b, a, c); CmpTrans(c, a, b); }
    if CaseCmp(b, c) == 0 { CmpTrans(a, b, c); CmpTrans(c, b, a); }
  }

  /** One value: its data, then its key. */
  method ReadValue(h: Hive, k: nat, ghost o: Owner, ghost n: nat, ghost i: nat, ghost val: Value) returns (r: Result<Value>)
    requires h.HeapOk()
    ensures ValueOk(h.cells, o, n, i, k, val) ==> r == Ok(val)
  {
    hide Heap.Tiled, Heap.CellsOk, Hive.HeapOk, Hive.Within, DataOk, KeyGood, DataGood, DataIs, ValueFault, U16, U32;
    var data := ValueValue(h, k, o, n, i, val);
    if data.Err? {
      return Err(data.errno);
    }
    var key := ValueKey(h, k);
    if key.Err? {
      return Err(key.errno);
    }
    return Ok(Value(key.value, data.value.0, data.value.1));
  }

  /** The first loop of set_value: all values as (key, type, bytes), and the last match. */
  method ReadValues(h: Hive, ks: seq<nat>, key: seq<byte>, ghost o: Owner, ghost n: nat, ghost vals: seq<Value>)
    returns (r: Result<(seq<Value>, int)>)
    requires h.HeapOk()
    ensures |ks| == |vals| && (forall i :: 0 <= i < |vals| ==> ValueOk(h.cells, o, n, i, ks[i], vals[i])) ==>
              r == Ok((vals, LastMatch(vals, key)))
    ensures r.Ok? ==> -1 <= r.value.1 < |r.value.0|
  {
    hide Heap.Tiled, Heap.CellsOk, Hive.HeapOk, Hive.Within, CaseCmp, ValueOk;
    ghost var good := |ks| == |vals| && forall i :: 0 <= i < |vals| ==> ValueOk(h.cells, o, n, i, ks[i], vals[i]);
    var all, idx := [], -1;
    for i := 0 to |ks|
      invariant |all| == i && -1 <= idx < i
      invariant good ==> all == vals[..i] && idx == LastMatch(vals[..i], key)
    {
      ghost var val := if good then vals[i] else Value([], 0, []);
      var read := ReadValue(h, ks[i], o, n, i, val);
      if read.Err? {
        return Err(read.errno);
      }
      if CaseCmp(read.value.key, key) == 0 {
        idx := i;
      }
      all := all + [read.value];
      assert good ==> vals[..i + 1][..i] == vals[..i] && all == vals[..i + 1];
    }
    assert good ==> vals[..|ks|] == vals;
    return Ok((all, idx));
  }

  lemma KeysShort(h: Hive, n: nat)
    requires h.Valid() && n in h.t.reg
    ensures forall i :: 0 <= i < |h.t.reg[n].values| ==> |h.t.reg[n].values[i].key| < 0x1_0000
    ensures HoldsValues(h, h.t.owner, n, h.t.reg[n].values)
    ensures |VkOffsets(h.cells, n)| == |h.t.reg[n].values|
    ensures forall i :: 0 <= i < |h.t.reg[n].values| ==>
              ValueOk(h.cells, h.t.owner, n, i, VkOffsets(h.cells, n)[i], h.t.reg[n].values[i])
  {
    hide Heap.Tiled, Heap.CellsOk, Hive.HeapOk, Hive.Within, KidsOk, RingOk, CountsOk, LinksOk, DataOk, RolesOk;
    NodeIn(h.cells, h.t, n);
    var vals := h.t.reg[n].values;
    ValuesPlace(h.cells, h.t.owner, n, vals);
    forall i | 0 <= i < |vals|
      ensures |vals[i].key| < 0x1_0000
    {
      assert ValueOk(h.cells, h.t.owner, n, i, VkOffsets(h.cells, n)[i], vals[i]);
      h.VkRoom(VkOffsets(h.cells, n)[i]);
    }
  }

  /** hivex_node_set_value: replaces the matching value in place or appends one; the others keep key, type, bytes, order. */
  method SetValue(h: Hive, n: nat, val: Value) returns (r: Result<()>)
    requires h.Valid() && Handle(h, n) && IsName(val.key)
    modifies h`addr, h`bitmap, h`endpages, h`endblocks, h`cells, h`t, h`base, h`license
    ensures h.HeapOk()
    ensures r.Ok? ==> OnlySet(old(h.t), n, Floor(old(h.endpages), old(h.endblocks)), old(h.addr), h.addr)
    ensures n !in old(h.t.reg) ==> r == Err(EINVAL)
    ensures r.Ok? ==> n in old(h.t.reg) && h.Valid() && h.t.ring == old(h.t.ring)
                      && h.t.reg == old(h.t.reg)[n := old(h.t.reg)[n].(values := SetTo(old(h.t.reg)[n].values, val))]
    ensures h.writable && n in old(h.t.reg) ==>
              SetOutcome(|old(h.t.reg)[n].values|, SetTo(old(h.t.reg)[n].values, val), old(h.endpages), r)
    ensures r.Ok? ==> Small(SetTo(old(h.t.reg)[n].values, val))
                      && h.endpages <= old(h.endpages) + ListCost(SetTo(old(h.t.reg)[n].values, val))
  {
    hide Heap.Tiled, Heap.CellsOk, Hive.HeapOk, Hive.Within, TreeOk, ListCost, Small, LastMatch, ValueOk, HoldsValues,
      OnlySet, Floor, ValuesGood, ValuesOf;
    ghost var vals := if n in h.t.reg then h.t.reg[n].values else [];
    if n in h.t.reg { KeysShort(h, n); LiveNode(h, n); }
    var prev := GetValues(h, n, h.t.owner, vals);
    if prev.Err? {
      return Err(prev.errno);
    }
    var read := ReadValues(h, prev.value.0, val.key, h.t.owner, n, vals);
    match read
    case Err(e) => return Err(e);
    case Ok((all, idx)) =>
      // the keys read back go on as C strings
      var kept := Terminated(all);
      LastMatchSame(all, val.key);
      KeptNames(all);
      var values := if idx > -1 then kept[idx := val] else kept + [val];
      r := SetValues(h, n, values);
  }
}
