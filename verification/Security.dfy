/** delete_sk: reference counts and the ring of security records. */
module Security {
  import opened Bytes
  import opened Registry
  import opened Heap
  import opened Hives
  import opened Readers

  function RemoveAt<T>(s: seq<T>, i: nat): (r: seq<T>)
    requires i < |s|
    ensures |r| == |s| - 1
  {
    s[..i] + s[i + 1..]
  }

  /** The record at ring position x is taken out; its neighbours point to each other. */
  ghost predicate Unlinked(c: Cells, ring: seq<nat>, x: nat, c': Cells) {
    x < |ring| && (forall i :: 0 <= i < |ring| ==> ring[i] in c && c[ring[i]].Sk?)
    && c'.Keys == c.Keys - {ring[x]}
    && (forall b :: b in c' && b !in ring ==> c'[b] == c[b])
    && (forall i :: 0 <= i < |ring| && i != x && ring[i] in c' ==> c'[ring[i]].Sk? && c'[ring[i]].refcount == c[ring[i]].refcount)
    && (forall i :: 0 <= i < |ring| && i != x && ring[i] in c' && c'[ring[i]].Sk? ==>
          c'[ring[i]].next == (if i == Pred(x, |ring|) then c[ring[x]].next else c[ring[i]].next)
          && c'[ring[i]].prev == (if i == Succ(x, |ring|) then c[ring[x]].prev else c[ring[i]].prev))
  }

  /** Position in the old ring of position i of the shrunk one. */
  function Back(x: nat, i: nat): nat { if i < x then i else i + 1 }

  lemma RemovedAt(s: seq<nat>, x: nat, i: nat)
    requires x < |s| && i < |s| - 1
    ensures RemoveAt(s, x)[i] == s[Back(x, i)]
  {
  }

  lemma MemberStays(c: Cells, t: Tree, x: nat, c': Cells, j: nat)
    requires RingOk(c, t) && Unlinked(c, t.ring, x, c') && j < |t.ring| && j != x
    ensures t.ring[j] in t.owner && t.owner[t.ring[j]].SkOf? && t.ring[j] != t.ring[x] && t.ring[j] in c' && c'[t.ring[j]].Sk?
    ensures P(c'[t.ring[j]].next) == t.ring[if j == Pred(x, |t.ring|) then Succ(x, |t.ring|) else Succ(j, |t.ring|)]
    ensures P(c'[t.ring[j]].prev) == t.ring[if j == Succ(x, |t.ring|) then Pred(x, |t.ring|) else Pred(j, |t.ring|)]
  {
    assert LinkedAt(c, t.owner, t.ring, j) && LinkedAt(c, t.owner, t.ring, x);
  }

  lemma StepsAround(x: nat, i: nat, k: nat)
    requires x < k && i < k - 1
    ensures (var j := Back(x, i);
             j < k && j != x && Back(x, Succ(i, k - 1)) == if j == Pred(x, k) then Succ(x, k) else Succ(j, k))
    ensures (var j := Back(x, i);
             Back(x, Pred(i, k - 1)) == if j == Succ(x, k) then Pred(x, k) else Pred(j, k))
  {
  }

  lemma LinkStays(c: Cells, t: Tree, x: nat, c': Cells, t': Tree, i: nat)
    requires RingOk(c, t) && Unlinked(c, t.ring, x, c') && i < |t.ring| - 1
    requires t'.owner == t.owner - {t.ring[x]} && t'.ring == RemoveAt(t.ring, x)
    ensures LinkedAt(c', t'.owner, t'.ring, i)
  {
    hide RingOk, Unlinked, RemoveAt;
    var k := |t.ring|;
    RingIndex(c, t, x, c');
    StepsAround(x, i, k);
    RemovedAt(t.ring, x, i);
    RemovedAt(t.ring, x, Succ(i, k - 1));
    RemovedAt(t.ring, x, Pred(i, k - 1));
    MemberStays(c, t, x, c', Back(x, i));
  }

  lemma RingIndex(c: Cells, t: Tree, x: nat, c': Cells)
    requires Unlinked(c, t.ring, x, c')
    ensures x < |t.ring|
  {
  }

  lemma MemberFound(c: Cells, t: Tree, x: nat, s: nat)
    requires RingOk(c, t) && x < |t.ring| && s in t.owner && t.owner[s].SkOf? && s != t.ring[x]
    ensures s in RemoveAt(t.ring, x)
  {
    var i :| 0 <= i < |t.ring| && t.ring[i] == s;
    assert RemoveAt(t.ring, x)[if i < x then i else i - 1] == s;
  }

  /** Taking a record out leaves one closed ring of the others. */
  lemma RingShrinks(c: Cells, t: Tree, x: nat, c': Cells, t': Tree)
    requires RingOk(c, t) && Unlinked(c, t.ring, x, c')
    requires t'.owner == t.owner - {t.ring[x]} && t'.ring == RemoveAt(t.ring, x)
    ensures RingOk(c', t')
  {
    forall i, j | 0 <= i < j < |t'.ring|
      ensures t'.ring[i] != t'.ring[j]
    {
      RemovedAt(t.ring, x, i);
      RemovedAt(t.ring, x, j);
    }
    forall s | s in t'.owner && t'.owner[s].SkOf?
      ensures s in t'.ring
    {
      MemberFound(c, t, x, s);
    }
    hide Unlinked, RemoveAt;
    forall i | 0 <= i < |t'.ring|
      ensures LinkedAt(c', t'.owner, t'.ring, i)
    {
      LinkStays(c, t, x, c', t', i);
    }
  }

  /** Links of the neighbours while the record at ring position x is taken out. */
  ghost function Bypassed(c: Cells, s: nat): Cells
    requires s in c && c[s].Sk?
  {
    var p, q := P(c[s].prev), P(c[s].next);
    if p == s || q == s || p !in c || !c[p].Sk? || q !in c || !c[q].Sk? then c else
      var c1 := c[p := c[p].(next := c[s].next)];
      c1[q := c1[q].(prev := c[s].prev)]
  }

  /** Ring member i keeps its count, and its links but for those to member x. */
  ghost predicate AroundAt(c: Cells, ring: seq<nat>, x: nat, c': Cells, i: nat) {
    x < |ring| && i < |ring| && ring[i] in c && c[ring[i]].Sk? && ring[x] in c && c[ring[x]].Sk?
    && ring[i] in c' && c'[ring[i]].Sk? && c'[ring[i]].refcount == c[ring[i]].refcount
    && c'[ring[i]].next == (if i == Pred(x, |ring|) then c[ring[x]].next else c[ring[i]].next)
    && c'[ring[i]].prev == (if i == Succ(x, |ring|) then c[ring[x]].prev else c[ring[i]].prev)
  }

  lemma BypassedUnlinks(c: Cells, t: Tree, x: nat)
    requires RingOk(c, t) && x < |t.ring| && t.ring[x] in c && c[t.ring[x]].Sk?
    ensures Unlinked(c, t.ring, x, Bypassed(c, t.ring[x]) - {t.ring[x]})
  {
    hide Bypassed;
    var ring := t.ring;
    var c' := Bypassed(c, ring[x]) - {ring[x]};
    BypassedKeys(c, ring[x]);
    forall i | 0 <= i < |ring|
      ensures ring[i] in c && c[ring[i]].Sk?
      ensures i != x ==> AroundAt(c, ring, x, c', i)
    {
      BypassedAt(c, t, x, i);
    }
    forall b | b in c' && b !in ring
      ensures c'[b] == c[b]
    {
      BypassedOff(c, t, x, b);
    }
  }

  lemma BypassedKeys(c: Cells, s: nat)
    requires s in c && c[s].Sk?
    ensures Bypassed(c, s).Keys == c.Keys
  {
  }

  lemma BypassedOff(c: Cells, t: Tree, x: nat, b: nat)
    requires RingOk(c, t) && x < |t.ring| && t.ring[x] in c && c[t.ring[x]].Sk? && b in c && b !in t.ring
    ensures b in Bypassed(c, t.ring[x]) && Bypassed(c, t.ring[x])[b] == c[b]
  {
    var ring := t.ring;
    assert LinkedAt(c, t.owner, ring, x);
  }

  /** What the bypass does to ring member i. */
  lemma BypassedAt(c: Cells, t: Tree, x: nat, i: nat)
    requires RingOk(c, t) && x < |t.ring| && i < |t.ring| && t.ring[x] in c && c[t.ring[x]].Sk?
    ensures var ring, c' := t.ring, Bypassed(c, t.ring[x]);
            ring[i] in c && c[ring[i]].Sk? && (i != x ==> ring[i] != ring[x] && AroundAt(c, ring, x, c', i))
  {
    var ring, k := t.ring, |t.ring|;
    assert LinkedAt(c, t.owner, ring, x) && LinkedAt(c, t.owner, ring, i);
    assert LinkedAt(c, t.owner, ring, Succ(x, k)) && LinkedAt(c, t.owner, ring, Pred(x, k));
    OneSlot(ring, i, Pred(x, k));
    OneSlot(ring, i, Succ(x, k));
    OneSlot(ring, i, x);
    OneSlot(ring, x, Pred(x, k));
    OneSlot(ring, x, Succ(x, k));
    hide RingOk;
  }

  lemma OneSlot(ring: seq<nat>, i: nat, j: nat)
    requires Distinct(ring) && i < |ring| && j < |ring|
    ensures ring[i] == ring[j] <==> i == j
  {
  }

  /** The licence lets the record at s leave the ring: its length, and the links of its neighbours to it. */
  ghost predicate MayUnlink(L: Licence, c: Cells, s: nat) {
    s in c && c[s].Sk? && MayPut(L, s, s, 4)
    && (P(c[s].prev) != s && P(c[s].next) != s ==>
          MayPut(L, P(c[s].prev), P(c[s].prev) + 8, 4) && MayPut(L, P(c[s].next), P(c[s].next) + 12, 4))
  }

  /** The licence lets one reference to the record at s go. */
  ghost predicate MayDrop(L: Licence, c: Cells, s: nat) {
    s in c && c[s].Sk? && MayPut(L, s, s + 16, 4) && (c[s].refcount == 1 ==> MayUnlink(L, c, s))
  }

  /** Takes the record out of the ring, unless it is the last one, and frees it. */
  method UnlinkSk(h: Hive, s: nat, ghost t: Tree, ghost x: nat)
    requires h.HeapOk() && h.writable && RingOk(h.cells, t) && x < |t.ring| && t.ring[x] == s && s in h.cells && h.cells[s].Sk?
    modifies h`addr, h`bitmap, h`cells
    ensures h.HeapOk() && h.cells == Bypassed(old(h.cells), s) - {s}
    ensures FreedOnly(old(h.bitmap), old(h.cells), h.bitmap, h.cells)
    ensures old(h.Within()) && MayUnlink(h.license, old(h.cells), s) ==> h.Within()
  {
    hide Heap.Tiled, Heap.CellsOk, Hive.HeapOk, RingOk, Bitmap.Marks, Hive.Within;
    var prev, next := P(h.SkGet(s).1), P(h.SkGet(s).0);
    NeighboursThere(h.cells, t, x);
    if prev != s && next != s {
      h.SkSetNext(prev, next - 0x1000);
      h.SkSetPrev(next, prev - 0x1000);
    }
    h.MarkBlockUnused(s);
  }

  lemma RefcountFree(c: Cells, t: Tree, s: nat, v: u32)
    requires RingOk(c, t) && s in c && c[s].Sk?
    ensures RingOk(c[s := c[s].(refcount := v)], t)
  {
    var c' := c[s := c[s].(refcount := v)];
    forall i | 0 <= i < |t.ring|
      ensures LinkedAt(c', t.owner, t.ring, i)
    {
      assert LinkedAt(c, t.owner, t.ring, i);
    }
    hide Distinct;
  }

  lemma UnlinkedFrom(c: Cells, t: Tree, x: nat, v: u32)
    requires RingOk(c, t) && x < |t.ring| && t.ring[x] in c && c[t.ring[x]].Sk?
    ensures var c1 := c[t.ring[x] := c[t.ring[x]].(refcount := v)];
            Unlinked(c, t.ring, x, Bypassed(c1, t.ring[x]) - {t.ring[x]})
  {
    hide Unlinked, RingOk;
    BypassedUnlinks(c, t, x);
    BypassIgnores(c, t.ring[x], v);
  }

  lemma BypassIgnores(c: Cells, s: nat, v: u32)
    requires s in c && c[s].Sk?
    ensures Bypassed(c[s := c[s].(refcount := v)], s) - {s} == Bypassed(c, s) - {s}
  {
  }

  /** delete_sk: one reference less; at zero the record leaves the ring and is freed. */
  method DeleteSk(h: Hive, s: nat, ghost t: Tree, ghost x: nat) returns (r: Result<()>)
    requires h.HeapOk() && h.writable && RingOk(h.cells, t) && (h.BlockIs(s, 's', 'k') ==> InRing(h.cells, t.ring, s, x))
    modifies h`addr, h`bitmap, h`cells
    ensures h.HeapOk()
    ensures r == if !InRing(old(h.cells), t.ring, s, x) then Err(EFAULT)
                 else if old(h.cells)[s].refcount == 0 then Err(EINVAL) else Ok(())
    ensures r.Err? ==> h.cells == old(h.cells) && h.addr == old(h.addr) && h.bitmap == old(h.bitmap)
    ensures r.Ok? && old(h.cells)[s].refcount > 1 ==>
              h.cells == old(h.cells)[s := old(h.cells)[s].(refcount := old(h.cells)[s].refcount - 1)]
    ensures r.Ok? && old(h.cells)[s].refcount == 1 ==> Unlinked(old(h.cells), t.ring, x, h.cells)
    ensures FreedOnly(old(h.bitmap), old(h.cells), h.bitmap, h.cells)
    ensures old(h.Within()) && MayDrop(h.license, old(h.cells), s) ==> h.Within()
  {
    hide Heap.Tiled, Heap.CellsOk, Hive.HeapOk, Bitmap.Marks, Unlinked, RingOk, Bypassed, Hive.Within;
    ghost var c := h.cells;
    if InRing(c, t.ring, s, x) {
      h.CellValid(s);
      assert h.HasId(s, 's', 'k');
    }
    if !h.BlockIs(s, 's', 'k') {
      return Err(EFAULT);
    }
    if h.SkGet(s).2 == 0 {
      return Err(EINVAL);
    }
    RefcountFree(c, t, s, h.SkGet(s).2 - 1);
    h.SkSetRefcount(s, h.SkGet(s).2 - 1);
    if h.SkGet(s).2 == 0 {
      UnlinkSk(h, s, t, x);
      UnlinkedFrom(c, t, x, 0);
    }
    return Ok(());
  }

  /** The security record at s is member x of the ring. */
  ghost predicate InRing(c: Cells, ring: seq<nat>, s: nat, x: nat) {
    x < |ring| && ring[x] == s && s in c && c[s].Sk?
  }

  lemma NeighboursThere(c: Cells, t: Tree, x: nat)
    requires RingOk(c, t) && x < |t.ring|
    ensures var s := t.ring[x];
            s in c && c[s].Sk? && P(c[s].prev) in t.ring && P(c[s].next) in t.ring
            && P(c[s].prev) in c && c[P(c[s].prev)].Sk? && P(c[s].next) in c && c[P(c[s].next)].Sk?
  {
    assert LinkedAt(c, t.owner, t.ring, x);
    assert LinkedAt(c, t.owner, t.ring, Succ(x, |t.ring|)) && LinkedAt(c, t.owner, t.ring, Pred(x, |t.ring|));
  }
}
