/** Reading nodes: subkey lists, names, values. Every branch of the source is kept; where the C code would read past
    the end of the image the model stops with EFAULT. */
module Readers {
  import opened Bytes
  import opened Layout
  import opened Records
  import opened Registry
  import opened Hives
  import opened Names

  datatype Errno = EINVAL | EFAULT | ENOTSUP | ERANGE | EROFS | EEXIST | ENOMEM | ELOOP
  datatype Result<+T> = Ok(value: T) | Err(errno: Errno)

  const MAX_SUBKEYS := 15000
  const MAX_VALUES := 10000

  /** The intermediate blocks get_children reports: subkey_lf, then the lists an ri leads to. */
  ghost function ListBlocks(c: Cells, n: nat): seq<nat>
    requires n in c && c[n].Nk? && (c[n].nrSubkeys > 0 ==> P(c[n].subkeyLf) in c)
  {
    if c[n].nrSubkeys == 0 then [] else
      var l := P(c[n].subkeyLf);
      if c[l].Ri? then [l] + Lfs(c, l) else [l]
  }

  // ---------- what the readers find in any image, from its bytes and bitmap alone

  ghost function KeysOf(a: seq<byte>, l: nat, count: nat): (r: seq<nat>)
    requires l + 8 + 8 * count <= |a|
    ensures |r| == count
  {
    seq(count, j requires 0 <= j < count => P(U32(a, l + 8 + 8 * j)))
  }

  ghost predicate KeysGood(a: seq<byte>, bm: seq<bv8>, l: nat, count: nat, check: bool) {
    l + 8 + 8 * count <= |a| && (check ==> forall x :: x in KeysOf(a, l, count) ==> ValidAt(a, bm, x))
  }

  /** The i-th list of an ri record. */
  ghost function RiList(a: seq<byte>, ri: nat, i: nat): nat {
    if ri + 12 + 4 * i <= |a| then P(U32(a, ri + 8 + 4 * i)) else 0
  }

  ghost predicate ListGood(a: seq<byte>, bm: seq<bv8>, o: nat) {
    ValidAt(a, bm, o) && o + 8 <= |a| && (IsId(a, o, 'l', 'f') || IsId(a, o, 'l', 'h'))
  }

  /** How many keys the list at o holds. */
  ghost function ListLen(a: seq<byte>, o: nat): nat { if o + 8 <= |a| then U16(a, o + 6) else 0 }

  ghost predicate RiLists(a: seq<byte>, bm: seq<bv8>, ri: nat, n: nat) {
    ri + 8 + 4 * n <= |a| && forall i :: 0 <= i < n ==> ListGood(a, bm, RiList(a, ri, i))
  }

  /** How many keys the first n lists hold. */
  ghost function RiSum(a: seq<byte>, ri: nat, n: nat): nat {
    if n == 0 then 0 else RiSum(a, ri, n - 1) + ListLen(a, RiList(a, ri, n - 1))
  }

  ghost predicate RiKeys(a: seq<byte>, bm: seq<bv8>, ri: nat, n: nat, check: bool) {
    forall i :: 0 <= i < n ==> KeysGood(a, bm, RiList(a, ri, i), ListLen(a, RiList(a, ri, i)), check)
  }

  ghost function RiFlat(a: seq<byte>, bm: seq<bv8>, ri: nat, n: nat, check: bool): seq<nat>
    requires RiKeys(a, bm, ri, n, check)
  {
    if n == 0 then [] else
      assert KeysGood(a, bm, RiList(a, ri, n - 1), ListLen(a, RiList(a, ri, n - 1)), check);
      RiFlat(a, bm, ri, n - 1, check) + KeysOf(a, RiList(a, ri, n - 1), ListLen(a, RiList(a, ri, n - 1)))
  }

  /** The ri record at l lists nr children that can be read. */
  ghost predicate RiReadable(a: seq<byte>, bm: seq<bv8>, l: nat, nr: nat, check: bool) {
    l + 8 <= |a| && RiLists(a, bm, l, U16(a, l + 6)) && RiSum(a, l, U16(a, l + 6)) == nr && RiKeys(a, bm, l, U16(a, l + 6), check)
  }

  ghost predicate LfReadable(a: seq<byte>, bm: seq<bv8>, l: nat, nr: nat, check: bool) {
    l + 8 <= |a| && nr == U16(a, l + 6) && 8 + 8 * nr <= Len(a, l) && KeysGood(a, bm, l, nr, check)
  }

  ghost predicate NkAtOffset(a: seq<byte>, bm: seq<bv8>, n: nat) {
    ValidAt(a, bm, n) && n + 8 <= |a| && IsId(a, n, 'n', 'k')
  }

  /** get_children succeeds. */
  ghost predicate ChildrenGood(a: seq<byte>, bm: seq<bv8>, n: nat, check: bool) {
    NkAtOffset(a, bm, n) && n + 36 <= |a|
    && (U32(a, n + 24) == 0 || (U32(a, n + 24) <= MAX_SUBKEYS && ListsGood(a, bm, P(U32(a, n + 32)), U32(a, n + 24), check)))
  }

  ghost predicate ListsGood(a: seq<byte>, bm: seq<bv8>, l: nat, nr: nat, check: bool) {
    ValidAt(a, bm, l) && l + 8 <= |a|
    && if IsId(a, l, 'l', 'f') || IsId(a, l, 'l', 'h') then LfReadable(a, bm, l, nr, check)
       else IsId(a, l, 'r', 'i') && RiReadable(a, bm, l, nr, check)
  }

  /** The children it then reports. */
  ghost function ChildrenOf(a: seq<byte>, bm: seq<bv8>, n: nat, check: bool): seq<nat>
    requires ChildrenGood(a, bm, n, check)
  {
    var nr, l := U32(a, n + 24), P(U32(a, n + 32));
    if nr == 0 then [] else if IsId(a, l, 'l', 'f') || IsId(a, l, 'l', 'h') then KeysOf(a, l, nr)
    else RiFlat(a, bm, l, U16(a, l + 6), check)
  }

  lemma {:induction false} FlatValid(a: seq<byte>, bm: seq<bv8>, ri: nat, n: nat)
    requires RiKeys(a, bm, ri, n, true)
    ensures forall x :: x in RiFlat(a, bm, ri, n, true) ==> ValidAt(a, bm, x)
  {
    hide ValidAt, KeysOf;
    if n > 0 {
      FlatValid(a, bm, ri, n - 1);
      assert KeysGood(a, bm, RiList(a, ri, n - 1), ListLen(a, RiList(a, ri, n - 1)), true);
    }
  }

  /** With the check every child reported is a valid block. */
  lemma ChildrenValid(a: seq<byte>, bm: seq<bv8>, n: nat)
    requires ChildrenGood(a, bm, n, true)
    ensures forall x :: x in ChildrenOf(a, bm, n, true) ==> ValidAt(a, bm, x)
  {
    hide ValidAt, KeysOf, RiFlat, RiLists;
    var nr, l := U32(a, n + 24), P(U32(a, n + 32));
    if nr != 0 && !(IsId(a, l, 'l', 'f') || IsId(a, l, 'l', 'h')) { FlatValid(a, bm, l, U16(a, l + 6)); }
  }

  lemma KidsValid(h: Hive, n: nat)
    requires h.HeapOk() && ChildrenGood(h.addr, h.bitmap, n, true)
    ensures forall x :: x in ChildrenOf(h.addr, h.bitmap, n, true) ==> h.IsValidBlock(x)
  {
    hide ValidAt, ChildrenGood, ChildrenOf, Heap.Tiled, Heap.CellsOk;
    ChildrenValid(h.addr, h.bitmap, n);
    forall x | x in ChildrenOf(h.addr, h.bitmap, n, true)
      ensures h.IsValidBlock(x)
    {
      h.SameValid(x);
    }
  }

  ghost function RiBlocks(a: seq<byte>, ri: nat, n: nat): (r: seq<nat>)
    ensures |r| == n
  {
    seq(n, i requires 0 <= i < n => RiList(a, ri, i))
  }

  /** The blocks get_children reports: the list, or the ri record and its lists. */
  ghost function BlocksFound(a: seq<byte>, n: nat): seq<nat>
    requires n + 36 <= |a|
  {
    var nr, l := U32(a, n + 24), P(U32(a, n + 32));
    if nr == 0 || l + 8 > |a| then [] else if IsId(a, l, 'l', 'f') || IsId(a, l, 'l', 'h') then [l]
    else [l] + RiBlocks(a, l, U16(a, l + 6))
  }

  // ---------- what they report when they fail

  /** The first list an ri record should not name: no valid block (EFAULT), or neither lf nor lh (ENOTSUP). */
  ghost predicate BadList(a: seq<byte>, bm: seq<bv8>, ri: nat, n: nat, q: nat, e: Errno) {
    q < n && (forall i :: 0 <= i < q ==> ListGood(a, bm, RiList(a, ri, i))) && !ListGood(a, bm, RiList(a, ri, q))
    && e == if ValidAt(a, bm, RiList(a, ri, q)) then ENOTSUP else EFAULT
  }

  ghost predicate ListsFault(a: seq<byte>, bm: seq<bv8>, ri: nat, n: nat, e: Errno) {
    if ri + 8 + 4 * n > |a| then e == EFAULT else exists q :: BadList(a, bm, ri, n, q, e)
  }

  /** A count that does not match is ENOTSUP, a child that is no valid block EFAULT. */
  ghost predicate RiFault(a: seq<byte>, bm: seq<bv8>, l: nat, nr: nat, e: Errno)
    requires l + 8 <= |a|
  {
    var n := U16(a, l + 6);
    if RiLists(a, bm, l, n) then e == (if RiSum(a, l, n) != nr then ENOTSUP else EFAULT) else ListsFault(a, bm, l, n, e)
  }

  ghost predicate ListFault(a: seq<byte>, bm: seq<bv8>, l: nat, nr: nat, e: Errno) {
    if !ValidAt(a, bm, l) || l + 8 > |a| then e == EFAULT
    else if IsId(a, l, 'l', 'f') || IsId(a, l, 'l', 'h') then e == (if nr != U16(a, l + 6) then ENOTSUP else EFAULT)
    else if IsId(a, l, 'r', 'i') then RiFault(a, bm, l, nr, e)
    else e == ENOTSUP
  }

  /** The error get_children reports. */
  ghost predicate ChildrenFault(a: seq<byte>, bm: seq<bv8>, n: nat, e: Errno) {
    if !NkAtOffset(a, bm, n) then e == EINVAL
    else if n + 36 > |a| then e == EFAULT
    else if U32(a, n + 24) > MAX_SUBKEYS then e == ERANGE
    else ListFault(a, bm, P(U32(a, n + 32)), U32(a, n + 24), e)
  }

  /** The error hivex_value_value reports. */
  ghost function ValueFault(a: seq<byte>, bm: seq<bv8>, k: nat): Errno {
    if !(ValidAt(a, bm, k) && k + 6 <= |a| && IsId(a, k, 'v', 'k')) then EINVAL
    else if k + 24 > |a| then EFAULT
    else if U32(a, k + 8) >= 0x8000_0000 then ENOTSUP
    else if U32(a, k + 8) > MAX_VALUE_LEN then ERANGE
    else EFAULT
  }

  /** The bytes it finds: inside the record, or in a block, and then no more than the block holds. */
  ghost predicate DataIs(a: seq<byte>, k: nat, d: seq<byte>)
    requires k + 24 <= |a|
  {
    var raw, b := U32(a, k + 8), P(U32(a, k + 12));
    if raw >= 0x8000_0000 then raw - 0x8000_0000 <= 4 && d == a[k + 12..k + 12 + (raw - 0x8000_0000)]
    else b + 8 <= |a| && 8 <= Len(a, b) <= |a| - b
         && |d| == (if raw <= Len(a, b) - 4 then raw else Len(a, b) - 4) && d == a[b + 4..b + 4 + |d|]
  }

  // ---------- the reading loops

  /** hivex_node_name succeeds. */
  ghost predicate NameGood(a: seq<byte>, bm: seq<bv8>, n: nat) {
    NkAtOffset(a, bm, n) && n + 80 <= |a| && 80 + U16(a, n + 76) <= Len(a, n)
  }

  ghost function ValuesOf(a: seq<byte>, n: nat): (r: seq<nat>)
    requires n + 48 <= |a| && (U32(a, n + 40) > 0 ==> P(U32(a, n + 44)) + 4 + 4 * U32(a, n + 40) <= |a|)
  {
    var nr, v := U32(a, n + 40), P(U32(a, n + 44));
    seq(nr, i requires 0 <= i < nr => P(U32(a, v + 4 + 4 * i)))
  }

  ghost predicate ValListGood(a: seq<byte>, bm: seq<bv8>, v: nat, nr: nat) {
    ValidAt(a, bm, v) && v + 4 <= |a| && 4 + 4 * nr <= Len(a, v) && v + 4 + 4 * nr <= |a|
  }

  /** get_values succeeds. */
  ghost predicate ValuesGood(a: seq<byte>, bm: seq<bv8>, n: nat) {
    NkAtOffset(a, bm, n) && n + 48 <= |a|
    && (U32(a, n + 40) == 0 || (U32(a, n + 40) <= MAX_VALUES && ValListGood(a, bm, P(U32(a, n + 44)), U32(a, n + 40))
                                && forall x :: x in ValuesOf(a, n) ==> ValidAt(a, bm, x)))
  }

  ghost predicate VkAtOffset(a: seq<byte>, bm: seq<bv8>, k: nat) {
    ValidAt(a, bm, k) && k + 24 <= |a| && IsId(a, k, 'v', 'k')
  }

  /** hivex_value_key succeeds. */
  ghost predicate KeyGood(a: seq<byte>, bm: seq<bv8>, k: nat) {
    VkAtOffset(a, bm, k) && 24 + U16(a, k + 6) <= Len(a, k)
  }

  /** hivex_value_value succeeds. */
  ghost predicate DataGood(a: seq<byte>, bm: seq<bv8>, k: nat) {
    VkAtOffset(a, bm, k)
    && if U32(a, k + 8) >= INLINE then U32(a, k + 8) - INLINE <= 4
       else U32(a, k + 8) <= MAX_VALUE_LEN && ValidAt(a, bm, P(U32(a, k + 12)))
  }

  /** The offsets in the first `count` keys of the lf/lh block at l. */
  method ReadKeys(h: Hive, l: nat, count: nat, check: bool) returns (r: Result<seq<nat>>)
    requires h.HeapOk() && l + 8 <= |h.addr|
    ensures r.Ok? <==> KeysGood(h.addr, h.bitmap, l, count, check)
    ensures r.Ok? ==> r.value == KeysOf(h.addr, l, count)
    ensures r.Err? ==> r.errno == EFAULT
  {
    hide Heap.Tiled, Heap.CellsOk, Bitmap.Tst, U16, U32, ValidAt;
    if l + 8 + 8 * count > |h.addr| {
      return Err(EFAULT);
    }
    var kids := [];
    for j := 0 to count
      invariant kids == KeysOf(h.addr, l, count)[..j] && (check ==> forall x :: x in kids ==> ValidAt(h.addr, h.bitmap, x))
    {
      var subkey := P(U32(h.addr, l + 8 + 8 * j));
      h.SameValid(subkey);
      assert subkey in KeysOf(h.addr, l, count) by { assert subkey == KeysOf(h.addr, l, count)[j]; }
      if check && !h.IsValidBlock(subkey) {
        return Err(EFAULT);
      }
      kids := kids + [subkey];
    }
    return Ok(kids);
  }

  /** First pass over an ri record: its lists, and how many keys they hold together. */
  method CountRi(h: Hive, ri: nat) returns (r: Result<(seq<nat>, nat)>)
    requires h.HeapOk() && ri + 8 <= |h.addr|
    ensures r.Ok? <==> RiLists(h.addr, h.bitmap, ri, U16(h.addr, ri + 6))
    ensures r.Ok? ==> r.value == (RiBlocks(h.addr, ri, U16(h.addr, ri + 6)), RiSum(h.addr, ri, U16(h.addr, ri + 6)))
    ensures r.Err? ==> ListsFault(h.addr, h.bitmap, ri, U16(h.addr, ri + 6), r.errno)
  {
    hide Heap.Tiled, Heap.CellsOk, Bitmap.Tst, U16, U32, ValidAt;
    var nr: nat := U16(h.addr, ri + 6);
    if ri + 8 + 4 * nr > |h.addr| {
      return Err(EFAULT);
    }
    var blocks, count: nat := [], 0;
    for i := 0 to nr
      invariant blocks == RiBlocks(h.addr, ri, i) && count == RiSum(h.addr, ri, i)
      invariant forall q :: 0 <= q < i ==> ListGood(h.addr, h.bitmap, RiList(h.addr, ri, q))
    {
      var offset := P(U32(h.addr, ri + 8 + 4 * i));
      h.SameValid(offset);
      assert offset == RiList(h.addr, ri, i);
      if !h.IsValidBlock(offset) {
        assert BadList(h.addr, h.bitmap, ri, nr, i, EFAULT);
        return Err(EFAULT);
      }
      h.ValidIn(offset);
      if !IsId(h.addr, offset, 'l', 'f') && !IsId(h.addr, offset, 'l', 'h') {
        assert BadList(h.addr, h.bitmap, ri, nr, i, ENOTSUP);
        return Err(ENOTSUP);
      }
      blocks := blocks + [offset];
      count := count + U16(h.addr, offset + 6);
    }
    return Ok((blocks, count));
  }

  /** Second pass over an ri record: the children its lists name, in reading order. */
  method CopyRi(h: Hive, ri: nat, check: bool) returns (r: Result<seq<nat>>)
    requires h.HeapOk() && ri + 8 <= |h.addr|
    ensures r.Ok? <==> RiLists(h.addr, h.bitmap, ri, U16(h.addr, ri + 6)) && RiKeys(h.addr, h.bitmap, ri, U16(h.addr, ri + 6), check)
    ensures r.Ok? ==> r.value == RiFlat(h.addr, h.bitmap, ri, U16(h.addr, ri + 6), check)
    ensures r.Err? && RiLists(h.addr, h.bitmap, ri, U16(h.addr, ri + 6)) ==> r.errno == EFAULT
  {
    hide Heap.Tiled, Heap.CellsOk, Bitmap.Tst, U16, U32, ValidAt, KeysGood, KeysOf;
    var nr: nat := U16(h.addr, ri + 6);
    if ri + 8 + 4 * nr > |h.addr| {
      return Err(EFAULT);
    }
    var kids := [];
    for i := 0 to nr
      invariant forall q :: 0 <= q < i ==> ListGood(h.addr, h.bitmap, RiList(h.addr, ri, q))
      invariant RiKeys(h.addr, h.bitmap, ri, i, check) && kids == RiFlat(h.addr, h.bitmap, ri, i, check)
    {
      var offset := P(U32(h.addr, ri + 8 + 4 * i));
      h.SameValid(offset);
      assert offset == RiList(h.addr, ri, i);
      if !h.IsValidBlock(offset) {
        return Err(EFAULT);
      }
      h.ValidIn(offset);
      if !IsId(h.addr, offset, 'l', 'f') && !IsId(h.addr, offset, 'l', 'h') {
        return Err(ENOTSUP);
      }
      var keys := ReadKeys(h, offset, U16(h.addr, offset + 6), check);
      if keys.Err? {
        return Err(keys.errno);
      }
      kids := kids + keys.value;
    }
    return Ok(kids);
  }

  /** subkey_lf leads to a single list. */
  method FromLf(h: Hive, l: nat, nr: nat, check: bool) returns (r: Result<seq<nat>>)
    requires h.HeapOk() && l + 8 <= |h.addr| && Len(h.addr, l) <= |h.addr| - l
    ensures r.Ok? <==> LfReadable(h.addr, h.bitmap, l, nr, check)
    ensures r.Ok? ==> r.value == KeysOf(h.addr, l, nr)
    ensures r.Err? ==> r.errno == if nr != U16(h.addr, l + 6) then ENOTSUP else EFAULT
  {
    hide Heap.Tiled, Heap.CellsOk, Bitmap.Tst, U16, U32, KeysGood, KeysOf;
    var nrLf: nat := U16(h.addr, l + 6);
    if nr != nrLf {
      return Err(ENOTSUP);
    }
    if 8 + nrLf * 8 > Len(h.addr, l) {
      return Err(EFAULT);
    }
    r := ReadKeys(h, l, nrLf, check);
  }

  /** subkey_lf leads to an ri record over several lists. */
  method FromRi(h: Hive, l: nat, nr: nat, check: bool) returns (r: Result<(seq<nat>, seq<nat>)>)
    requires h.HeapOk() && l + 8 <= |h.addr|
    ensures r.Ok? <==> RiReadable(h.addr, h.bitmap, l, nr, check)
    ensures r.Ok? ==> r.value == (RiFlat(h.addr, h.bitmap, l, U16(h.addr, l + 6), check), [l] + RiBlocks(h.addr, l, U16(h.addr, l + 6)))
    ensures r.Err? ==> RiFault(h.addr, h.bitmap, l, nr, r.errno)
  {
    hide Heap.Tiled, Heap.CellsOk, Bitmap.Tst, U16, U32, RiLists, RiKeys, RiFlat, RiSum, ListsFault;
    var counted := CountRi(h, l);
    if counted.Err? {
      return Err(counted.errno);
    }
    if nr != counted.value.1 {
      return Err(ENOTSUP);
    }
    var all := CopyRi(h, l, check);
    if all.Err? {
      return Err(all.errno);
    }
    return Ok((all.value, [l] + counted.value.0));
  }

  /** When the records of node list kids. */
  ghost predicate Lists(h: Hive, o: Owner, node: nat, kids: seq<nat>)
    reads h
  {
    node in h.cells && h.cells[node].Nk? && KidsOk(h.cells, o, node, kids)
  }

  /** get_children: the child nodes in reading order, and the blocks that list them. */
  method GetChildren(h: Hive, node: nat, check: bool, ghost o: Owner, ghost kids: seq<nat>)
    returns (r: Result<(seq<nat>, seq<nat>)>)
    requires h.HeapOk()
    ensures !h.BlockIs(node, 'n', 'k') ==> r == Err(EINVAL)
    ensures r.Ok? <==> ChildrenGood(h.addr, h.bitmap, node, check)
    ensures r.Ok? ==> r.value == (ChildrenOf(h.addr, h.bitmap, node, check), BlocksFound(h.addr, node))
    ensures r.Ok? && check ==> forall x :: x in r.value.0 ==> h.IsValidBlock(x)
    ensures r.Err? ==> ChildrenFault(h.addr, h.bitmap, node, r.errno)
    ensures Lists(h, o, node, kids) && |kids| > MAX_SUBKEYS ==> r == Err(ERANGE)
    ensures Lists(h, o, node, kids) && |kids| <= MAX_SUBKEYS && (check ==> forall x :: x in kids ==> x in h.cells) ==>
              r == Ok((kids, ListBlocks(h.cells, node)))
  {
    hide Heap.Tiled, Heap.CellsOk, Hive.HeapOk, Bitmap.Tst, U16, U32, KidsOk, ListsGood, ChildrenOf, BlocksFound,
      ListBlocks, ListFault;
    r := ReadChildren(h, node, check);
    if r.Ok? && check { KidsValid(h, node); }
    if Lists(h, o, node, kids) {
      CountHolds(h, o, node, kids);
      NkIs(h, node);
      if |kids| <= MAX_SUBKEYS && (check ==> forall x :: x in kids ==> x in h.cells) { ChildrenHold(h, o, node, kids, check); }
    }
  }

  lemma NkIs(h: Hive, n: nat)
    requires h.HeapOk()
    ensures h.BlockIs(n, 'n', 'k') <==> NkAtOffset(h.addr, h.bitmap, n)
  {
    hide Heap.Tiled, Heap.CellsOk, Bitmap.Tst, ValidAt;
    h.SameValid(n);
    if h.IsValidBlock(n) { h.ValidIn(n); }
  }

  /** The code of get_children. */
  method ReadChildren(h: Hive, node: nat, check: bool) returns (r: Result<(seq<nat>, seq<nat>)>)
    requires h.HeapOk()
    ensures !h.BlockIs(node, 'n', 'k') ==> r == Err(EINVAL)
    ensures r.Ok? <==> ChildrenGood(h.addr, h.bitmap, node, check)
    ensures r.Ok? ==> r.value == (ChildrenOf(h.addr, h.bitmap, node, check), BlocksFound(h.addr, node))
    ensures r.Err? ==> ChildrenFault(h.addr, h.bitmap, node, r.errno)
  {
    hide Heap.Tiled, Heap.CellsOk, Bitmap.Tst, U16, U32, LfReadable, RiReadable, KeysOf, RiFlat, RiBlocks, ValidAt,
      RiFault;
    NkIs(h, node);
    if !h.BlockIs(node, 'n', 'k') {
      return Err(EINVAL);
    }
    if node + 36 > |h.addr| {
      return Err(EFAULT);
    }
    var nr := U32(h.addr, node + 24);
    if nr == 0 {
      return Ok(([], []));
    }
    if nr > MAX_SUBKEYS {
      return Err(ERANGE);
    }
    var l := P(U32(h.addr, node + 32));
    h.SameValid(l);
    if !h.IsValidBlock(l) {
      return Err(EFAULT);
    }
    h.ValidIn(l);
    if IsId(h.addr, l, 'l', 'f') || IsId(h.addr, l, 'l', 'h') {
      var keys := FromLf(h, l, nr, check);
      if keys.Err? {
        return Err(keys.errno);
      }
      return Ok((keys.value, [l]));
    } else if IsId(h.addr, l, 'r', 'i') {
      r := FromRi(h, l, nr, check);
      return;
    }
    return Err(ENOTSUP);
  }

  // ---------- ... find what the records say

  /** A tracked list is valid, has its id, and its keys are those of the record. */
  lemma ListHolds(h: Hive, l: nat, check: bool)
    requires h.HeapOk() && l in h.cells && h.cells[l].Lf?
    requires check ==> forall x :: x in KeyPs(h.cells[l].keys) ==> x in h.cells
    ensures ListGood(h.addr, h.bitmap, l) && ListLen(h.addr, l) == |h.cells[l].keys| && 8 + 8 * |h.cells[l].keys| <= Len(h.addr, l)
    ensures KeysGood(h.addr, h.bitmap, l, |h.cells[l].keys|, check) && KeysOf(h.addr, l, |h.cells[l].keys|) == KeyPs(h.cells[l].keys)
  {
    hide Heap.Tiled, Heap.CellsOk, Bitmap.Tst, U16, U32, ValidAt;
    var keys := h.cells[l].keys;
    h.CellValid(l);
    h.SameValid(l);
    h.LfRoom(l);
    assert h.HasId(l, 'l', 'f') || h.HasId(l, 'l', 'h');
    assert h.LfCount(l) == |keys|;
    var found := KeysOf(h.addr, l, |keys|);
    forall j | 0 <= j < |keys|
      ensures found[j] == KeyPs(keys)[j]
    {
      assert h.LfKey(l, j).off == U32(h.addr, l + 8 + 8 * j);
    }
    if check {
      forall x | x in found
        ensures ValidAt(h.addr, h.bitmap, x)
      {
        h.CellValid(x);
        h.SameValid(x);
      }
    }
  }

  ghost predicate RiGood(h: Hive, ri: nat)
    reads h
  {
    ri in h.cells && h.cells[ri].Ri? && AllLf(h.cells, Ps(h.cells[ri].offs))
  }

  lemma RiHolds(h: Hive, ri: nat)
    requires h.HeapOk() && RiGood(h, ri)
    ensures ri + 8 + 4 * |h.cells[ri].offs| <= |h.addr| && U16(h.addr, ri + 6) == |h.cells[ri].offs|
    ensures forall i :: 0 <= i < |h.cells[ri].offs| ==> RiList(h.addr, ri, i) == Ps(h.cells[ri].offs)[i]
  {
    hide Heap.Tiled, Heap.CellsOk, Bitmap.Tst, U16, U32, AllLf;
    h.RiRoom(ri);
    assert h.RiCount(ri) == U16(h.addr, ri + 6);
    forall i | 0 <= i < |h.cells[ri].offs|
      ensures RiList(h.addr, ri, i) == Ps(h.cells[ri].offs)[i]
    {
      assert h.RiGet(ri, i) == U32(h.addr, ri + 8 + 4 * i);
    }
  }

  /** The first n lists of a tracked ri record hold the children that Flat says. */
  lemma {:induction false} RiPrefix(h: Hive, ri: nat, n: nat, check: bool)
    requires h.HeapOk() && RiGood(h, ri) && n <= |h.cells[ri].offs| && AllLf(h.cells, Ps(h.cells[ri].offs)[..n])
    requires check ==> forall x :: x in Flat(h.cells, Ps(h.cells[ri].offs)) ==> x in h.cells
    ensures RiLists(h.addr, h.bitmap, ri, n) && RiKeys(h.addr, h.bitmap, ri, n, check)
    ensures RiSum(h.addr, ri, n) == |Flat(h.cells, Ps(h.cells[ri].offs)[..n])|
    ensures RiFlat(h.addr, h.bitmap, ri, n, check) == Flat(h.cells, Ps(h.cells[ri].offs)[..n])
  {
    hide Heap.Tiled, Heap.CellsOk, Hive.HeapOk, Bitmap.Tst, U16, U32, ValidAt, KeysGood, KeysOf, ListGood, RiList,
      Flat;
    var ls := Ps(h.cells[ri].offs);
    RiHolds(h, ri);
    if n == 0 {
      NoLists(h.cells, ls);
    } else {
      RiPrefix(h, ri, n - 1, check);
      FlatSnoc(h.cells, ls, n - 1);
      FlatPart(h.cells, ls, n - 1);
      ListHolds(h, ls[n - 1], check);
    }
  }

  lemma NoLists(c: Cells, ls: seq<nat>)
    requires AllLf(c, ls[..0])
    ensures Flat(c, ls[..0]) == []
  {
  }

  lemma FlatPart(c: Cells, ls: seq<nat>, i: nat)
    requires AllLf(c, ls) && i < |ls|
    ensures ls[i] in c && forall x :: x in KeyPs(c[ls[i]].keys) ==> x in Flat(c, ls)
  {
    FlatSnoc(c, ls, i);
    assert ls == ls[..i + 1] + ls[i + 1..];
    FlatCat(c, ls[..i + 1], ls[i + 1..]);
  }

  lemma CountHolds(h: Hive, o: Owner, n: nat, kids: seq<nat>)
    requires h.HeapOk() && Lists(h, o, n, kids)
    ensures NkAtOffset(h.addr, h.bitmap, n) && n + 80 <= |h.addr| && U32(h.addr, n + 24) == |kids|
    ensures U32(h.addr, n + 32) == h.cells[n].subkeyLf
  {
    hide Heap.Tiled, Heap.CellsOk, Bitmap.Tst, U16, U32, ListsOk, ValidAt;
    h.CellValid(n);
    h.SameValid(n);
    h.NkRoom(n);
    assert h.HasId(n, 'n', 'k');
    assert h.NkGet(n, NrSubkeys) == U32(h.addr, n + 24) && h.NkGet(n, SubkeyLf) == U32(h.addr, n + 32);
  }

  /** What get_children finds for a node is what its records list. */
  lemma ChildrenHold(h: Hive, o: Owner, n: nat, kids: seq<nat>, check: bool)
    requires h.HeapOk() && Lists(h, o, n, kids) && |kids| <= MAX_SUBKEYS && (check ==> forall x :: x in kids ==> x in h.cells)
    ensures ChildrenGood(h.addr, h.bitmap, n, check) && ChildrenOf(h.addr, h.bitmap, n, check) == kids
    ensures (h.cells[n].nrSubkeys > 0 ==> P(h.cells[n].subkeyLf) in h.cells) && BlocksFound(h.addr, n) == ListBlocks(h.cells, n)
  {
    hide Heap.Tiled, Heap.CellsOk, Hive.HeapOk, Bitmap.Tst, U16, U32, ValidAt, KeysGood, KeysOf, RiLists, RiKeys,
      RiSum, RiFlat, Flat, LfsOk, RiList;
    CountHolds(h, o, n, kids);
    if kids != [] {
      var l := P(h.cells[n].subkeyLf);
      ListIds(h, l);
      if h.cells[l].Lf? {
        assert Lfs(h.cells, l) == [l];
        FlatOne(h.cells, l);
        ListHolds(h, l, check);
      } else {
        var ls := Ps(h.cells[l].offs);
        assert AllLf(h.cells, ls) by { AllLists(h.cells, o, n, ls); }
        assert ls[..|ls|] == ls;
        RiHolds(h, l);
        RiPrefix(h, l, |ls|, check);
        assert RiBlocks(h.addr, l, |ls|) == ls;
      }
    }
  }

  lemma AllLists(c: Cells, o: Owner, n: nat, ls: seq<nat>)
    requires LfsOk(c, o, n, ls)
    ensures AllLf(c, ls)
  {
  }

  lemma ListIds(h: Hive, l: nat)
    requires h.HeapOk() && l in h.cells && (h.cells[l].Lf? || h.cells[l].Ri?)
    ensures ValidAt(h.addr, h.bitmap, l) && l + 8 <= |h.addr|
    ensures h.cells[l].Lf? <==> IsId(h.addr, l, 'l', 'f') || IsId(h.addr, l, 'l', 'h')
    ensures h.cells[l].Ri? <==> IsId(h.addr, l, 'r', 'i')
  {
    hide Heap.Tiled, Heap.CellsOk, Bitmap.Tst, U16, U32, ValidAt;
    h.CellValid(l);
    h.SameValid(l);
    h.ValidIn(l);
    assert h.HasId(l, 'l', 'f') == IsId(h.addr, l, 'l', 'f') && h.HasId(l, 'l', 'h') == IsId(h.addr, l, 'l', 'h');
    assert h.HasId(l, 'r', 'i') == IsId(h.addr, l, 'r', 'i');
  }

  /** hivex_node_name. */
  method NodeName(h: Hive, node: nat) returns (r: Result<seq<byte>>)
    requires h.HeapOk()
    ensures !h.BlockIs(node, 'n', 'k') ==> r == Err(EINVAL)
    ensures r.Ok? <==> NameGood(h.addr, h.bitmap, node)
    ensures r.Ok? ==> node + 80 + U16(h.addr, node + 76) <= |h.addr|
                      && r.value == h.addr[node + 80..node + 80 + U16(h.addr, node + 76)]
    ensures r.Err? && h.BlockIs(node, 'n', 'k') ==> r.errno == EFAULT
    ensures node in h.cells && h.cells[node].Nk? ==> r == Ok(h.cells[node].name)
  {
    hide Heap.Tiled, Heap.CellsOk, Bitmap.Tst, U16, U32, ValidAt;
    h.SameValid(node);
    if node in h.cells && h.cells[node].Nk? { NameHolds(h, node); }
    if !h.BlockIs(node, 'n', 'k') {
      return Err(EINVAL);
    }
    h.ValidIn(node);
    if node + 80 > |h.addr| {
      return Err(EFAULT);
    }
    var len := U16(h.addr, node + 76) as int;
    if 80 + len > Len(h.addr, node) {
      return Err(EFAULT);
    }
    return Ok(h.addr[node + 80..node + 80 + len]);
  }

  lemma NameHolds(h: Hive, n: nat)
    requires h.HeapOk() && n in h.cells && h.cells[n].Nk?
    ensures NameGood(h.addr, h.bitmap, n) && n + 80 + U16(h.addr, n + 76) <= |h.addr|
    ensures h.addr[n + 80..n + 80 + U16(h.addr, n + 76)] == h.cells[n].name
  {
    hide Heap.Tiled, Heap.CellsOk, Bitmap.Tst, U16, U32, ValidAt;
    h.CellValid(n);
    h.SameValid(n);
    h.NkRoom(n);
    assert h.HasId(n, 'n', 'k');
    assert h.NodeName(n) == h.cells[n].name;
  }

  /** hivex_node_parent. */
  method NodeParent(h: Hive, node: nat) returns (r: Result<nat>)
    requires h.HeapOk()
    ensures !h.BlockIs(node, 'n', 'k') ==> r == Err(EINVAL)
    ensures r.Ok? <==> h.BlockIs(node, 'n', 'k') && node + 24 <= |h.addr| && h.IsValidBlock(P(U32(h.addr, node + 20)))
    ensures r.Ok? ==> r.value == P(U32(h.addr, node + 20))
    ensures r.Err? && h.BlockIs(node, 'n', 'k') ==> r.errno == EFAULT
    ensures node in h.cells && h.cells[node].Nk? && P(h.cells[node].parent) in h.cells ==> r == Ok(P(h.cells[node].parent))
  {
    hide Heap.Tiled, Heap.CellsOk, Bitmap.Tst, U16, U32;
    if node in h.cells && h.cells[node].Nk? {
      h.CellValid(node);
      h.NkRoom(node);
      assert h.HasId(node, 'n', 'k');
      assert h.NkGet(node, Parent) == U32(h.addr, node + 20);
      if P(h.cells[node].parent) in h.cells { h.CellValid(P(h.cells[node].parent)); }
    }
    if !h.BlockIs(node, 'n', 'k') {
      return Err(EINVAL);
    }
    h.ValidIn(node);
    if node + 24 > |h.addr| {
      return Err(EFAULT);
    }
    var parent := P(U32(h.addr, node + 20));
    if !h.IsValidBlock(parent) {
      return Err(EFAULT);
    }
    return Ok(parent);
  }

  ghost predicate ListsNks(h: Hive, o: Owner, node: nat, kids: seq<nat>)
    reads h
  {
    Lists(h, o, node, kids) && forall x :: x in kids ==> x in h.cells && h.cells[x].Nk?
  }

  /** The first of the nodes whose name matches, 0 if none does. */
  ghost function FirstNamed(c: Cells, kids: seq<nat>, name: seq<byte>): nat
    requires forall x :: x in kids ==> x in c && c[x].Nk?
  {
    if kids == [] then 0 else
      assert kids[0] in kids;
      if CaseCmp(c[kids[0]].name, name) == 0 then kids[0] else FirstNamed(c, kids[1..], name)
  }

  lemma NamesMatch(c: Cells, kids: seq<nat>, name: seq<byte>)
    requires forall x :: x in kids ==> x in c && c[x].Nk?
    ensures forall x :: x in kids ==> (CaseCmp(c[x].name, name) == 0 <==> Recased(CString(c[x].name), CString(name)))
  {
    hide CaseCmp, Recased, CString;
    forall x | x in kids
      ensures CaseCmp(c[x].name, name) == 0 <==> Recased(CString(c[x].name), CString(name))
    {
      CmpZero(c[x].name, name);
    }
  }

  /** hivex_node_get_child: the first child with this name, 0 if there is none or the children cannot be read. */
  method GetChild(h: Hive, node: nat, name: seq<byte>, ghost o: Owner, ghost kids: seq<nat>) returns (r: nat)
    requires h.HeapOk()
    ensures ListsNks(h, o, node, kids) && r != 0 ==> r in kids && CaseCmp(h.cells[r].name, name) == 0
                                                     && |kids| <= MAX_SUBKEYS
    ensures ListsNks(h, o, node, kids) && r == 0 ==>
              |kids| > MAX_SUBKEYS || forall x :: x in kids ==> CaseCmp(h.cells[x].name, name) != 0
    ensures ListsNks(h, o, node, kids) && |kids| <= MAX_SUBKEYS ==> r == FirstNamed(h.cells, kids, name)
    ensures (ListsNks(h, o, node, kids) && |kids| <= MAX_SUBKEYS) ==>
              (r != 0 <==> exists x :: x in kids && Recased(CString(h.cells[x].name), CString(name)))
    ensures ListsNks(h, o, node, kids) && r != 0 ==> Recased(CString(h.cells[r].name), CString(name))
    ensures r != 0 ==> ChildrenGood(h.addr, h.bitmap, node, true) && r in ChildrenOf(h.addr, h.bitmap, node, true)
                       && NameGood(h.addr, h.bitmap, r)
  {
    hide Heap.Tiled, Heap.CellsOk, Bitmap.Tst, U16, U32, CaseCmp, KidsOk, Recased, CString, ListFault, ChildrenGood,
      ChildrenOf, BlocksFound, NameGood, ListBlocks;
    ghost var good := ListsNks(h, o, node, kids);
    if good { NamesMatch(h.cells, kids, name); }
    var c := GetChildren(h, node, true, o, kids);
    if c.Err? {
      return 0;
    }
    var children := c.value.0;
    for i := 0 to |children|
      invariant good ==> forall j :: 0 <= j < i ==> CaseCmp(h.cells[children[j]].name, name) != 0
      invariant good ==> FirstNamed(h.cells, children, name) == FirstNamed(h.cells, children[i..], name)
    {
      if good { assert children[i..][1..] == children[i + 1..]; }
      var n := NodeName(h, children[i]);
      if n.Err? {
        return 0;
      }
      if CaseCmp(n.value, name) == 0 {
        if good { h.CellValid(children[i]); }
        return children[i];
      }
    }
    return 0;
  }

  /** When the records of node hold the values vals. */
  ghost predicate HoldsValues(h: Hive, o: Owner, node: nat, vals: seq<Value>)
    reads h
  {
    node in h.cells && h.cells[node].Nk? && ValsOk(h.cells, o, node, vals)
  }

  ghost function VkOffsets(c: Cells, n: nat): seq<nat>
    requires n in c && c[n].Nk?
  {
    if c[n].nrValues == 0 || P(c[n].vallist) !in c || !c[P(c[n].vallist)].ValList? then [] else Ps(c[P(c[n].vallist)].vks)
  }

  /** get_values: the vk records in order, and the value list block. */
  method GetValues(h: Hive, node: nat, ghost o: Owner, ghost vals: seq<Value>) returns (r: Result<(seq<nat>, seq<nat>)>)
    requires h.HeapOk()
    ensures !h.BlockIs(node, 'n', 'k') ==> r == Err(EINVAL)
    ensures r.Ok? <==> ValuesGood(h.addr, h.bitmap, node)
    ensures r.Ok? ==> r.value == (ValuesOf(h.addr, node), if U32(h.addr, node + 40) == 0 then [] else [P(U32(h.addr, node + 44))])
    ensures r.Err? && h.BlockIs(node, 'n', 'k') ==>
              r.errno == if node + 48 <= |h.addr| && U32(h.addr, node + 40) > MAX_VALUES then ERANGE else EFAULT
    ensures HoldsValues(h, o, node, vals) && |vals| > MAX_VALUES ==> r == Err(ERANGE)
    ensures HoldsValues(h, o, node, vals) && |vals| <= MAX_VALUES ==>
              r == Ok((VkOffsets(h.cells, node), if vals == [] then [] else [P(h.cells[node].vallist)]))
              && |VkOffsets(h.cells, node)| == |vals|
  {
    hide Heap.Tiled, Heap.CellsOk, Bitmap.Tst, U16, U32, ValidAt, ValsOk, VkOffsets;
    h.SameValid(node);
    if HoldsValues(h, o, node, vals) {
      ValuesCounted(h, o, node, vals);
      if |vals| <= MAX_VALUES { ValuesHold(h, o, node, vals); }
    }
    if !h.BlockIs(node, 'n', 'k') {
      return Err(EINVAL);
    }
    h.ValidIn(node);
    if node + 48 > |h.addr| {
      return Err(EFAULT);
    }
    var nr := U32(h.addr, node + 40);
    if nr == 0 {
      assert ValuesOf(h.addr, node) == [];
      return Ok(([], []));
    }
    if nr > MAX_VALUES {
      return Err(ERANGE);
    }
    var v := P(U32(h.addr, node + 44));
    h.SameValid(v);
    if !h.IsValidBlock(v) {
      return Err(EFAULT);
    }
    h.ValidIn(v);
    if 4 + nr * 4 > Len(h.addr, v) {
      return Err(EFAULT);
    }
    var values := [];
    for i := 0 to nr
      invariant values == ValuesOf(h.addr, node)[..i] && forall x :: x in values ==> ValidAt(h.addr, h.bitmap, x)
    {
      var k := P(U32(h.addr, v + 4 + 4 * i));
      h.SameValid(k);
      assert k in ValuesOf(h.addr, node) by { assert k == ValuesOf(h.addr, node)[i]; }
      if !h.IsValidBlock(k) {
        return Err(EFAULT);
      }
      values := values + [k];
    }
    assert |ValuesOf(h.addr, node)| == nr && values == ValuesOf(h.addr, node);
    return Ok((values, [v]));
  }

  lemma ValuesCounted(h: Hive, o: Owner, n: nat, vals: seq<Value>)
    requires h.HeapOk() && HoldsValues(h, o, n, vals)
    ensures NkAtOffset(h.addr, h.bitmap, n) && n + 80 <= |h.addr| && U32(h.addr, n + 40) == |vals|
    ensures U32(h.addr, n + 44) == h.cells[n].vallist
  {
    hide Heap.Tiled, Heap.CellsOk, Bitmap.Tst, U16, U32, ValidAt, ValListOk;
    h.CellValid(n);
    h.SameValid(n);
    h.NkRoom(n);
    assert h.HasId(n, 'n', 'k');
    assert h.NkGet(n, NrValues) == U32(h.addr, n + 40) && h.NkGet(n, Vallist) == U32(h.addr, n + 44);
  }

  /** What get_values finds for a node is what its records hold. */
  lemma ValuesHold(h: Hive, o: Owner, n: nat, vals: seq<Value>)
    requires h.HeapOk() && HoldsValues(h, o, n, vals) && |vals| <= MAX_VALUES
    ensures ValuesGood(h.addr, h.bitmap, n) && ValuesOf(h.addr, n) == VkOffsets(h.cells, n) && |VkOffsets(h.cells, n)| == |vals|
  {
    hide Heap.Tiled, Heap.CellsOk, Bitmap.Tst, U16, U32, ValidAt, DataOk;
    ValuesCounted(h, o, n, vals);
    if vals != [] {
      var v := P(h.cells[n].vallist);
      h.CellValid(v);
      h.SameValid(v);
      h.ValListRoom(v);
      h.ValidIn(v);
      forall i | 0 <= i < |vals|
        ensures ValuesOf(h.addr, n)[i] == VkOffsets(h.cells, n)[i] && ValidAt(h.addr, h.bitmap, ValuesOf(h.addr, n)[i])
      {
        assert h.ValListGet(v, i) == U32(h.addr, v + 4 + 4 * i);
        assert ValueOk(h.cells, o, n, i, P(h.cells[v].vks[i]), vals[i]);
        h.CellValid(P(h.cells[v].vks[i]));
        h.SameValid(P(h.cells[v].vks[i]));
      }
    }
  }

  /** hivex_value_key. */
  method ValueKey(h: Hive, k: nat) returns (r: Result<seq<byte>>)
    requires h.HeapOk()
    ensures !h.BlockIs(k, 'v', 'k') ==> r == Err(EINVAL)
    ensures r.Ok? <==> KeyGood(h.addr, h.bitmap, k)
    ensures r.Ok? ==> k + 24 + U16(h.addr, k + 6) <= |h.addr| && r.value == h.addr[k + 24..k + 24 + U16(h.addr, k + 6)]
    ensures r.Err? && h.BlockIs(k, 'v', 'k') ==> r.errno == EFAULT
    ensures k in h.cells && h.cells[k].Vk? ==> r == Ok(h.cells[k].key)
  {
    hide Heap.Tiled, Heap.CellsOk, Bitmap.Tst, U16, U32, ValidAt;
    h.SameValid(k);
    if k in h.cells && h.cells[k].Vk? { KeyHolds(h, k); }
    if !h.BlockIs(k, 'v', 'k') {
      return Err(EINVAL);
    }
    h.ValidIn(k);
    if k + 24 > |h.addr| {
      return Err(EFAULT);
    }
    var len := U16(h.addr, k + 6) as int;
    if 24 + len > Len(h.addr, k) {
      return Err(EFAULT);
    }
    return Ok(h.addr[k + 24..k + 24 + len]);
  }

  lemma KeyHolds(h: Hive, k: nat)
    requires h.HeapOk() && k in h.cells && h.cells[k].Vk?
    ensures KeyGood(h.addr, h.bitmap, k) && k + 24 + U16(h.addr, k + 6) <= |h.addr|
    ensures h.addr[k + 24..k + 24 + U16(h.addr, k + 6)] == h.cells[k].key
  {
    hide Heap.Tiled, Heap.CellsOk, Bitmap.Tst, U16, U32, ValidAt;
    h.CellValid(k);
    h.SameValid(k);
    h.VkRoom(k);
    assert h.HasId(k, 'v', 'k');
    assert h.VkKey(k) == h.cells[k].key;
  }

  /** hivex_value_value: type and bytes, from the record itself or from its data block. */
  method ValueValue(h: Hive, k: nat, ghost o: Owner, ghost n: nat, ghost i: nat, ghost val: Value)
    returns (r: Result<(u32, seq<byte>)>)
    requires h.HeapOk()
    ensures !h.BlockIs(k, 'v', 'k') ==> r == Err(EINVAL)
    ensures r.Ok? <==> DataGood(h.addr, h.bitmap, k)
    ensures r.Ok? ==> r.value.0 == U32(h.addr, k + 16) && DataIs(h.addr, k, r.value.1)
    ensures r.Err? ==> r.errno == ValueFault(h.addr, h.bitmap, k)
    ensures ValueOk(h.cells, o, n, i, k, val) ==> r == Ok((val.typ, val.data))
  {
    hide Heap.Tiled, Heap.CellsOk, Bitmap.Tst, U16, U32, Le32, ValidAt;
    ghost var good := ValueOk(h.cells, o, n, i, k, val);
    h.SameValid(k);
    if good { VkHolds(h, k); }
    if !h.BlockIs(k, 'v', 'k') {
      return Err(EINVAL);
    }
    h.ValidIn(k);
    if k + 24 > |h.addr| {
      return Err(EFAULT);
    }
    var typ := U32(h.addr, k + 16);
    var raw := U32(h.addr, k + 8);
    var inl := raw >= INLINE;
    var len := if inl then raw - INLINE else raw;
    if inl && len > 4 {
      return Err(ENOTSUP);
    }
    if len > MAX_VALUE_LEN {
      return Err(ERANGE);
    }
    if inl {
      Le32U32(h.addr, k + 12);
      assert h.addr[k + 12..k + 16][..len] == h.addr[k + 12..k + 12 + len];
      return Ok((typ, h.addr[k + 12..k + 12 + len]));
    }
    var d := P(U32(h.addr, k + 12));
    h.SameValid(d);
    if good { h.CellValid(d); assert h.BlobGet(d, len) == val.data; }
    if !h.IsValidBlock(d) {
      return Err(EFAULT);
    }
    h.ValidIn(d);
    var blen := Len(h.addr, d);
    if len > blen - 4 {
      len := blen - 4;
    }
    return Ok((typ, h.addr[d + 4..d + 4 + len]));
  }

  lemma VkHolds(h: Hive, k: nat)
    requires h.HeapOk() && k in h.cells && h.cells[k].Vk?
    ensures VkAtOffset(h.addr, h.bitmap, k) && h.IsValidBlock(k)
    ensures U32(h.addr, k + 8) == h.cells[k].dataLen && U32(h.addr, k + 12) == h.cells[k].data && U32(h.addr, k + 16) == h.cells[k].typ
  {
    hide Heap.Tiled, Heap.CellsOk, Bitmap.Tst, U16, U32, ValidAt;
    h.CellValid(k);
    h.SameValid(k);
    h.VkRoom(k);
    assert h.HasId(k, 'v', 'k');
    assert h.VkGet(k) == (U32(h.addr, k + 8), U32(h.addr, k + 12), U32(h.addr, k + 16));
  }

  lemma DataHolds(h: Hive, o: Owner, n: nat, i: nat, k: nat, val: Value)
    requires h.HeapOk() && ValueOk(h.cells, o, n, i, k, val)
    ensures DataGood(h.addr, h.bitmap, k)
  {
    hide Heap.Tiled, Heap.CellsOk, Bitmap.Tst, U16, U32, Le32, ValidAt;
    VkHolds(h, k);
    if h.cells[k].dataLen < INLINE { h.CellValid(P(h.cells[k].data)); h.SameValid(P(h.cells[k].data)); }
  }

  /** hive_t_dword, hive_t_dword_be, hive_t_qword: the visitor goes on when such data cannot be read. */
  predicate Tolerant(a: seq<byte>, k: nat) { k + 20 <= |a| && U32(a, k + 16) in {4, 5, 11} }

  /** Only the type word counts: 4, 5 and 11, little-endian. */
  lemma ToleratedKinds(a: seq<byte>, k: nat)
    requires k + 20 <= |a|
    ensures Tolerant(a, k) <==> a[k + 16] in {4, 5, 11} && a[k + 17] == 0 && a[k + 18] == 0 && a[k + 19] == 0
  {
  }

  /** The visitor can pass this value on. */
  ghost predicate ValueGood(a: seq<byte>, bm: seq<bv8>, k: nat) {
    KeyGood(a, bm, k) && (DataGood(a, bm, k) || Tolerant(a, k))
  }
}
