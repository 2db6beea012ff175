/** The records a used block can hold, and what each looks like in the bytes of its block. */
module Records {
  import opened Bytes

  /** One entry of an lf/lh list: nk offset (less 0x1000) and name hash. */
  datatype Key = Key(off: u32, hash: u32)

  /** Offsets stored inside records are 32 bits and relative to 0x1000. */
  datatype Rec =
    | Nk(flags: u16, timeLo: u32, timeHi: u32, parent: u32, nrSubkeys: u32, subkeyLf: u32,
         lfVolatile: u32, nrValues: u32, vallist: u32, sk: u32, classname: u32, maxSubkey: u16, maxVkName: u32,
         maxVkData: u32, name: seq<byte>)
    | Lf(lh: bool, keys: seq<Key>)
    | Ri(offs: seq<u32>)
    | ValList(vks: seq<u32>)
    | Vk(key: seq<byte>, dataLen: u32, data: u32, typ: u32, vkFlags: u16)
    | Sk(next: u32, prev: u32, refcount: u32)
    | Blob(bytes: seq<byte>)

  const NONE: u32 := 0xffff_ffff

  predicate IsId(a: seq<byte>, o: nat, c0: char, c1: char)
    requires o + 6 <= |a|
  {
    a[o + 4] as int == c0 as int && a[o + 5] as int == c1 as int
  }

  ghost predicate TextAt(a: seq<byte>, o: nat, s: seq<byte>)
    requires o + |s| <= |a|
  {
    forall i :: 0 <= i < |s| ==> a[o + i] == s[i]
  }

  ghost predicate NkAt(a: seq<byte>, o: nat, n: nat, r: Rec)
    requires r.Nk? && o + n <= |a|
  {
    80 + |r.name| <= n && |r.name| < 0x1_0000 && IsId(a, o, 'n', 'k')
    && U16(a, o + 6) == r.flags && U32(a, o + 8) == r.timeLo && U32(a, o + 12) == r.timeHi
    && U32(a, o + 20) == r.parent && U32(a, o + 24) == r.nrSubkeys && U32(a, o + 32) == r.subkeyLf
    && U32(a, o + 36) == r.lfVolatile
    && U32(a, o + 40) == r.nrValues && U32(a, o + 44) == r.vallist && U32(a, o + 48) == r.sk
    && U32(a, o + 52) == r.classname && U16(a, o + 56) == r.maxSubkey && U32(a, o + 64) == r.maxVkName
    && U32(a, o + 68) == r.maxVkData && U16(a, o + 76) == |r.name| && TextAt(a, o + 80, r.name)
  }

  ghost predicate LfAt(a: seq<byte>, o: nat, n: nat, r: Rec)
    requires r.Lf? && o + n <= |a|
  {
    8 + 8 * |r.keys| <= n && |r.keys| < 0x1_0000 && IsId(a, o, 'l', if r.lh then 'h' else 'f')
    && U16(a, o + 6) == |r.keys|
    && forall i :: 0 <= i < |r.keys| ==>
         U32(a, o + 8 + 8 * i) == r.keys[i].off && U32(a, o + 12 + 8 * i) == r.keys[i].hash
  }

  ghost predicate RiAt(a: seq<byte>, o: nat, n: nat, r: Rec)
    requires r.Ri? && o + n <= |a|
  {
    8 + 4 * |r.offs| <= n && |r.offs| < 0x1_0000 && IsId(a, o, 'r', 'i') && U16(a, o + 6) == |r.offs|
    && forall i :: 0 <= i < |r.offs| ==> U32(a, o + 8 + 4 * i) == r.offs[i]
  }

  ghost predicate ValListAt(a: seq<byte>, o: nat, n: nat, r: Rec)
    requires r.ValList? && o + n <= |a|
  {
    4 + 4 * |r.vks| <= n && forall i :: 0 <= i < |r.vks| ==> U32(a, o + 4 + 4 * i) == r.vks[i]
  }

  ghost predicate VkAt(a: seq<byte>, o: nat, n: nat, r: Rec)
    requires r.Vk? && o + n <= |a|
  {
    24 + |r.key| <= n && |r.key| < 0x1_0000 && IsId(a, o, 'v', 'k') && U16(a, o + 6) == |r.key|
    && U32(a, o + 8) == r.dataLen && U32(a, o + 12) == r.data && U32(a, o + 16) == r.typ
    && U16(a, o + 20) == r.vkFlags && TextAt(a, o + 24, r.key)
  }

  ghost predicate SkAt(a: seq<byte>, o: nat, n: nat, r: Rec)
    requires r.Sk? && o + n <= |a|
  {
    24 <= n && IsId(a, o, 's', 'k')
    && U32(a, o + 8) == r.next && U32(a, o + 12) == r.prev && U32(a, o + 16) == r.refcount
  }

  ghost predicate BlobAt(a: seq<byte>, o: nat, n: nat, r: Rec)
    requires r.Blob? && o + n <= |a|
  {
    4 + |r.bytes| == n && TextAt(a, o + 4, r.bytes)
  }

  /** The n bytes of the block at o hold the record r. */
  ghost predicate Holds(a: seq<byte>, o: nat, n: nat, r: Rec)
    requires o + n <= |a|
  {
    match r
    case Nk(_, _, _, _, _, _, _, _, _, _, _, _, _, _, _) => NkAt(a, o, n, r)
    case Lf(_, _) => LfAt(a, o, n, r)
    case Ri(_) => RiAt(a, o, n, r)
    case ValList(_) => ValListAt(a, o, n, r)
    case Vk(_, _, _, _, _) => VkAt(a, o, n, r)
    case Sk(_, _, _) => SkAt(a, o, n, r)
    case Blob(_) => BlobAt(a, o, n, r)
  }

  /** What a block holds depends only on its bytes after seg_len. */
  lemma HoldsSame(a: seq<byte>, b: seq<byte>, o: nat, n: nat, r: Rec)
    requires o + n <= |a| && o + n <= |b| && Same(a, b, o + 4, o + n) && Holds(a, o, n, r)
    ensures Holds(b, o, n, r)
  {
  }

  // ---------- the fields of an nk record that are rewritten in place

  datatype NkField = TimeLo | TimeHi | Parent | NrSubkeys | SubkeyLf | LfVolatile | NrValues | Vallist | SkOffs | Classname
                   | MaxVkName | MaxVkData

  function At(f: NkField): nat {
    match f
    case TimeLo => 8 case TimeHi => 12 case Parent => 20 case NrSubkeys => 24 case SubkeyLf => 32 case LfVolatile => 36
    case NrValues => 40 case Vallist => 44 case SkOffs => 48 case Classname => 52
    case MaxVkName => 64 case MaxVkData => 68
  }

  function Get(r: Rec, f: NkField): u32
    requires r.Nk?
  {
    match f
    case TimeLo => r.timeLo case TimeHi => r.timeHi case Parent => r.parent case NrSubkeys => r.nrSubkeys
    case SubkeyLf => r.subkeyLf case LfVolatile => r.lfVolatile case NrValues => r.nrValues case Vallist => r.vallist case SkOffs => r.sk
    case Classname => r.classname case MaxVkName => r.maxVkName case MaxVkData => r.maxVkData
  }

  function Upd(r: Rec, f: NkField, v: u32): (q: Rec)
    requires r.Nk?
    ensures q.Nk?
  {
    match f
    case TimeLo => r.(timeLo := v) case TimeHi => r.(timeHi := v) case Parent => r.(parent := v)
    case NrSubkeys => r.(nrSubkeys := v) case SubkeyLf => r.(subkeyLf := v)
    case LfVolatile => r.(lfVolatile := v) case NrValues => r.(nrValues := v)
    case Vallist => r.(vallist := v) case SkOffs => r.(sk := v) case Classname => r.(classname := v)
    case MaxVkName => r.(maxVkName := v) case MaxVkData => r.(maxVkData := v)
  }

  /** Every field is inside the record and reads as the record says. */
  lemma NkReads(a: seq<byte>, o: nat, n: nat, r: Rec, f: NkField)
    requires o + n <= |a| && r.Nk? && Holds(a, o, n, r)
    ensures At(f) + 4 <= n && U32(a, o + At(f)) == Get(r, f)
  {
    hide U32, U16;
  }

  lemma NkPut(a: seq<byte>, o: nat, n: nat, r: Rec, f: NkField, v: u32)
    requires o + n <= |a| && r.Nk? && NkAt(a, o, n, r)
    ensures NkAt(Put32(a, o + At(f), v), o, n, Upd(r, f, v))
  {
    hide U32, U16, Le32, Le16;
  }

  lemma NkPutMaxSubkey(a: seq<byte>, o: nat, n: nat, r: Rec, v: u16)
    requires o + n <= |a| && r.Nk? && NkAt(a, o, n, r)
    ensures NkAt(Put16(a, o + 56, v), o, n, r.(maxSubkey := v))
  {
    hide U32, U16, Le32, Le16;
  }

  lemma LfPutKey(a: seq<byte>, o: nat, n: nat, r: Rec, i: nat, k: Key)
    requires o + n <= |a| && r.Lf? && LfAt(a, o, n, r) && i < |r.keys|
    ensures LfAt(Put32(Put32(a, o + 8 + 8 * i, k.off), o + 12 + 8 * i, k.hash), o, n, r.(keys := r.keys[i := k]))
  {
    hide U32, U16, Le32, Le16;
  }

  lemma LfPutCount(a: seq<byte>, o: nat, n: nat, r: Rec, c: nat)
    requires o + n <= |a| && r.Lf? && LfAt(a, o, n, r) && c <= |r.keys|
    ensures LfAt(Put16(a, o + 6, c), o, n, r.(keys := r.keys[..c]))
  {
    hide U32, U16, Le32, Le16;
  }

  lemma RiPut(a: seq<byte>, o: nat, n: nat, r: Rec, i: nat, v: u32)
    requires o + n <= |a| && r.Ri? && RiAt(a, o, n, r) && i < |r.offs|
    ensures RiAt(Put32(a, o + 8 + 4 * i, v), o, n, r.(offs := r.offs[i := v]))
  {
    hide U32, U16, Le32, Le16;
  }

  lemma ValListPut(a: seq<byte>, o: nat, n: nat, r: Rec, i: nat, v: u32)
    requires o + n <= |a| && r.ValList? && ValListAt(a, o, n, r) && i < |r.vks|
    ensures ValListAt(Put32(a, o + 4 + 4 * i, v), o, n, r.(vks := r.vks[i := v]))
  {
    hide U32, U16, Le32, Le16;
  }

  lemma SkPut(a: seq<byte>, o: nat, n: nat, r: Rec, v: u32)
    requires o + n <= |a| && r.Sk? && SkAt(a, o, n, r)
    ensures SkAt(Put32(a, o + 8, v), o, n, r.(next := v))
    ensures SkAt(Put32(a, o + 12, v), o, n, r.(prev := v))
    ensures SkAt(Put32(a, o + 16, v), o, n, r.(refcount := v))
  {
    hide U32, U16, Le32, Le16;
  }

  lemma VkPut(a: seq<byte>, o: nat, n: nat, r: Rec, v: u32)
    requires o + n <= |a| && r.Vk? && VkAt(a, o, n, r)
    ensures VkAt(Put32(a, o + 12, v), o, n, r.(data := v))
  {
    hide U32, U16, Le32, Le16;
  }

  lemma NkPutFlags(a: seq<byte>, o: nat, n: nat, r: Rec, v: u16)
    requires o + n <= |a| && r.Nk? && NkAt(a, o, n, r)
    ensures NkAt(Put16(a, o + 6, v), o, n, r.(flags := v))
  {
    hide U32, U16, Le32, Le16;
  }

  lemma NkPutName(a: seq<byte>, o: nat, n: nat, r: Rec, name: seq<byte>)
    requires o + n <= |a| && r.Nk? && NkAt(a, o, n, r) && 81 + |name| <= n && |name| < 0x1_0000
    ensures NkAt(Put(Put16(a, o + 76, |name|), o + 80, name + [0]), o, n, r.(name := name))
  {
    hide U32, U16, Le32, Le16;
  }

  lemma VkPutHead(a: seq<byte>, o: nat, n: nat, r: Rec, key: seq<byte>, typ: u32, len: u32, flags: u16)
    requires o + n <= |a| && r.Vk? && VkAt(a, o, n, r) && 25 + |key| <= n && |key| < 0x1_0000
    ensures var b := Put(Put16(a, o + 6, |key|), o + 24, key + [0]);
            VkAt(Put16(Put32(Put32(b, o + 16, typ), o + 8, len), o + 20, flags), o, n,
                 r.(key := key, typ := typ, dataLen := len, vkFlags := flags))
  {
    hide U32, U16, Le32, Le16;
  }

  // ---------- what a freshly zeroed block holds

  /** After seg_len the block is the two id bytes and zeros. */
  ghost predicate Cleared(a: seq<byte>, o: nat, n: nat, id0: byte, id1: byte)
    requires o + n <= |a| && 8 <= n
  {
    a[o + 4] == id0 && a[o + 5] == id1 && forall i :: o + 6 <= i < o + n ==> a[i] == 0
  }

  const ZERO_NK := Nk(0, 0, 0, 0, 0, 0, 0, 0, 0, 0, 0, 0, 0, 0, [])
  const ZERO_VK := Vk([], 0, 0, 0, 0)

  lemma ClearedNk(a: seq<byte>, o: nat, n: nat)
    requires o + n <= |a| && 81 <= n && Cleared(a, o, n, 'n' as int, 'k' as int)
    ensures NkAt(a, o, n, ZERO_NK)
  {
  }

  lemma ClearedVk(a: seq<byte>, o: nat, n: nat)
    requires o + n <= |a| && 25 <= n && Cleared(a, o, n, 'v' as int, 'k' as int)
    ensures VkAt(a, o, n, ZERO_VK)
  {
  }

  function NoKeys(n: nat): seq<Key> { seq(n, _ => Key(0, 0)) }
  function NoOffs(n: nat): seq<u32> { seq(n, _ => 0) }

  lemma ClearedLf(a: seq<byte>, o: nat, n: nat, lh: bool, c: nat)
    requires o + n <= |a| && 8 + 8 * c <= n && 8 <= n && c < 0x1_0000
    requires Cleared(a, o, n, 'l' as int, if lh then 'h' as int else 'f' as int)
    ensures LfAt(Put16(a, o + 6, c), o, n, Lf(lh, NoKeys(c)))
  {
    hide Le16;
    forall i | 0 <= i < c
      ensures U32(a, o + 8 + 8 * i) == 0 && U32(a, o + 12 + 8 * i) == 0
    {
    }
  }

  lemma ClearedValList(a: seq<byte>, o: nat, n: nat, c: nat)
    requires o + n <= |a| && 4 + 4 * c <= n && 8 <= n && Cleared(a, o, n, 0, 0)
    ensures ValListAt(a, o, n, ValList(NoOffs(c)))
  {
  }
}
