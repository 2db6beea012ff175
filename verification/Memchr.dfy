/** memchr: a word at a time, and why that finds the same byte as looking at each one. */
module Memchr {

  datatype Option<T> = None | Some(value: T)

  const WORD := 8      // sizeof (longword)

  /** Eight bytes as one word, least significant first. */
  function Join(b0: bv8, b1: bv8, b2: bv8, b3: bv8, b4: bv8, b5: bv8, b6: bv8, b7: bv8): bv64 {
    (b0 as bv64) | ((b1 as bv64) << 8) | ((b2 as bv64) << 16) | ((b3 as bv64) << 24)
    | ((b4 as bv64) << 32) | ((b5 as bv64) << 40) | ((b6 as bv64) << 48) | ((b7 as bv64) << 56)
  }

  /** The word at p. */
  function Word(s: seq<bv8>, p: nat): bv64
    requires p + WORD <= |s|
  {
    Join(s[p], s[p + 1], s[p + 2], s[p + 3], s[p + 4], s[p + 5], s[p + 6], s[p + 7])
  }

  /** repeated_one and repeated_c, doubled up from a byte. */
  function Repeated(c: bv8): bv64 {
    var c2: bv64 := (c as bv64) | ((c as bv64) << 8);
    var c4: bv64 := c2 | (c2 << 16);
    c4 | ((c4 << 31) << 1)
  }

  /** The subtract and mask test. */
  predicate SomeZero(x: bv64) {
    (((x - Repeated(1)) & !x) & (Repeated(1) << 7)) != 0
  }

  /** A word after xor with the repeated c. */
  function Mixed(w: bv64, c: bv8): bv64 { w ^ Repeated(c) }

  /** The byte under a mask is zero. */
  predicate Zero(x: bv64, mask: bv64) { x & mask == 0 }

  /** The test is nonzero exactly when some byte is zero, whatever borrows run through the word. */
  lemma ZeroTest(x: bv64)
    ensures SomeZero(x) <==>
            Zero(x, 0xff) || Zero(x, 0xff00) || Zero(x, 0xff_0000) || Zero(x, 0xff00_0000) || Zero(x, 0xff_0000_0000)
            || Zero(x, 0xff00_0000_0000) || Zero(x, 0xff_0000_0000_0000) || Zero(x, 0xff00_0000_0000_0000)
  {
  }

  // Byte k of the mixed word is zero exactly when byte k is c.

  lemma Byte0(b0: bv8, b1: bv8, b2: bv8, b3: bv8, b4: bv8, b5: bv8, b6: bv8, b7: bv8, c: bv8)
    ensures Zero(Mixed(Join(b0, b1, b2, b3, b4, b5, b6, b7), c), 0xff) <==> b0 == c
  {
  }

  lemma Byte1(b0: bv8, b1: bv8, b2: bv8, b3: bv8, b4: bv8, b5: bv8, b6: bv8, b7: bv8, c: bv8)
    ensures Zero(Mixed(Join(b0, b1, b2, b3, b4, b5, b6, b7), c), 0xff00) <==> b1 == c
  {
  }

  lemma Byte2(b0: bv8, b1: bv8, b2: bv8, b3: bv8, b4: bv8, b5: bv8, b6: bv8, b7: bv8, c: bv8)
    ensures Zero(Mixed(Join(b0, b1, b2, b3, b4, b5, b6, b7), c), 0xff_0000) <==> b2 == c
  {
  }

  lemma Byte3(b0: bv8, b1: bv8, b2: bv8, b3: bv8, b4: bv8, b5: bv8, b6: bv8, b7: bv8, c: bv8)
    ensures Zero(Mixed(Join(b0, b1, b2, b3, b4, b5, b6, b7), c), 0xff00_0000) <==> b3 == c
  {
  }

  lemma Byte4(b0: bv8, b1: bv8, b2: bv8, b3: bv8, b4: bv8, b5: bv8, b6: bv8, b7: bv8, c: bv8)
    ensures Zero(Mixed(Join(b0, b1, b2, b3, b4, b5, b6, b7), c), 0xff_0000_0000) <==> b4 == c
  {
  }

  lemma Byte5(b0: bv8, b1: bv8, b2: bv8, b3: bv8, b4: bv8, b5: bv8, b6: bv8, b7: bv8, c: bv8)
    ensures Zero(Mixed(Join(b0, b1, b2, b3, b4, b5, b6, b7), c), 0xff00_0000_0000) <==> b5 == c
  {
  }

  lemma Byte6(b0: bv8, b1: bv8, b2: bv8, b3: bv8, b4: bv8, b5: bv8, b6: bv8, b7: bv8, c: bv8)
    ensures Zero(Mixed(Join(b0, b1, b2, b3, b4, b5, b6, b7), c), 0xff_0000_0000_0000) <==> b6 == c
  {
  }

  lemma Byte7(b0: bv8, b1: bv8, b2: bv8, b3: bv8, b4: bv8, b5: bv8, b6: bv8, b7: bv8, c: bv8)
    ensures Zero(Mixed(Join(b0, b1, b2, b3, b4, b5, b6, b7), c), 0xff00_0000_0000_0000) <==> b7 == c
  {
  }

  lemma JoinTest(b0: bv8, b1: bv8, b2: bv8, b3: bv8, b4: bv8, b5: bv8, b6: bv8, b7: bv8, c: bv8)
    ensures SomeZero(Mixed(Join(b0, b1, b2, b3, b4, b5, b6, b7), c)) <==>
            b0 == c || b1 == c || b2 == c || b3 == c || b4 == c || b5 == c || b6 == c || b7 == c
  {
    hide SomeZero, Join, Mixed, Zero;
    ZeroTest(Mixed(Join(b0, b1, b2, b3, b4, b5, b6, b7), c));
    Byte0(b0, b1, b2, b3, b4, b5, b6, b7, c);
    Byte1(b0, b1, b2, b3, b4, b5, b6, b7, c);
    Byte2(b0, b1, b2, b3, b4, b5, b6, b7, c);
    Byte3(b0, b1, b2, b3, b4, b5, b6, b7, c);
    Byte4(b0, b1, b2, b3, b4, b5, b6, b7, c);
    Byte5(b0, b1, b2, b3, b4, b5, b6, b7, c);
    Byte6(b0, b1, b2, b3, b4, b5, b6, b7, c);
    Byte7(b0, b1, b2, b3, b4, b5, b6, b7, c);
  }

  /** The word test hits exactly when one of the eight bytes is c. */
  lemma WordTest(s: seq<bv8>, p: nat, c: bv8)
    requires p + WORD <= |s|
    ensures SomeZero(Mixed(Word(s, p), c)) <==> exists k :: p <= k < p + WORD && s[k] == c
  {
    hide SomeZero, Mixed, Join;
    JoinTest(s[p], s[p + 1], s[p + 2], s[p + 3], s[p + 4], s[p + 5], s[p + 6], s[p + 7], c);
  }

  /** The least of the first n positions that hold c, by looking at each byte. */
  function FirstByte(s: seq<bv8>, c: bv8, n: nat, p: nat): Option<nat>
    requires p <= n <= |s|
    decreases n - p
  {
    if p == n then None else if s[p] == c then Some(p) else FirstByte(s, c, n, p + 1)
  }

  lemma {:induction false} FirstByteIs(s: seq<bv8>, c: bv8, n: nat, p: nat, k: nat)
    requires p <= k <= n <= |s| && (forall i :: p <= i < k ==> s[i] != c) && (k < n ==> s[k] == c)
    ensures FirstByte(s, c, n, p) == if k == n then None else Some(k)
    decreases n - p
  {
    if p < k { FirstByteIs(s, c, n, p + 1, k); }
  }

  /** memchr on the first n bytes of s, where s starts at address addr. */
  method Find(s: seq<bv8>, addr: nat, c: bv8, n: nat) returns (r: Option<nat>)
    requires n <= |s|
    ensures r == FirstByte(s, c, n, 0)
    ensures r.None? ==> forall i :: 0 <= i < n ==> s[i] != c
    ensures r.Some? ==> r.value < n && s[r.value] == c && forall i :: 0 <= i < r.value ==> s[i] != c
  {
    hide SomeZero, Mixed, Word, FirstByte;
    var p := 0;
    while p < n && (addr + p) % WORD != 0
      invariant 0 <= p <= n && forall i :: 0 <= i < p ==> s[i] != c
    {
      if s[p] == c {
        FirstByteIs(s, c, n, 0, p);
        return Some(p);
      }
      p := p + 1;
    }
    while n - p >= WORD
      invariant 0 <= p <= n && forall i :: 0 <= i < p ==> s[i] != c
    {
      WordTest(s, p, c);
      if SomeZero(Mixed(Word(s, p), c)) {
        break;
      }
      p := p + WORD;
    }
    while p < n
      invariant 0 <= p <= n && forall i :: 0 <= i < p ==> s[i] != c
    {
      if s[p] == c {
        FirstByteIs(s, c, n, 0, p);
        return Some(p);
      }
      p := p + 1;
    }
    FirstByteIs(s, c, n, 0, n);
    return None;
  }
}
