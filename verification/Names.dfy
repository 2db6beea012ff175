/** strcasecmp on the names of keys and values, and the order it defines. */
module Names {
  import opened Bytes

  function Lower(b: byte): byte { if 'A' as int <= b <= 'Z' as int then b + 32 else b }

  /** The first character of a C string, folded; 0 at its end. */
  function Head(s: seq<byte>): byte { if s == [] then 0 else Lower(s[0]) }

  /** strcasecmp: the difference of the first folded characters that differ, or 0. */
  function CaseCmp(a: seq<byte>, b: seq<byte>): int
    decreases |a| + |b|
  {
    if Head(a) != Head(b) || Head(a) == 0 then Head(a) as int - Head(b) as int else CaseCmp(a[1..], b[1..])
  }

  /** The bytes before the first zero: what C sees of a string. */
  function CString(s: seq<byte>): (r: seq<byte>) {
    if s == [] || s[0] == 0 then [] else [s[0]] + CString(s[1..])
  }

  lemma {:induction false} CStringIs(s: seq<byte>)
    ensures CString(s) <= s && 0 !in CString(s) && (|CString(s)| < |s| ==> s[|CString(s)|] == 0) && (0 !in s ==> CString(s) == s)
  {
    if s != [] && s[0] != 0 {
      CStringIs(s[1..]);
      assert s == [s[0]] + s[1..];
    }
  }

  /** A name or key that a caller passes: a C string whose length fits in 16 bits. */
  predicate IsName(s: seq<byte>) { |s| < 0x1_0000 && 0 !in s }

  /** Comparison does not look behind a zero. */
  lemma {:induction false} CmpCString(a: seq<byte>, b: seq<byte>)
    ensures CaseCmp(CString(a), b) == CaseCmp(a, b) == CaseCmp(a, CString(b))
    decreases |a| + |b|
  {
    if Head(a) == Head(b) && Head(a) != 0 {
      CmpCString(a[1..], b[1..]);
      assert CString(a)[1..] == CString(a[1..]) && CString(b)[1..] == CString(b[1..]);
    }
  }

  lemma {:induction false} CmpSelf(a: seq<byte>)
    ensures CaseCmp(a, a) == 0
  {
    if Head(a) != 0 { CmpSelf(a[1..]); }
  }

  lemma {:induction false} CmpSym(a: seq<byte>, b: seq<byte>)
    ensures CaseCmp(b, a) == -CaseCmp(a, b)
    decreases |a|
  {
    if Head(a) == Head(b) && Head(a) != 0 { CmpSym(a[1..], b[1..]); }
  }

  /** The order is transitive, strictly so when either step is strict. */
  lemma {:induction false} CmpTrans(a: seq<byte>, b: seq<byte>, c: seq<byte>)
    requires CaseCmp(a, b) <= 0 && CaseCmp(b, c) <= 0
    ensures CaseCmp(a, c) <= 0 && (CaseCmp(a, b) < 0 || CaseCmp(b, c) < 0 ==> CaseCmp(a, c) < 0)
    decreases |b|
  {
    if Head(a) == Head(b) == Head(c) && Head(b) != 0 { CmpTrans(a[1..], b[1..], c[1..]); }
  }

  // ---------- what equal and smaller mean

  /** One character, or one ASCII letter in its two cases. */
  predicate SameLetter(x: byte, y: byte) {
    x == y || (65 <= x <= 90 && y == x + 32) || (97 <= x <= 122 && y == x - 32)
  }

  /** One name is the other, letters in any case. */
  predicate Recased(a: seq<byte>, b: seq<byte>) {
    |a| == |b| && forall i :: 0 <= i < |a| ==> SameLetter(a[i], b[i])
  }

  /** x comes before y when both are written in lower case. */
  predicate LetterBefore(x: byte, y: byte) {
    (if 65 <= x <= 90 then x + 32 else x) < (if 65 <= y <= 90 then y + 32 else y)
  }

  /** Up to k the names agree; there b goes on and a ends, or has the earlier letter. */
  ghost predicate EarlierAt(a: seq<byte>, b: seq<byte>, k: nat) {
    k < |b| && k <= |a| && (forall i :: 0 <= i < k ==> SameLetter(a[i], b[i])) && (k == |a| || LetterBefore(a[k], b[k]))
  }

  /** Dictionary order, letters in any case. */
  ghost predicate Precedes(a: seq<byte>, b: seq<byte>) {
    exists k :: EarlierAt(a, b, k)
  }

  /** strcasecmp gives 0 exactly for names that differ in case at most. */
  lemma {:induction false} CmpZero(a: seq<byte>, b: seq<byte>)
    ensures CaseCmp(a, b) == 0 <==> Recased(CString(a), CString(b))
    decreases |a| + |b|
  {
    var x, y := CString(a), CString(b);
    CStringHead(a);
    CStringHead(b);
    if Head(a) == Head(b) && Head(a) != 0 {
      CmpZero(a[1..], b[1..]);
      assert x == [a[0]] + CString(a[1..]) && y == [b[0]] + CString(b[1..]);
      RecasedCons(a[0], b[0], CString(a[1..]), CString(b[1..]));
    }
  }

  lemma CStringHead(a: seq<byte>)
    ensures CString(a) == [] <==> Head(a) == 0
    ensures CString(a) != [] ==> a != [] && CString(a)[0] == a[0] && CString(a) == [a[0]] + CString(a[1..])
  {
  }

  lemma RecasedCons(x: byte, y: byte, a: seq<byte>, b: seq<byte>)
    ensures Recased([x] + a, [y] + b) <==> SameLetter(x, y) && Recased(a, b)
  {
    var s, t := [x] + a, [y] + b;
    if Recased(s, t) {
      forall i | 0 <= i < |a|
        ensures SameLetter(a[i], b[i])
      {
        assert s[i + 1] == a[i] && t[i + 1] == b[i];
      }
      assert SameLetter(s[0], t[0]);
    }
  }

  /** strcasecmp is negative exactly when the first name precedes the second. */
  lemma {:induction false} CmpLess(a: seq<byte>, b: seq<byte>)
    ensures CaseCmp(a, b) < 0 <==> Precedes(CString(a), CString(b))
    decreases |a| + |b|
  {
    CStringHead(a);
    CStringHead(b);
    var x, y := CString(a), CString(b);
    if Head(a) == Head(b) && Head(a) != 0 {
      CmpLess(a[1..], b[1..]);
      PrecedesCons(a[0], b[0], CString(a[1..]), CString(b[1..]));
    } else {
      PrecedesNow(x, y);
    }
  }

  /** Names that differ in their first letter, or one of which is empty. */
  lemma PrecedesNow(x: seq<byte>, y: seq<byte>)
    requires x == [] || y == [] || !SameLetter(x[0], y[0])
    ensures Precedes(x, y) <==> y != [] && (x == [] || LetterBefore(x[0], y[0]))
  {
    if y != [] && (x == [] || LetterBefore(x[0], y[0])) { assert EarlierAt(x, y, 0); }
    forall k | EarlierAt(x, y, k)
      ensures k == 0
    {
    }
  }

  lemma PrecedesCons(x: byte, y: byte, a: seq<byte>, b: seq<byte>)
    requires SameLetter(x, y)
    ensures Precedes([x] + a, [y] + b) <==> Precedes(a, b)
  {
    hide EarlierAt;
    if k: nat :| EarlierAt(a, b, k) { EarlierOn(x, y, a, b, k); }
    if k: nat :| EarlierAt([x] + a, [y] + b, k) { EarlierBack(x, y, a, b, k); }
  }

  lemma EarlierBack(x: byte, y: byte, a: seq<byte>, b: seq<byte>, k: nat)
    requires SameLetter(x, y) && EarlierAt([x] + a, [y] + b, k)
    ensures k > 0 && EarlierAt(a, b, k - 1)
  {
    var s, t := [x] + a, [y] + b;
    assert k > 0;
    hide SameLetter, LetterBefore;
    assert t[k] == b[k - 1] && (k < |s| ==> s[k] == a[k - 1]);
    forall i | 0 <= i < k - 1
      ensures SameLetter(a[i], b[i])
    {
      assert s[i + 1] == a[i] && t[i + 1] == b[i];
    }
  }

  lemma EarlierOn(x: byte, y: byte, a: seq<byte>, b: seq<byte>, k: nat)
    requires SameLetter(x, y) && EarlierAt(a, b, k)
    ensures EarlierAt([x] + a, [y] + b, k + 1)
  {
    hide SameLetter, LetterBefore;
    var s, t := [x] + a, [y] + b;
    assert t[k + 1] == b[k] && (k < |a| ==> s[k + 1] == a[k]);
    forall i | 0 <= i < k + 1
      ensures SameLetter(s[i], t[i])
    {
      if i > 0 { assert s[i] == a[i - 1] && t[i] == b[i - 1]; }
    }
  }
}
