/** strtol and strtoul for 64-bit long: the exact value of the digits, or the nearest limit. */
module Strtol {

  const TWO64 := 0x1_0000_0000_0000_0000
  const ULONG_MAX := TWO64 - 1
  const LONG_MAX := 0x7fff_ffff_ffff_ffff
  const LONG_MIN := -LONG_MAX - 1

  /** A value as unsigned long. */
  function Wrap(x: int): (r: nat)
    ensures r <= ULONG_MAX
  {
    x % TWO64
  }

  predicate Space(c: char) { c == ' ' || '\t' <= c <= '\r' }

  function Upper(c: char): char { if 'a' <= c <= 'z' then (c as int - 32) as char else c }

  /** The digit a character stands for; 36, more than any base allows, when it is none. */
  function Digit(c: char): nat {
    if '0' <= c <= '9' then c as int - '0' as int
    else if 'A' <= Upper(c) <= 'Z' then Upper(c) as int - 'A' as int + 10
    else 36
  }

  // ---------- what a string says

  /** One more digit. */
  function Push(i: nat, base: nat, c: nat): nat { i * base + c }

  /** The value of the digits s[p..e). */
  function Val(s: string, p: nat, e: nat, base: nat): nat
    requires p <= e <= |s|
    decreases e
  {
    if p == e then 0 else Push(Val(s, p, e - 1, base), base, Digit(s[e - 1]))
  }

  /** Where the digits that start at p end. */
  function DigitsEnd(s: string, p: nat, base: nat): (e: nat)
    requires p <= |s|
    ensures p <= e <= |s| && (forall i :: p <= i < e ==> Digit(s[i]) < base) && (e < |s| ==> Digit(s[e]) >= base)
    decreases |s| - p
  {
    if p < |s| && Digit(s[p]) < base then DigitsEnd(s, p + 1, base) else p
  }

  function SpacesEnd(s: string, p: nat): (e: nat)
    requires p <= |s|
    ensures p <= e <= |s| && (forall i :: p <= i < e ==> Space(s[i])) && (e < |s| ==> !Space(s[e]))
    decreases |s| - p
  {
    if p < |s| && Space(s[p]) then SpacesEnd(s, p + 1) else p
  }

  /** Sign, base and first digit of the number. */
  datatype Head = Head(negative: bool, base: nat, start: nat)

  predicate HexPrefix(s: string, p: nat) { p + 1 < |s| && s[p] == '0' && Upper(s[p + 1]) == 'X' }

  function HeadOf(s: string, base: nat): (h: Head)
    ensures h.start <= |s| && h.base == if base != 0 then base else h.base
    ensures base == 0 || 2 <= base ==> 2 <= h.base
  {
    var p := SpacesEnd(s, 0);
    var signed := p < |s| && (s[p] == '-' || s[p] == '+');
    var q := if signed then p + 1 else p;
    var negative := signed && s[p] == '-';
    if (base == 0 || base == 16) && HexPrefix(s, q) then Head(negative, 16, q + 2)
    else if base == 0 && q < |s| && s[q] == '0' then Head(negative, 8, q)
    else Head(negative, if base == 0 then 10 else base, q)
  }

  datatype Errno = OK | EINVAL | ERANGE

  /** Value returned, characters converted, errno. */
  datatype Parsed = Parsed(value: int, end: nat, errno: Errno)

  /** The nearest value of the type: exact when it fits. Minus signs wrap in strtoul. */
  function Nearest(unsigned: bool, negative: bool, v: nat): (int, Errno) {
    if unsigned then
      (if v > ULONG_MAX then (ULONG_MAX, ERANGE) else (Wrap(if negative then 0 - v else v), OK))
    else
      var x := if negative then 0 - v else v;
      if x < LONG_MIN then (LONG_MIN, ERANGE) else if x > LONG_MAX then (LONG_MAX, ERANGE) else (x, OK)
  }

  /** What the conversion of s should give. */
  function Meaning(s: string, base: nat, unsigned: bool): Parsed {
    var h := HeadOf(s, base);
    var e := DigitsEnd(s, h.start, h.base);
    if e == h.start then Parsed(0, if h.start >= 2 && HexPrefix(s, h.start - 2) then h.start - 1 else 0, OK)
    else
      var (value, errno) := Nearest(unsigned, h.negative, Val(s, h.start, e, h.base));
      Parsed(value, e, errno)
  }

  // ---------- the code

  function Cutoff(base: nat): nat requires 2 <= base { ULONG_MAX / base }
  function Cutlim(base: nat): nat requires 2 <= base { ULONG_MAX % base }

  /** The cutoff test is the overflow test, without overflowing. */
  lemma CutoffExact(i: nat, c: nat, base: nat)
    requires 2 <= base && c < base
    ensures (i > Cutoff(base) || (i == Cutoff(base) && c > Cutlim(base))) <==> Push(i, base, c) > ULONG_MAX
  {
    var q, r := ULONG_MAX / base, ULONG_MAX % base;
    QuotientRemainder(ULONG_MAX, base);
    if i > q { Scaled(q + 1, i, base); } else if i < q { Scaled(i + 1, q, base); }
  }

  lemma QuotientRemainder(m: nat, base: nat)
    requires 2 <= base
    ensures m == (m / base) * base + m % base && m % base < base
    ensures (m / base + 1) * base == (m / base) * base + base
  {
  }

  lemma Scaled(a: nat, b: nat, base: nat)
    requires a <= b
    ensures a * base <= b * base && (a >= 1 ==> a * base == (a - 1) * base + base)
  {
  }

  /** One digit more: the flag is sticky because the value only grows. */
  lemma OneDigit(v: nat, i: nat, overflow: bool, c: nat, base: nat)
    requires 2 <= base && c < base && i <= ULONG_MAX && (overflow <==> v > ULONG_MAX) && (!overflow ==> i == v)
    ensures var cut := i > Cutoff(base) || (i == Cutoff(base) && c > Cutlim(base));
            (overflow || cut <==> Push(v, base, c) > ULONG_MAX) && (!cut ==> Push(i, base, c) <= ULONG_MAX)
  {
    CutoffExact(i, c, base);
    if overflow {
      Scaled(1, base, v);
      assert base * v == v * base;
    }
  }

  /** The digit loop: the exact value, or the sticky overflow flag exactly when it does not fit. */
  method Accumulate(s: string, start: nat, base: nat) returns (end: nat, i: nat, overflow: bool)
    requires start <= |s| && 2 <= base
    ensures end == DigitsEnd(s, start, base)
    ensures overflow <==> Val(s, start, end, base) > ULONG_MAX
    ensures !overflow ==> i == Val(s, start, end, base)
  {
    hide Push, Cutoff, Cutlim;
    var cutoff, cutlim := Cutoff(base), Cutlim(base);
    overflow, i, end := false, 0, start;
    while end < |s|
      invariant start <= end <= |s| && i <= ULONG_MAX && DigitsEnd(s, start, base) == DigitsEnd(s, end, base)
      invariant overflow <==> Val(s, start, end, base) > ULONG_MAX
      invariant !overflow ==> i == Val(s, start, end, base)
    {
      hide Digit, Val;
      var c := Digit(s[end]);
      if c >= base {
        break;
      }
      OneDigit(Val(s, start, end, base), i, overflow, c, base);
      ValNext(s, start, end, base);
      if i > cutoff || (i == cutoff && c > cutlim) {
        overflow := true;
      } else {
        i := Push(i, base, c);
      }
      end := end + 1;
    }
  }

  lemma ValNext(s: string, p: nat, e: nat, base: nat)
    requires p <= e < |s|
    ensures Val(s, p, e + 1, base) == Push(Val(s, p, e, base), base, Digit(s[e]))
  {
    hide Digit, Push;
  }

  /** strtol (unsigned = false) and strtoul (unsigned = true). */
  method Convert(nptr: string, base: int, unsigned: bool) returns (r: Parsed)
    ensures base < 0 || base == 1 || base > 36 ==> r == Parsed(0, 0, EINVAL)
    ensures base == 0 || 2 <= base <= 36 ==> r == Meaning(nptr, base, unsigned)
  {
    hide Val, DigitsEnd, Digit, HeadOf, Nearest, Upper;
    if base < 0 || base == 1 || base > 36 {
      return Parsed(0, 0, EINVAL);
    }
    var s, negative, b := ReadHead(nptr, base);
    var end, i, overflow := Accumulate(nptr, s, b);
    if end == s {
      return Parsed(0, if s >= 2 && Upper(nptr[s - 1]) == 'X' && nptr[s - 2] == '0' then s - 1 else 0, OK);
    }
    r := Limit(i, overflow, negative, unsigned, end, Val(nptr, s, end, b));
  }

  /** White space, sign and prefix. */
  method ReadHead(nptr: string, base: nat) returns (s: nat, negative: bool, b: nat)
    requires base == 0 || 2 <= base
    ensures Head(negative, b, s) == HeadOf(nptr, base)
  {
    hide SpacesEnd, Upper;
    s := SkipSpaces(nptr);
    negative, b := false, base;
    if s < |nptr| && nptr[s] == '-' {
      negative := true;
      s := s + 1;
    } else if s < |nptr| && nptr[s] == '+' {
      s := s + 1;
    }
    if s < |nptr| && nptr[s] == '0' {
      if (b == 0 || b == 16) && s + 1 < |nptr| && Upper(nptr[s + 1]) == 'X' {
        s := s + 2;
        b := 16;
      } else if b == 0 {
        b := 8;
      }
    } else if b == 0 {
      b := 10;
    }
  }

  method SkipSpaces(s: string) returns (p: nat)
    ensures p == SpacesEnd(s, 0)
  {
    p := 0;
    while p < |s| && Space(s[p])
      invariant p <= |s| && SpacesEnd(s, 0) == SpacesEnd(s, p)
    {
      p := p + 1;
    }
  }

  /** The range check of the signed form, in unsigned arithmetic, and the result with its sign. */
  method Limit(i: nat, over: bool, negative: bool, unsigned: bool, end: nat, ghost v: nat) returns (r: Parsed)
    requires (over <==> v > ULONG_MAX) && (!over ==> i == v)
    ensures (r.value, r.errno) == Nearest(unsigned, negative, v) && r.end == end
  {
    var overflow := over;
    if !unsigned && !overflow && i > (if negative then Wrap(Wrap(0 - Wrap(LONG_MIN + 1)) + 1) else LONG_MAX) {
      overflow := true;
    }
    if overflow {
      return Parsed(if unsigned then ULONG_MAX else if negative then LONG_MIN else LONG_MAX, end, ERANGE);
    }
    if unsigned {
      return Parsed(if negative then Wrap(0 - i) else i, end, OK);
    }
    return Parsed(if negative then 0 - i else i, end, OK);
  }

  // ---------- a number written out is read back

  function DigitChar(d: nat): (c: char)
    requires d < 36
    ensures Digit(c) == d && !Space(c) && c != '-' && c != '+' && (Upper(c) == 'X' ==> d == 33)
  {
    if d < 10 then (d + '0' as int) as char else (d - 10 + 'a' as int) as char
  }

  /** v in the given base, without sign. */
  function Numeral(v: nat, base: nat): (s: string)
    requires 2 <= base <= 36
    ensures |s| >= 1
  {
    if v < base then [DigitChar(v)] else
      Smaller(v, base);
      Numeral(v / base, base) + [DigitChar(v % base)]
  }

  lemma Smaller(v: nat, base: nat)
    requires 2 <= base <= v
    ensures v / base < v && Push(v / base, base, v % base) == v
  {
    QuotientRemainder(v, base);
    Scaled(2, base, v);
    assert base * v == v * base;
    if v / base >= v { Scaled(v, v / base, base); }
  }

  function Text(v: int, base: nat): string
    requires 2 <= base <= 36
  {
    if v < 0 then "-" + Numeral(0 - v, base) else Numeral(v, base)
  }

  lemma {:induction false} ValSame(s: string, t: string, p: nat, e: nat, base: nat)
    requires p <= e <= |s| && e <= |t| && s[..e] == t[..e]
    ensures Val(s, p, e, base) == Val(t, p, e, base)
    decreases e
  {
    hide Digit, Push;
    if p < e {
      assert s[..e][..e - 1] == s[..e - 1] && t[..e][..e - 1] == t[..e - 1] && s[..e][e - 1] == t[..e][e - 1];
      ValSame(s, t, p, e - 1, base);
    }
  }

  lemma {:induction false} NumeralValue(pre: string, v: nat, base: nat)
    requires 2 <= base <= 36
    ensures var s := pre + Numeral(v, base); Val(s, |pre|, |s|, base) == v
    decreases v
  {
    hide Digit, Push, DigitChar;
    if v < base {
      var s := pre + [DigitChar(v)];
      assert Val(s, |pre|, |s|, base) == Push(Val(s, |pre|, |pre|, base), base, Digit(s[|pre|]));
      FirstDigit(v, base);
    } else {
      Smaller(v, base);
      NumeralValue(pre, v / base, base);
      var t := pre + Numeral(v / base, base);
      var s := t + [DigitChar(v % base)];
      assert pre + Numeral(v, base) == s;
      assert s[..|t|] == t == t[..|t|];
      ValSame(s, t, |pre|, |t|, base);
      ValNext(s, |pre|, |t|, base);
    }
  }

  lemma FirstDigit(v: nat, base: nat)
    ensures Push(0, base, v) == v
  {
  }

  lemma {:induction false} NumeralDigits(v: nat, base: nat, i: nat)
    requires 2 <= base <= 36 && i < |Numeral(v, base)|
    ensures var c := Numeral(v, base)[i]; Digit(c) < base && !Space(c) && c != '-' && c != '+' && (Upper(c) == 'X' ==> 33 < base)
    decreases v
  {
    hide Digit, Space, Upper, Push;
    if v >= base {
      Smaller(v, base);
      if i < |Numeral(v / base, base)| { NumeralDigits(v / base, base, i); }
    }
  }

  /** The number at start, in a string that begins with at most a minus sign. */
  lemma HeadOfNumeral(v: nat, base: nat, negative: bool)
    requires 2 <= base <= 36
    ensures var s := (if negative then "-" else "") + Numeral(v, base);
            HeadOf(s, base) == Head(negative, base, if negative then 1 else 0)
  {
    var n := Numeral(v, base);
    var s := (if negative then "-" else "") + n;
    var q := if negative then 1 else 0;
    NumeralDigits(v, base, 0);
    assert s[q] == n[0];
    if |n| > 1 { NumeralDigits(v, base, 1); assert s[q + 1] == n[1]; }
    hide Numeral, Digit;
    assert SpacesEnd(s, 0) == 0;
  }

  lemma DigitsToEnd(pre: string, v: nat, base: nat)
    requires 2 <= base <= 36
    ensures var s := pre + Numeral(v, base); DigitsEnd(s, |pre|, base) == |s|
  {
    hide Digit, Numeral, DigitsEnd;
    var s := pre + Numeral(v, base);
    var e := DigitsEnd(s, |pre|, base);
    if e < |s| {
      NumeralDigits(v, base, e - |pre|);
    }
  }

  /** Every long, written in any base, is read back as itself and to the end. */
  lemma ReadsBack(v: int, base: nat)
    requires 2 <= base <= 36 && LONG_MIN <= v <= LONG_MAX
    ensures Meaning(Text(v, base), base, false) == Parsed(v, |Text(v, base)|, OK)
  {
    hide Digit, Numeral, DigitsEnd, Val, HeadOf, Push;
    var m: nat := if v < 0 then 0 - v else v;
    var pre := if v < 0 then "-" else "";
    var s := pre + Numeral(m, base);
    assert Text(v, base) == s;
    HeadOfNumeral(m, base, v < 0);
    DigitsToEnd(pre, m, base);
    NumeralValue(pre, m, base);
  }

  // ---------- numbers written out, in every form

  /** c writes the digit d, a letter in either case. */
  predicate WritesDigit(c: char, d: nat) {
    if d < 10 then c as int == 48 + d else d < 36 && (c as int == 55 + d || c as int == 87 + d)
  }

  predicate WhiteSpace(ws: string) {
    forall i :: 0 <= i < |ws| ==> ws[i] as int == 32 || 9 <= ws[i] as int <= 13
  }

  /** The number with these digits. */
  function Number(ds: seq<nat>, base: nat): nat {
    if ds == [] then 0 else Number(ds[..|ds| - 1], base) * base + ds[|ds| - 1]
  }

  predicate Spells(digits: string, ds: seq<nat>, base: nat) {
    |digits| == |ds| > 0 && forall i :: 0 <= i < |ds| ==> ds[i] < base && WritesDigit(digits[i], ds[i])
  }

  /** tail does not go on with a digit of this base. */
  predicate StopsAt(tail: string, base: nat) {
    tail == [] || forall d :: 0 <= d < base ==> !WritesDigit(tail[0], d)
  }

  predicate IsX(c: char) { c as int == 88 || c as int == 120 }

  /** 0x or 0X. */
  predicate HexMark(p: string) { |p| == 2 && p[0] as int == 48 && IsX(p[1]) }

  /** digits and tail together look like a hex mark. */
  predicate LooksHex(digits: string, tail: string) { digits == "0" && tail != [] && IsX(tail[0]) }

  /** How a base argument, a prefix and the digits go together: an explicit base; a hex mark; for base 0 a leading zero
      for octal, and else decimal. */
  predicate Form(prefix: string, digits: string, tail: string, arg: nat, base: nat) {
    if prefix != [] then HexMark(prefix) && (arg == 0 || arg == 16) && base == 16
    else if digits == [] then false
    else if arg == 0 then !LooksHex(digits, tail) && base == (if digits[0] as int == 48 then 8 else 10)
    else 2 <= arg <= 36 && base == arg && (arg == 16 ==> !LooksHex(digits, tail))
  }

  /** What must come out: the number, or the limit it passes. */
  function Outcome(unsigned: bool, minus: bool, v: nat): (int, Errno) {
    if unsigned then
      (if v > 18446744073709551615 then (18446744073709551615, ERANGE)
       else if minus && v > 0 then (18446744073709551616 - v, OK) else (v as int, OK))
    else if minus then
      (if v > 9223372036854775808 then (-9223372036854775808, ERANGE) else (0 - v, OK))
    else
      (if v > 9223372036854775807 then (9223372036854775807, ERANGE) else (v as int, OK))
  }

  lemma OutcomeIs(unsigned: bool, minus: bool, v: nat)
    ensures Nearest(unsigned, minus, v) == Outcome(unsigned, minus, v)
  {
  }

  lemma DigitIs(c: char, d: nat)
    requires WritesDigit(c, d)
    ensures Digit(c) == d && d < 36 && !Space(c) && c != '-' && c != '+' && (IsX(c) ==> d == 33)
  {
  }

  lemma DigitWritten(c: char)
    ensures Digit(c) < 36 ==> WritesDigit(c, Digit(c))
    ensures (Upper(c) == 'X' <==> IsX(c)) && (Space(c) <==> c as int == 32 || 9 <= c as int <= 13)
  {
  }

  /** White space, an optional sign, and what follows. */
  predicate Sign(sign: string) { sign == "" || sign == "+" || sign == "-" }

  lemma SpacesAre(ws: string, rest: string)
    requires WhiteSpace(ws) && (rest != [] ==> !Space(rest[0]))
    ensures SpacesEnd(ws + rest, 0) == |ws|
  {
    hide SpacesEnd;
    var s := ws + rest;
    assert forall i :: 0 <= i < |ws| ==> s[i] == ws[i];
    if |ws| < |s| { assert s[|ws|] == rest[0]; }
  }

  lemma DigitsAre(before: string, digits: string, tail: string, ds: seq<nat>, base: nat)
    requires Spells(digits, ds, base) && StopsAt(tail, base) && base <= 36
    ensures DigitsEnd(before + digits + tail, |before|, base) == |before| + |digits|
  {
    hide DigitsEnd, Digit, WritesDigit;
    var s, end := before + digits + tail, |before| + |digits|;
    forall i | |before| <= i < end
      ensures Digit(s[i]) < base
    {
      assert s[i] == digits[i - |before|];
      DigitIs(s[i], ds[i - |before|]);
    }
    if end < |s| {
      assert s[end] == tail[0];
      DigitWritten(s[end]);
    }
    EndIs(s, |before|, end, base);
  }

  lemma {:induction false} EndIs(s: string, p: nat, e: nat, base: nat)
    requires p <= e <= |s| && (forall i :: p <= i < e ==> Digit(s[i]) < base) && (e < |s| ==> Digit(s[e]) >= base)
    ensures DigitsEnd(s, p, base) == e
    decreases e - p
  {
    hide Digit;
    if p < e { EndIs(s, p + 1, e, base); }
  }

  lemma {:induction false} NumberIs(s: string, p: nat, ds: seq<nat>, base: nat)
    requires p + |ds| <= |s| && forall i :: 0 <= i < |ds| ==> WritesDigit(s[p + i], ds[i])
    ensures Val(s, p, p + |ds|, base) == Number(ds, base)
    decreases |ds|
  {
    hide Digit, Push;
    if ds != [] {
      var k := |ds| - 1;
      NumberIs(s, p, ds[..k], base);
      DigitIs(s[p + k], ds[k]);
      PushIs(Number(ds[..k], base), base, ds[k]);
    }
  }

  lemma PushIs(v: nat, base: nat, d: nat)
    ensures Push(v, base, d) == v * base + d
  {
  }

  /** Sign, base and start found in a text of this form. */
  lemma HeadIs(ws: string, sign: string, prefix: string, digits: string, tail: string, ds: seq<nat>, arg: nat, base: nat)
    requires WhiteSpace(ws) && Sign(sign) && Spells(digits, ds, base) && Form(prefix, digits, tail, arg, base)
    ensures HeadOf(ws + sign + prefix + digits + tail, arg) == Head(sign == "-", base, |ws| + |sign| + |prefix|)
  {
    hide SpacesEnd, Upper, Digit;
    var s, body := ws + sign + prefix + digits + tail, prefix + digits + tail;
    assert s == ws + (sign + body) && s == (ws + sign) + body;
    FirstChar(prefix, digits, tail, ds, arg, base);
    assert sign + body != [] && (sign + body)[0] == if sign == "" then body[0] else sign[0];
    SpacesAre(ws, sign + body);
    var p, q := |ws|, |ws| + |sign|;
    assert s[p] == (sign + body)[0] && s[q] == body[0] && (|body| > 1 ==> s[q + 1] == body[1]);
    assert HexPrefix(s, q) <==> HexPrefix(body, 0);
    BodyHex(prefix, digits, tail, ds, arg, base);
  }

  lemma FirstChar(prefix: string, digits: string, tail: string, ds: seq<nat>, arg: nat, base: nat)
    requires Spells(digits, ds, base) && Form(prefix, digits, tail, arg, base)
    ensures var c := (prefix + digits + tail)[0];
            !Space(c) && c != '-' && c != '+' && (prefix == "" ==> c == digits[0]) && (prefix != "" ==> c == '0')
  {
    var body := prefix + digits + tail;
    if prefix == "" {
      assert body[0] == digits[0];
      DigitIs(digits[0], ds[0]);
    } else {
      assert body[0] == prefix[0];
    }
  }

  lemma BodyHex(prefix: string, digits: string, tail: string, ds: seq<nat>, arg: nat, base: nat)
    requires Spells(digits, ds, base) && Form(prefix, digits, tail, arg, base)
    ensures (arg == 0 || arg == 16) ==> (HexPrefix(prefix + digits + tail, 0) <==> prefix != "")
  {
    hide Digit;
    var body := prefix + digits + tail;
    if prefix != "" {
      assert body[0] == prefix[0] && body[1] == prefix[1];
      DigitWritten(body[1]);
    } else if |digits| > 1 {
      assert body[1] == digits[1];
      DigitIs(digits[1], ds[1]);
      DigitWritten(body[1]);
    } else {
      assert body[0] == digits[0];
      if tail != [] { assert body[1] == tail[0]; DigitWritten(tail[0]); assert digits == [digits[0]]; }
    }
  }

  /** strtol and strtoul on white space, sign, prefix, digits and whatever follows: the number they write or the limit it
      passes, and the end of the digits. */
  lemma ReadsNumber(ws: string, sign: string, prefix: string, digits: string, tail: string, ds: seq<nat>, arg: nat, base: nat,
                    unsigned: bool)
    requires WhiteSpace(ws) && Sign(sign) && Spells(digits, ds, base) && StopsAt(tail, base)
    requires Form(prefix, digits, tail, arg, base)
    ensures var out := Outcome(unsigned, sign == "-", Number(ds, base));
            Meaning(ws + sign + prefix + digits + tail, arg, unsigned)
            == Parsed(out.0, |ws| + |sign| + |prefix| + |digits|, out.1)
  {
    hide HeadOf, DigitsEnd, Val, Nearest, Outcome, Number, Digit;
    var before := ws + sign + prefix;
    var s := before + digits + tail;
    HeadIs(ws, sign, prefix, digits, tail, ds, arg, base);
    DigitsAre(before, digits, tail, ds, base);
    forall i | 0 <= i < |ds|
      ensures WritesDigit(s[|before| + i], ds[i])
    {
      assert s[|before| + i] == digits[i];
    }
    NumberIs(s, |before|, ds, base);
    OutcomeIs(unsigned, sign == "-", Number(ds, base));
  }

  /** Without digits nothing is converted. */
  lemma ReadsNothing(ws: string, sign: string, tail: string, arg: nat, unsigned: bool)
    requires WhiteSpace(ws) && Sign(sign) && (2 <= arg <= 36 || arg == 0)
    requires tail != [] && sign == "" ==> !Space(tail[0]) && tail[0] != '-' && tail[0] != '+'
    requires StopsAt(tail, if arg == 0 then 10 else arg)
    ensures Meaning(ws + sign + tail, arg, unsigned) == Parsed(0, 0, OK)
  {
    hide HeadOf, DigitsEnd, Digit, Upper, StopsAt, WritesDigit, Space, HexPrefix, WhiteSpace, Meaning, Sign;
    var s, q, base := ws + sign + tail, |ws| + |sign|, if arg == 0 then 10 else arg;
    HeadNothing(ws, sign, tail, arg);
    if tail != [] {
      assert s[q] == tail[0];
      TailStops(tail, base);
    }
    EndIs(s, q, q, base);
    LastBefore(ws, sign, tail);
    NothingBefore(s, q);
    assert HeadOf(s, arg).start == q && HeadOf(s, arg).base == base;
    MeaningNone(s, arg, unsigned);
  }

  lemma MeaningNone(s: string, arg: nat, unsigned: bool)
    requires arg == 0 || 2 <= arg
    requires var h := HeadOf(s, arg); DigitsEnd(s, h.start, h.base) == h.start && (h.start >= 2 ==> !HexPrefix(s, h.start - 2))
    ensures Meaning(s, arg, unsigned) == Parsed(0, 0, OK)
  {
    hide HeadOf, DigitsEnd, HexPrefix, Val, Nearest;
  }

  lemma TailStops(tail: string, base: nat)
    requires StopsAt(tail, base) && tail != [] && base <= 36
    ensures Digit(tail[0]) >= base
  {
    hide Digit, WritesDigit;
    DigitWritten(tail[0]);
  }

  lemma LastBefore(ws: string, sign: string, tail: string)
    requires WhiteSpace(ws) && Sign(sign)
    ensures var s, q := ws + sign + tail, |ws| + |sign|; q >= 1 ==> Space(s[q - 1]) || s[q - 1] == '-' || s[q - 1] == '+'
  {
    var s, q := ws + sign + tail, |ws| + |sign|;
    if sign != "" { assert s[q - 1] == sign[0]; } else if ws != "" { assert s[q - 1] == ws[|ws| - 1]; }
  }

  lemma HeadNothing(ws: string, sign: string, tail: string, arg: nat)
    requires WhiteSpace(ws) && Sign(sign) && (2 <= arg <= 36 || arg == 0)
    requires tail != [] && sign == "" ==> !Space(tail[0]) && tail[0] != '-' && tail[0] != '+'
    requires StopsAt(tail, if arg == 0 then 10 else arg)
    ensures HeadOf(ws + sign + tail, arg) == Head(sign == "-", if arg == 0 then 10 else arg, |ws| + |sign|)
  {
    hide SpacesEnd, Digit, Upper, Space;
    var s, rest, q := ws + sign + tail, sign + tail, |ws| + |sign|;
    assert s == ws + rest;
    if sign != "" { assert rest[0] == sign[0] && s[|ws|] == sign[0]; SignPlain(sign); } else { assert rest == tail; }
    SpacesAre(ws, rest);
    if tail != [] {
      assert s[q] == tail[0];
      ZeroWritten(tail[0]);
    }
  }

  lemma SignPlain(sign: string)
    requires Sign(sign) && sign != ""
    ensures !Space(sign[0])
  {
  }

  lemma ZeroWritten(c: char)
    ensures WritesDigit(c, 0) <==> c == '0'
  {
  }

  /** White space or a sign before q is no hex mark. */
  lemma NothingBefore(s: string, q: nat)
    requires q <= |s| && (q >= 1 ==> Space(s[q - 1]) || s[q - 1] == '-' || s[q - 1] == '+')
    ensures q >= 2 ==> !HexPrefix(s, q - 2)
  {
    if q >= 1 { DigitWritten(s[q - 1]); }
  }

  /** A hex mark without hex digits after it: the zero is converted, and the end is at the x. */
  lemma ReadsHexMark(ws: string, sign: string, mark: string, tail: string, arg: nat, unsigned: bool)
    requires WhiteSpace(ws) && Sign(sign) && HexMark(mark) && (arg == 0 || arg == 16) && StopsAt(tail, 16)
    ensures Meaning(ws + sign + mark + tail, arg, unsigned) == Parsed(0, |ws| + |sign| + 1, OK)
  {
    hide HeadOf, DigitsEnd, Digit, Upper, Val, Nearest, StopsAt, WritesDigit, Space, WhiteSpace;
    var s, q := ws + sign + mark + tail, |ws| + |sign|;
    HeadOfMark(ws, sign, mark, tail, arg);
    if tail != [] {
      assert s[q + 2] == tail[0];
      TailStops(tail, 16);
    }
    EndIs(s, q + 2, q + 2, 16);
  }

  lemma HeadOfMark(ws: string, sign: string, mark: string, tail: string, arg: nat)
    requires WhiteSpace(ws) && Sign(sign) && HexMark(mark) && (arg == 0 || arg == 16)
    ensures var s := ws + sign + mark + tail;
            HeadOf(s, arg) == Head(sign == "-", 16, |ws| + |sign| + 2) && HexPrefix(s, |ws| + |sign|)
  {
    hide SpacesEnd, Digit, Upper, Space;
    var s, rest, q := ws + sign + mark + tail, sign + mark + tail, |ws| + |sign|;
    assert s == ws + rest;
    assert s[q] == mark[0] && s[q + 1] == mark[1];
    DigitWritten(mark[1]);
    ZeroPlain();
    if sign != "" { assert rest[0] == sign[0] && s[|ws|] == sign[0]; SignPlain(sign); } else { assert rest[0] == mark[0]; }
    SpacesAre(ws, rest);
  }

  lemma ZeroPlain()
    ensures !Space('0')
  {
  }
}
