/** Multi-string values: zero-terminated strings of 16-bit units, one after the other, ended by an empty one. */
module MultiStrings {
  import opened Bytes

  /** A zero unit at p, or no whole unit left. */
  predicate Stops(s: seq<byte>, p: nat) { p + 2 > |s| || (s[p] == 0 && s[p + 1] == 0) }

  /** Bytes before the first zero unit. */
  function UnitsEnd(s: seq<byte>, p: nat): (e: nat)
    requires p <= |s|
    ensures p <= e <= |s|
    decreases |s| - p
  {
    if Stops(s, p) then p else UnitsEnd(s, p + 2)
  }

  lemma {:induction false} EndIs(s: seq<byte>, p: nat)
    requires p <= |s|
    ensures var e := UnitsEnd(s, p);
            (e - p) % 2 == 0 && Stops(s, e) && forall i :: p <= i < e && (i - p) % 2 == 0 ==> !Stops(s, i)
    decreases |s| - p
  {
    if !Stops(s, p) {
      EndIs(s, p + 2);
      var e := UnitsEnd(s, p);
      assert e == UnitsEnd(s, p + 2);
      hide Stops, UnitsEnd;
      forall i | p <= i < e && (i - p) % 2 == 0
        ensures !Stops(s, i)
      {
        if i != p { TwoOn(i, p); }
      }
    }
  }

  lemma TwoOn(i: nat, p: nat)
    requires p < i && (i - p) % 2 == 0
    ensures p + 2 <= i && (i - (p + 2)) % 2 == 0
  {
  }

  /** utf16_string_len_in_bytes_max. */
  method StringLen(s: seq<byte>, p: nat) returns (n: nat)
    requires p <= |s|
    ensures n == UnitsEnd(s, p) - p
    ensures n % 2 == 0 && Stops(s, p + n) && forall i :: p <= i < p + n && (i - p) % 2 == 0 ==> !Stops(s, i)
  {
    EndIs(s, p);
    var q, len := p, |s| - p;
    n := 0;
    while len >= 2 && (s[q] != 0 || s[q + 1] != 0)
      invariant p <= q <= |s| && len == |s| - q && n == q - p && UnitsEnd(s, q) == UnitsEnd(s, p)
    {
      q, n, len := q + 2, n + 2, len - 2;
    }
  }

  /** The strings from p on, as raw bytes. */
  function StringsFrom(s: seq<byte>, p: nat): seq<seq<byte>>
    decreases |s| - p
  {
    if p >= |s| || UnitsEnd(s, p) == p then [] else
      var e := UnitsEnd(s, p);
      [s[p..e]] + StringsFrom(s, e + 2)
  }

  /** The loop of hivex_value_multiple_strings, before conversion to UTF-8. */
  method SplitStrings(data: seq<byte>) returns (strings: seq<seq<byte>>)
    ensures strings == StringsFrom(data, 0)
  {
    hide UnitsEnd, Stops;
    var p := 0;
    strings := [];
    while p < |data|
      invariant 0 <= p && strings + StringsFrom(data, p) == StringsFrom(data, 0)
      decreases |data| - p
    {
      var plen := StringLen(data, p);
      if plen == 0 {
        break;
      }
      OneString(data, p, data[p..p + plen]);
      strings := strings + [data[p..p + plen]];
      p := p + plen + 2;
    }
  }

  /** A string that can be stored: some units, none of them zero. */
  ghost predicate Storable(str: seq<byte>) {
    str != [] && |str| % 2 == 0 && forall i :: 0 <= i < |str| && i % 2 == 0 ==> !(str[i] == 0 && str[i + 1] == 0)
  }

  function Joined(strings: seq<seq<byte>>): seq<byte> {
    if strings == [] then [] else strings[0] + [0, 0] + Joined(strings[1..])
  }

  lemma {:induction false} EndOf(s: seq<byte>, p: nat, e: nat)
    requires p <= e <= |s| && (e - p) % 2 == 0 && Stops(s, e)
    requires forall i :: p <= i < e && (i - p) % 2 == 0 ==> !Stops(s, i)
    ensures UnitsEnd(s, p) == e
    decreases e - p
  {
    if p < e { EndOf(s, p + 2, e); }
  }

  /** Splitting undoes joining, whatever comes before and after. */
  lemma {:induction false} SplitJoined(pre: seq<byte>, strings: seq<seq<byte>>, tail: seq<byte>)
    requires forall x :: x in strings ==> Storable(x)
    ensures StringsFrom(pre + Joined(strings) + [0, 0] + tail, |pre|) == strings
    decreases |strings|
  {
    hide UnitsEnd, Stops, Storable, StringsFrom;
    var s := pre + Joined(strings) + [0, 0] + tail;
    if strings == [] {
      NothingMore(pre, tail);
      assert pre + [] + [0, 0] + tail == pre + [0, 0] + tail;
    } else {
      var x, rest := strings[0], strings[1..];
      assert x in strings;
      Regroup(pre, x, [0, 0], Joined(rest), tail);
      SplitJoined(pre + x + [0, 0], rest, tail);
      StoredEnd(pre, x, Joined(rest) + [0, 0] + tail);
      hide Joined;
      OneString(s, |pre|, x);
    }
  }

  lemma Regroup<T>(pre: seq<T>, x: seq<T>, z: seq<T>, j: seq<T>, tail: seq<T>)
    ensures pre + (x + z + j) + z + tail == pre + x + z + j + z + tail == pre + x + z + (j + z + tail)
    ensures (pre + x + z + j + z + tail)[|pre|..|pre| + |x|] == x && |pre + x + z| == |pre| + |x| + |z|
  {
  }

  lemma NothingMore(pre: seq<byte>, tail: seq<byte>)
    ensures StringsFrom(pre + [0, 0] + tail, |pre|) == []
  {
    var s := pre + [0, 0] + tail;
    assert Stops(s, |pre|);
    EndOf(s, |pre|, |pre|);
  }

  lemma OneString(s: seq<byte>, p: nat, x: seq<byte>)
    requires x != [] && p + |x| <= |s| && UnitsEnd(s, p) == p + |x| && s[p..p + |x|] == x
    ensures StringsFrom(s, p) == [x] + StringsFrom(s, p + |x| + 2)
  {
    hide UnitsEnd, Stops;
  }

  lemma StoredEnd(pre: seq<byte>, x: seq<byte>, tail: seq<byte>)
    requires Storable(x)
    ensures x != [] && UnitsEnd(pre + x + [0, 0] + tail, |pre|) == |pre| + |x|
  {
    var s := pre + x + [0, 0] + tail;
    forall i | |pre| <= i < |pre| + |x| && (i - |pre|) % 2 == 0
      ensures !Stops(s, i)
    {
      assert s[i] == x[i - |pre|] && s[i + 1] == x[i - |pre| + 1];
    }
    EndOf(s, |pre|, |pre| + |x|);
  }

  /** Joining undoes splitting on whole units: what was split is how the data begins, a missing end made good. */
  lemma {:induction false} JoinSplit(s: seq<byte>, p: nat)
    requires p <= |s| && (|s| - p) % 2 == 0
    ensures Joined(StringsFrom(s, p)) <= s[p..] + [0, 0] && forall x :: x in StringsFrom(s, p) ==> Storable(x)
    decreases |s| - p
  {
    hide Joined, Stops;
    if p < |s| && UnitsEnd(s, p) != p {
      var e := UnitsEnd(s, p);
      var x := s[p..e];
      WholeUnits(s, p);
      hide UnitsEnd, Storable;
      OneString(s, p, x);
      hide StringsFrom;
      if e + 2 <= |s| {
        JoinSplit(s, e + 2);
      } else {
        PastEnd(s, e + 2);
      }
      JoinOne(s, p, e, StringsFrom(s, e + 2));
    } else {
      PastEnd(s, p);
    }
  }

  lemma PastEnd(s: seq<byte>, p: nat)
    requires p >= |s| || UnitsEnd(s, p) == p
    ensures StringsFrom(s, p) == [] && Joined(StringsFrom(s, p)) == []
  {
  }

  lemma WholeUnits(s: seq<byte>, p: nat)
    requires p < |s| && UnitsEnd(s, p) != p && (|s| - p) % 2 == 0
    ensures var e := UnitsEnd(s, p);
            p < e <= |s| && Storable(s[p..e]) && (|s| - (e + 2)) % 2 == 0 && (e + 2 > |s| ==> e == |s|)
            && (e + 2 <= |s| ==> s[e] == 0 && s[e + 1] == 0)
  {
    var e := UnitsEnd(s, p);
    EndIs(s, p);
    forall i | 0 <= i < e - p && i % 2 == 0
      ensures !(s[p..e][i] == 0 && s[p..e][i + 1] == 0)
    {
      assert !Stops(s, p + i);
    }
  }

  lemma JoinOne(s: seq<byte>, p: nat, e: nat, rest: seq<seq<byte>>)
    requires p <= e <= |s| && (e + 2 > |s| ==> e == |s| && Joined(rest) == [])
    requires e + 2 <= |s| ==> s[e] == 0 && s[e + 1] == 0 && Joined(rest) <= s[e + 2..] + [0, 0]
    ensures Joined([s[p..e]] + rest) <= s[p..] + [0, 0]
  {
    var x := s[p..e];
    assert ([x] + rest)[1..] == rest;
    assert Joined([x] + rest) == x + [0, 0] + Joined(rest);
    hide Joined;
    if e + 2 <= |s| {
      assert s[p..] + [0, 0] == x + [0, 0] + (s[e + 2..] + [0, 0]);
    } else {
      assert s[p..] == x;
    }
  }
}
