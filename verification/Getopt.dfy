/** GNU getopt's permutation of argv: options first, then the other arguments, each in their own order. */
module Getopt {

  /** s with its adjacent parts [a, b) and [b, c) exchanged. */
  function Rotated<T>(s: seq<T>, a: nat, b: nat, c: nat): (r: seq<T>)
    requires a <= b <= c <= |s|
    ensures |r| == |s|
  {
    s[..a] + s[b..c] + s[a..b] + s[c..]
  }

  /** s with [p, p + k) and [q, q + k) exchanged element by element. */
  function Swapped<T>(s: seq<T>, p: nat, q: nat, k: nat): (r: seq<T>)
    requires p + k <= q && q + k <= |s|
    ensures |r| == |s|
  {
    s[..p] + s[q..q + k] + s[p + k..q] + s[p..p + k] + s[q + k..]
  }

  lemma RotatedAt<T>(s: seq<T>, a: nat, b: nat, c: nat, j: nat)
    requires a <= b <= c <= |s| && j < |s|
    ensures Rotated(s, a, b, c)[j] == if j < a then s[j] else if j < a + (c - b) then s[b + (j - a)]
                                      else if j < c then s[j - (c - b)] else s[j]
  {
  }

  lemma SwappedAt<T>(s: seq<T>, p: nat, q: nat, k: nat, j: nat)
    requires p + k <= q && q + k <= |s| && j < |s|
    ensures Swapped(s, p, q, k)[j] == if p <= j < p + k then s[q + (j - p)] else if q <= j < q + k then s[p + (j - q)] else s[j]
  {
  }

  /** Swapping the short lower part with the far end of the upper one leaves a smaller rotation. */
  lemma LowerShort<T>(s: seq<T>, a: nat, b: nat, c: nat)
    requires a <= b <= c <= |s| && b - a <= c - b
    ensures var k := b - a; Rotated(Swapped(s, a, c - k, k), a, b, c - k) == Rotated(s, a, b, c)
  {
    hide Rotated, Swapped;
    var k := b - a;
    var t := Swapped(s, a, c - k, k);
    var x, y := Rotated(t, a, b, c - k), Rotated(s, a, b, c);
    forall j | 0 <= j < |s|
      ensures x[j] == y[j]
    {
      RotatedAt(t, a, b, c - k, j);
      RotatedAt(s, a, b, c, j);
      SwappedAt(s, a, c - k, k, if j < a || j >= c - k then j else if j < a + (c - k - b) then b + (j - a) else j - (c - k - b));
    }
  }

  /** Swapping the short upper part with the beginning of the lower one leaves a smaller rotation. */
  lemma UpperShort<T>(s: seq<T>, a: nat, b: nat, c: nat)
    requires a <= b <= c <= |s| && c - b <= b - a
    ensures var k := c - b; Rotated(Swapped(s, a, b, k), a + k, b, c) == Rotated(s, a, b, c)
  {
    hide Rotated, Swapped;
    var k := c - b;
    var t := Swapped(s, a, b, k);
    var x, y := Rotated(t, a + k, b, c), Rotated(s, a, b, c);
    forall j | 0 <= j < |s|
      ensures x[j] == y[j]
    {
      RotatedAt(t, a + k, b, c, j);
      RotatedAt(s, a, b, c, j);
      SwappedAt(s, a, b, k, if j < a + k || j >= c then j else if j < a + k + (c - b) then b + (j - (a + k)) else j - (c - b));
    }
  }

  lemma NothingLeft<T>(s: seq<T>, a: nat, b: nat, c: nat)
    requires a <= b <= c <= |s| && (a == b || b == c)
    ensures Rotated(s, a, b, c) == s
  {
    assert s == s[..a] + s[a..c] + s[c..];
  }

  /** One of the swap loops of exchange. */
  method SwapParts(argv: array<string>, p: nat, q: nat, k: nat)
    requires p + k <= q && q + k <= argv.Length
    modifies argv
    ensures argv[..] == Swapped(old(argv[..]), p, q, k)
  {
    ghost var s := argv[..];
    assert Swapped(s, p, q, 0) == s;
    for i := 0 to k
      invariant argv[..] == Swapped(s, p, q, i)
    {
      argv[p + i], argv[q + i] := argv[q + i], argv[p + i];
      SwapOne(s, p, q, i);
    }
  }

  lemma SwapOne<T>(s: seq<T>, p: nat, q: nat, i: nat)
    requires p + i + 1 <= q && q + i + 1 <= |s|
    ensures var t := Swapped(s, p, q, i); Swapped(s, p, q, i + 1) == t[p + i := t[q + i]][q + i := t[p + i]]
  {
    var t := Swapped(s, p, q, i);
    var u, v := Swapped(s, p, q, i + 1), t[p + i := t[q + i]][q + i := t[p + i]];
    SwappedAt(s, p, q, i, p + i);
    SwappedAt(s, p, q, i, q + i);
    forall j | 0 <= j < |s|
      ensures u[j] == v[j]
    {
      SwappedAt(s, p, q, i + 1, j);
      SwappedAt(s, p, q, i, j);
    }
  }

  /** The loop of exchange: the shorter part goes to its place with each turn. */
  method RotateParts(argv: array<string>, first: nat, middle: nat, end: nat)
    requires first <= middle <= end <= argv.Length
    modifies argv
    ensures argv[..] == Rotated(old(argv[..]), first, middle, end)
  {
    hide Rotated, Swapped;
    var bottom, top := first, end;
    ghost var goal := Rotated(argv[..], first, middle, end);
    while top > middle && middle > bottom
      invariant first <= bottom <= middle <= top <= argv.Length
      invariant Rotated(argv[..], bottom, middle, top) == goal
      decreases top - bottom
    {
      if top - middle > middle - bottom {
        var len := middle - bottom;
        LowerShort(argv[..], bottom, middle, top);
        SwapParts(argv, bottom, top - len, len);
        top := top - len;
      } else {
        var len := top - middle;
        UpperShort(argv[..], bottom, middle, top);
        SwapParts(argv, bottom, middle, len);
        bottom := bottom + len;
      }
    }
    NothingLeft(argv[..], bottom, middle, top);
  }

  /** Does not look like an option: no dash, or a dash alone. */
  predicate NonOption(arg: string) { !(|arg| >= 2 && arg[0] == '-') }

  // ---------- what a scan finds

  datatype Split = Split(opts: seq<string>, others: seq<string>)

  /** How many elements an option takes: itself, and a following one if it wants an argument. */
  function Takes(args: seq<string>, i: nat, wants: string -> bool): (k: nat)
    requires i < |args|
    ensures 1 <= k && i + k <= |args|
  {
    if wants(args[i]) && i + 1 < |args| then 2 else 1
  }

  /** The options with their arguments, and the other arguments, from i on. */
  function SplitFrom(args: seq<string>, i: nat, wants: string -> bool): (r: Split)
    requires i <= |args|
    decreases |args| - i
  {
    if i == |args| then Split([], [])
    else if args[i] == "--" then Split(["--"], args[i + 1..])
    else if NonOption(args[i]) then
      var r := SplitFrom(args, i + 1, wants);
      Split(r.opts, [args[i]] + r.others)
    else
      var k := Takes(args, i, wants);
      var r := SplitFrom(args, i + k, wants);
      Split(args[i..i + k] + r.opts, r.others)
  }

  lemma SplitOther(args: seq<string>, i: nat, wants: string -> bool)
    requires i < |args| && NonOption(args[i])
    ensures SplitFrom(args, i, wants).opts == SplitFrom(args, i + 1, wants).opts
    ensures SplitFrom(args, i, wants).others == [args[i]] + SplitFrom(args, i + 1, wants).others
  {
    assert args[i] != "--";
  }

  lemma SplitOption(args: seq<string>, i: nat, wants: string -> bool)
    requires i < |args| && !NonOption(args[i]) && args[i] != "--"
    ensures var k := Takes(args, i, wants);
            SplitFrom(args, i, wants).opts == args[i..i + k] + SplitFrom(args, i + k, wants).opts
            && SplitFrom(args, i, wants).others == SplitFrom(args, i + k, wants).others
  {
    hide Takes;
  }

  lemma SplitDashes(args: seq<string>, i: nat, wants: string -> bool)
    requires i < |args| && args[i] == "--"
    ensures SplitFrom(args, i, wants) == Split(["--"], args[i + 1..])
  {
  }

  /** Which argument is what: an empty one, a dash alone, or one without a dash in front is no option; an option that
      wants an argument takes the next element with it, if there is one; `--` is an option after which none follows. */
  lemma SplitMeans(args: seq<string>, i: nat, wants: string -> bool)
    requires i < |args|
    ensures args[i] == "" || args[i] == "-" || args[i][0] as int != 45 ==>
              SplitFrom(args, i, wants) == Split(SplitFrom(args, i + 1, wants).opts, [args[i]] + SplitFrom(args, i + 1, wants).others)
    ensures (|args[i]| >= 2 && args[i][0] as int == 45 && args[i] != "--" && wants(args[i]) && i + 1 < |args|) ==>
              SplitFrom(args, i, wants) == Split([args[i], args[i + 1]] + SplitFrom(args, i + 2, wants).opts, SplitFrom(args, i + 2, wants).others)
    ensures (|args[i]| >= 2 && args[i][0] as int == 45 && args[i] != "--" && (!wants(args[i]) || i + 1 == |args|)) ==>
              SplitFrom(args, i, wants) == Split([args[i]] + SplitFrom(args, i + 1, wants).opts, SplitFrom(args, i + 1, wants).others)
    ensures args[i] == "--" ==> SplitFrom(args, i, wants) == Split(["--"], args[i + 1..])
  {
    if args[i] == "--" {
      SplitDashes(args, i, wants);
    } else if NonOption(args[i]) {
      SplitOther(args, i, wants);
      hide SplitFrom;
    } else {
      SplitOption(args, i, wants);
      OptionElements(args, i, wants);
      hide SplitFrom, NonOption, Takes;
    }
  }

  lemma OptionElements(args: seq<string>, i: nat, wants: string -> bool)
    requires i < |args|
    ensures var k := Takes(args, i, wants);
            if wants(args[i]) && i + 1 < |args| then k == 2 && args[i..i + k] == [args[i], args[i + 1]]
            else k == 1 && args[i..i + k] == [args[i]]
  {
  }

  /** z holds what x and y hold. */
  ghost predicate Shared<T(!new)>(x: seq<T>, y: seq<T>, z: seq<T>) {
    multiset(x) + multiset(y) == multiset(z)
  }

  lemma SharedMore<T(!new)>(x: seq<T>, y: seq<T>, z: seq<T>, head: seq<T>)
    requires Shared(x, y, z)
    ensures Shared(head + x, y, head + z) && Shared(x, head + y, head + z) && head + [] == head
  {
  }

  lemma {:induction false} SplitPermutes(args: seq<string>, i: nat, wants: string -> bool)
    requires i <= |args|
    ensures Shared(SplitFrom(args, i, wants).opts, SplitFrom(args, i, wants).others, args[i..])
    decreases |args| - i
  {
    if i < |args| {
      hide SplitFrom, NonOption, Takes, Shared;
      var rest := args[i + 1..];
      One(args, i);
      if args[i] == "--" {
        SplitDashes(args, i, wants);
        SharedAll(rest);
        SharedMore([], rest, rest, [args[i]]);
      } else if NonOption(args[i]) {
        SplitPermutes(args, i + 1, wants);
        SplitOther(args, i, wants);
        SharedMore(SplitFrom(args, i + 1, wants).opts, SplitFrom(args, i + 1, wants).others, rest, [args[i]]);
      } else {
        var k := Takes(args, i, wants);
        SplitPermutes(args, i + k, wants);
        SplitOption(args, i, wants);
        TailCut(args, i, k);
        SharedMore(SplitFrom(args, i + k, wants).opts, SplitFrom(args, i + k, wants).others, args[i + k..], args[i..i + k]);
      }
    }
  }

  lemma TailCut<T>(s: seq<T>, i: nat, k: nat)
    requires i + k <= |s|
    ensures s[i..] == s[i..i + k] + s[i + k..]
  {
  }

  lemma SharedAll<T(!new)>(s: seq<T>)
    ensures Shared([], s, s)
  {
  }

  function Least(x: nat, y: nat): nat { if x > y then y else x }

  /** The state of a scan: options placed, other arguments skipped, options since, the rest. */
  ghost predicate Scanning(args: seq<string>, wants: string -> bool, s: seq<string>, first: nat, last: nat, i: nat) {
    1 <= first <= last <= i <= |s| == |args| && s[0] == args[0] && s[i..] == args[i..]
    && (var all, rest := SplitFrom(args, 1, wants), SplitFrom(args, i, wants);
        all.opts == s[1..first] + s[last..i] + rest.opts && all.others == s[first..last] + rest.others)
  }

  class Data {
    const argv: array<string>
    var optind: nat
    var firstNonopt: nat
    var lastNonopt: nat

    constructor (args: array<string>)
      ensures argv == args && optind == 1 && firstNonopt == 1 && lastNonopt == 1
    {
      argv, optind, firstNonopt, lastNonopt := args, 1, 1, 1;
    }

    /** exchange: the skipped arguments go after the options that followed them. */
    method Exchange()
      requires firstNonopt <= lastNonopt <= optind <= argv.Length
      modifies argv, this`firstNonopt, this`lastNonopt
      ensures argv[..] == Rotated(old(argv[..]), old(firstNonopt), old(lastNonopt), optind)
      ensures firstNonopt == old(firstNonopt) + optind - old(lastNonopt) && lastNonopt == optind
    {
      RotateParts(argv, firstNonopt, lastNonopt, optind);
      firstNonopt := firstNonopt + (optind - lastNonopt);
      lastNonopt := optind;
    }

    /** The head of one call with ordering PERMUTE, and the option it then takes; true when there is none. The window is
        cut at optind first, in case the caller has moved that back, as for a scan from the start again. */
    method Next(wants: string -> bool, ghost args: seq<string>) returns (done: bool)
      requires Scanning(args, wants, argv[..], Least(firstNonopt, optind), Least(lastNonopt, optind), optind)
      modifies argv, this`optind, this`firstNonopt, this`lastNonopt
      ensures !done ==> Scanning(args, wants, argv[..], firstNonopt, lastNonopt, optind) && old(optind) < optind
      ensures done ==> argv[..] == Permuted(args, wants) && optind == 1 + |SplitFrom(args, 1, wants).opts|
      ensures done ==> firstNonopt == optind && lastNonopt == |args|
    {
      hide SplitFrom, Scanning, Rotated, Permuted;
      if lastNonopt > optind {
        lastNonopt := optind;
      }
      if firstNonopt > optind {
        firstNonopt := optind;
      }
      ScanBounds(args, wants, argv[..], firstNonopt, lastNonopt, optind);
      var argc := argv.Length;
      Settle(wants, args);
      SkipNonOptions(wants, args);
      ScanBounds(args, wants, argv[..], firstNonopt, lastNonopt, optind);
      if optind != argc && argv[optind] == "--" {
        DashScan(args, wants, argv[..], firstNonopt, optind);
        optind := optind + 1;
        if firstNonopt != lastNonopt && lastNonopt != optind {
          Exchange();
        } else if firstNonopt == lastNonopt {
          NothingLeft(argv[..], firstNonopt, lastNonopt, optind);
          firstNonopt := optind;
        }
        lastNonopt := argc;
        optind := argc;
      } else if optind == argc {
        AllScanned(args, wants, argv[..], firstNonopt, optind);
      }
      if optind == argc {
        if firstNonopt != lastNonopt {
          optind := firstNonopt;
        }
        return true;
      }
      // an option: it takes its own element, and the next one if it wants an argument
      ArgumentSame(args, wants, argv[..], firstNonopt, lastNonopt, optind);
      OptionScan(args, wants, argv[..], firstNonopt, lastNonopt, optind);
      optind := optind + (if wants(argv[optind]) && optind + 1 < argc then 2 else 1);
      return false;
    }

    /** If options followed skipped arguments, exchanges them. */
    method Settle(wants: string -> bool, ghost args: seq<string>)
      requires Scanning(args, wants, argv[..], firstNonopt, lastNonopt, optind)
      modifies argv, this`firstNonopt, this`lastNonopt
      ensures Scanning(args, wants, argv[..], firstNonopt, optind, optind)
    {
      hide SplitFrom, Scanning, Rotated;
      ScanBounds(args, wants, argv[..], firstNonopt, lastNonopt, optind);
      if firstNonopt != lastNonopt && lastNonopt != optind {
        ExchangeScan(args, wants, argv[..], firstNonopt, lastNonopt, optind);
        Exchange();
      } else if lastNonopt != optind {
        SkipScan(args, wants, argv[..], lastNonopt, optind);
        firstNonopt := optind;
      }
    }

    /** Skips the arguments that are no options. */
    method SkipNonOptions(wants: string -> bool, ghost args: seq<string>)
      requires Scanning(args, wants, argv[..], firstNonopt, optind, optind)
      modifies this`optind, this`lastNonopt
      ensures Scanning(args, wants, argv[..], firstNonopt, lastNonopt, optind) && lastNonopt == optind
      ensures old(optind) <= optind <= argv.Length && (optind < argv.Length ==> !NonOption(argv[optind]))
    {
      hide SplitFrom, Scanning;
      ScanBounds(args, wants, argv[..], firstNonopt, optind, optind);
      while optind < argv.Length && NonOption(argv[optind])
        invariant old(optind) <= optind <= argv.Length && Scanning(args, wants, argv[..], firstNonopt, optind, optind)
      {
        ArgumentSame(args, wants, argv[..], firstNonopt, optind, optind);
        OtherScan(args, wants, argv[..], firstNonopt, optind);
        optind := optind + 1;
      }
      lastNonopt := optind;
    }
  }

  /** argv after a whole scan. */
  ghost function Permuted(args: seq<string>, wants: string -> bool): seq<string>
    requires 1 <= |args|
  {
    [args[0]] + SplitFrom(args, 1, wants).opts + SplitFrom(args, 1, wants).others
  }

  lemma ScanBounds(args: seq<string>, wants: string -> bool, s: seq<string>, first: nat, last: nat, i: nat)
    requires Scanning(args, wants, s, first, last, i)
    ensures 1 <= first <= last <= i <= |s| == |args|
  {
  }

  lemma ArgumentSame(args: seq<string>, wants: string -> bool, s: seq<string>, first: nat, last: nat, i: nat)
    requires Scanning(args, wants, s, first, last, i)
    ensures i < |s| == |args| ==> s[i] == args[i]
  {
    if i < |s| { assert s[i..][0] == args[i..][0]; }
  }

  /** After an exchange nothing lies between the skipped arguments and the rest. */
  lemma ExchangeScan(args: seq<string>, wants: string -> bool, s: seq<string>, first: nat, last: nat, i: nat)
    requires Scanning(args, wants, s, first, last, i)
    ensures 1 <= first <= last <= i <= |s| && Scanning(args, wants, Rotated(s, first, last, i), first + i - last, i, i)
  {
    hide SplitFrom;
    var t := Rotated(s, first, last, i);
    assert t[1..first + i - last] == s[1..first] + s[last..i] && t[first + i - last..i] == s[first..last] && t[i..] == s[i..];
  }

  lemma SkipScan(args: seq<string>, wants: string -> bool, s: seq<string>, last: nat, i: nat)
    requires Scanning(args, wants, s, last, last, i)
    ensures Scanning(args, wants, s, i, i, i)
  {
    hide SplitFrom;
    assert s[1..i] == s[1..last] + s[last..i];
  }

  /** s and t agree from i on: k more elements of s are k elements of t. */
  lemma SliceOn<T>(s: seq<T>, t: seq<T>, from: nat, i: nat, k: nat)
    requires from <= i && i + k <= |s| == |t| && s[i..] == t[i..]
    ensures s[from..i + k] == s[from..i] + t[i..i + k] && s[i + k..] == t[i + k..]
  {
    assert s[i..i + k] == s[i..][..k] && t[i..i + k] == t[i..][..k];
    assert s[i + k..] == s[i..][k..] && t[i + k..] == t[i..][k..];
  }

  lemma CatAssoc<T>(a: seq<T>, b: seq<T>, c: seq<T>, d: seq<T>)
    ensures a + b + (c + d) == a + (b + c) + d && a + (c + d) == (a + c) + d
  {
  }

  lemma OtherScan(args: seq<string>, wants: string -> bool, s: seq<string>, first: nat, i: nat)
    requires Scanning(args, wants, s, first, i, i) && i < |s| && s[i] == args[i] && NonOption(s[i])
    ensures Scanning(args, wants, s, first, i + 1, i + 1)
  {
    SplitOther(args, i, wants);
    hide SplitFrom, NonOption;
    SliceOn(s, args, first, i, 1);
    One(args, i);
    CatAssoc(s[first..i], [], [args[i]], SplitFrom(args, i + 1, wants).others);
  }

  lemma One<T>(s: seq<T>, i: nat)
    requires i < |s|
    ensures s[i..i + 1] == [s[i]] && s[i..i] == s[i + 1..i + 1] == [] && s[i..] == [s[i]] + s[i + 1..]
  {
  }

  lemma OptionScan(args: seq<string>, wants: string -> bool, s: seq<string>, first: nat, last: nat, i: nat)
    requires Scanning(args, wants, s, first, last, i) && i < |s| && s[i] == args[i] && !NonOption(s[i]) && s[i] != "--"
    ensures Scanning(args, wants, s, first, last, i + Takes(args, i, wants))
  {
    var k := Takes(args, i, wants);
    SplitOption(args, i, wants);
    hide SplitFrom, Takes, NonOption;
    SliceOn(s, args, last, i, k);
    CatAssoc(s[1..first], s[last..i], args[i..i + k], SplitFrom(args, i + k, wants).opts);
  }

  /** At `--` the rest are other arguments: one more exchange gives the permutation. */
  lemma DashScan(args: seq<string>, wants: string -> bool, s: seq<string>, first: nat, i: nat)
    requires Scanning(args, wants, s, first, i, i) && i < |s| && s[i] == "--"
    ensures 1 <= first <= i < |s| && 1 <= |args| && Rotated(s, first, i, i + 1) == Permuted(args, wants)
    ensures first + 1 == 1 + |SplitFrom(args, 1, wants).opts|
  {
    hide SplitFrom, Rotated;
    ArgumentSame(args, wants, s, first, i, i);
    SplitDashes(args, i, wants);
    SliceOn(s, args, first, i, 1);
    One(s, i);
    One(args, i);
    DashRotated(s, first, i);
    CatAssoc([s[0]] + s[1..first], [s[i]], s[first..i], s[i + 1..]);
    CatAssoc([s[0]], s[1..first], [s[i]], s[first..i] + s[i + 1..]);
  }

  lemma DashRotated<T>(s: seq<T>, first: nat, i: nat)
    requires 1 <= first <= i < |s|
    ensures Rotated(s, first, i, i + 1) == [s[0]] + s[1..first] + [s[i]] + s[first..i] + s[i + 1..]
  {
    assert s[..first] == [s[0]] + s[1..first] && s[i..i + 1] == [s[i]];
  }

  lemma AllScanned(args: seq<string>, wants: string -> bool, s: seq<string>, first: nat, i: nat)
    requires Scanning(args, wants, s, first, i, i) && i == |s|
    ensures 1 <= first && 1 <= |args| && s == Permuted(args, wants) && first == 1 + |SplitFrom(args, 1, wants).opts|
  {
    assert s == [s[0]] + s[1..first] + s[first..];
  }

  /** A whole scan: options first, other arguments after, each in their own order, and nothing lost. */
  method Scan(argv: array<string>, wants: string -> bool) returns (optind: nat)
    requires 1 <= argv.Length
    modifies argv
    ensures argv[..] == Permuted(old(argv[..]), wants) && optind == 1 + |SplitFrom(old(argv[..]), 1, wants).opts| <= argv.Length
    ensures multiset(argv[..]) == multiset(old(argv[..]))
  {
    hide SplitFrom, Scanning;
    ghost var args := argv[..];
    var d := new Data(argv);
    StartScan(args, wants);
    var done := false;
    while !done
      invariant !done ==> Scanning(args, wants, argv[..], d.firstNonopt, d.lastNonopt, d.optind)
      invariant done ==> argv[..] == Permuted(args, wants) && d.optind == 1 + |SplitFrom(args, 1, wants).opts|
      decreases !done, argv.Length - d.optind
    {
      ScanBounds(args, wants, argv[..], d.firstNonopt, d.lastNonopt, d.optind);
      done := d.Next(wants, args);
      if !done { ScanBounds(args, wants, argv[..], d.firstNonopt, d.lastNonopt, d.optind); }
    }
    SplitPermutes(args, 1, wants);
    SharedMore(SplitFrom(args, 1, wants).opts, SplitFrom(args, 1, wants).others, args[1..], [args[0]]);
    assert args == [args[0]] + args[1..];
    return d.optind;
  }

  lemma StartScan(args: seq<string>, wants: string -> bool)
    requires 1 <= |args|
    ensures Scanning(args, wants, args, 1, 1, 1)
  {
  }
}
