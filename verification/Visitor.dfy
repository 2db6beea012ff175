/** hivex_visit_node: the depth-first walk that stops at nodes it has seen before. */
module Visitor {
  import opened Bitmap
  import opened Bytes
  import opened Hives
  import opened Readers
  import Registry

  /** What the readers say of each node and value; children may be shared, or form cycles. */
  datatype Image = Image(named: nat -> bool, values: nat -> Result<seq<nat>>, readable: nat -> bool,
                         children: nat -> Result<seq<nat>>)

  /** Children are valid blocks, so their bits are inside the bitmap. */
  ghost predicate InRange(g: Image, size: nat) {
    forall n :: g.children(n).Ok? ==> forall k :: k in g.children(n).value ==> k < 32 * size && k % 4 == 0
  }

  /** What the readers say of an image, from its bytes and bitmap. */
  ghost function ImageOf(a: seq<byte>, bm: seq<bv8>): Image {
    Image((n: nat) => NameGood(a, bm, n), (n: nat) => if ValuesGood(a, bm, n) then Ok(ValuesOf(a, n)) else Err(EINVAL),
          (k: nat) => ValueGood(a, bm, k), (n: nat) => if ChildrenGood(a, bm, n, true) then Ok(ChildrenOf(a, bm, n, true)) else Err(EINVAL))
  }

  /** get_children checks that children are valid blocks, so the walk never leaves the bitmap, whatever the image holds. */
  lemma ImageInRange(a: seq<byte>, bm: seq<bv8>)
    ensures InRange(ImageOf(a, bm), |bm|)
  {
    hide ChildrenGood, ChildrenOf, Tst;
    var g := ImageOf(a, bm);
    forall n | g.children(n).Ok?
      ensures forall k :: k in g.children(n).value ==> k < 32 * |bm| && k % 4 == 0
    {
      ChildrenValid(a, bm, n);
    }
  }

  /** The calls a visitor receives. */
  datatype Event = Start(n: nat) | Val(n: nat, k: nat) | End(n: nat)

  // ---------- depth-first order

  /** A list of trees: the first node, the trees of its children, the trees after it. */
  datatype Forest = Nil | Cons(n: nat, kids: Forest, rest: Forest)

  function Roots(f: Forest): seq<nat> {
    match f case Nil => [] case Cons(n, _, rest) => [n] + Roots(rest)
  }

  function Nodes(f: Forest): set<nat> {
    match f case Nil => {} case Cons(n, kids, rest) => {n} + Nodes(kids) + Nodes(rest)
  }

  /** No node occurs twice. */
  ghost predicate Once(f: Forest) {
    match f
    case Nil => true
    case Cons(n, kids, rest) => n !in Nodes(kids) && n !in Nodes(rest) && Nodes(kids) !! Nodes(rest) && Once(kids) && Once(rest)
  }

  ghost predicate ValuesFit(g: Image, n: nat) {
    g.named(n) && g.values(n).Ok? && forall k :: k in g.values(n).value ==> g.readable(k)
  }

  /** Every node can be read, and its children are those of the image. */
  ghost predicate Fits(g: Image, f: Forest) {
    match f
    case Nil => true
    case Cons(n, kids, rest) => ValuesFit(g, n) && g.children(n) == Ok(Roots(kids)) && Fits(g, kids) && Fits(g, rest)
  }

  function ValueEvents(n: nat, values: seq<nat>): seq<Event> {
    if values == [] then [] else ValueEvents(n, values[..|values| - 1]) + [Val(n, values[|values| - 1])]
  }

  /** Start, values, children, end: properly nested, children in order. */
  ghost function Trace(g: Image, f: Forest): seq<Event>
    requires Fits(g, f)
  {
    match f
    case Nil => []
    case Cons(n, kids, rest) =>
      ([Start(n)] + ValueEvents(n, g.values(n).value)) + Trace(g, kids) + [End(n)] + Trace(g, rest)
  }

  /** The image has only one forest over given roots. */
  lemma {:induction false} FitsUnique(g: Image, f: Forest, f': Forest)
    requires Fits(g, f) && Fits(g, f') && Roots(f) == Roots(f')
    ensures f == f'
  {
    match (f, f') {
      case (Cons(n, k, r), Cons(n', k', r')) =>
        assert n == Roots(f)[0] && n' == Roots(f')[0] && Roots(r) == Roots(f)[1..] && Roots(r') == Roots(f')[1..];
        FitsUnique(g, k, k');
        FitsUnique(g, r, r');
      case _ =>
    }
  }

  // ---------- properly nested

  /** An open node: its values and children not yet reported. */
  datatype Frame = Frame(n: nat, values: seq<nat>, kids: seq<nat>)

  /** The calls are properly nested: with these nodes open (the last innermost) every call concerns the innermost, values
      come in order, then children in order, then the end; and in the end only the outermost frame is left, used up. */
  ghost predicate Nested(g: Image, open: seq<Frame>, calls: seq<Event>)
    decreases |calls|
  {
    open != [] &&
    var top, below := open[|open| - 1], open[..|open| - 1];
    if calls == [] then below == [] && top.values == [] && top.kids == []
    else match calls[0]
      case Start(n) =>
        top.values == [] && top.kids != [] && top.kids[0] == n && g.values(n).Ok? && g.children(n).Ok?
        && Nested(g, below + [top.(kids := top.kids[1..])] + [Frame(n, g.values(n).value, g.children(n).value)], calls[1..])
      case Val(n, k) =>
        n == top.n && top.values != [] && top.values[0] == k && Nested(g, below + [top.(values := top.values[1..])], calls[1..])
      case End(n) =>
        n == top.n && top.values == [] && top.kids == [] && Nested(g, below, calls[1..])
  }

  lemma NestedStart(g: Image, below: seq<Frame>, m: nat, n: nat, others: seq<nat>, calls: seq<Event>)
    requires g.values(n).Ok? && g.children(n).Ok?
    ensures Nested(g, below + [Frame(m, [], [n] + others)], [Start(n)] + calls) <==>
            Nested(g, below + [Frame(m, [], others)] + [Frame(n, g.values(n).value, g.children(n).value)], calls)
  {
    var open := below + [Frame(m, [], [n] + others)];
    assert open[..|open| - 1] == below && ([n] + others)[1..] == others && ([Start(n)] + calls)[1..] == calls;
  }

  lemma NestedEnd(g: Image, below: seq<Frame>, n: nat, calls: seq<Event>)
    ensures Nested(g, below + [Frame(n, [], [])], [End(n)] + calls) <==> Nested(g, below, calls)
  {
    var open := below + [Frame(n, [], [])];
    assert open[..|open| - 1] == below && ([End(n)] + calls)[1..] == calls;
  }

  lemma {:induction false} NestedValues(g: Image, below: seq<Frame>, n: nat, values: seq<nat>, kids: seq<nat>, calls: seq<Event>)
    ensures Nested(g, below + [Frame(n, values, kids)], ValueEvents(n, values) + calls) <==> Nested(g, below + [Frame(n, [], kids)], calls)
    decreases |values|
  {
    if values == [] {
      assert ValueEvents(n, values) + calls == calls;
    } else {
      var open := below + [Frame(n, values, kids)];
      ValuesFirst(n, values);
      var evs := ValueEvents(n, values) + calls;
      assert evs[0] == Val(n, values[0]) && evs[1..] == ValueEvents(n, values[1..]) + calls;
      assert open[..|open| - 1] == below;
      NestedValues(g, below, n, values[1..], kids, calls);
    }
  }

  lemma {:induction false} ValuesFirst(n: nat, values: seq<nat>)
    requires values != []
    ensures ValueEvents(n, values) == [Val(n, values[0])] + ValueEvents(n, values[1..])
    decreases |values|
  {
    if |values| > 1 {
      var most := values[..|values| - 1];
      ValuesFirst(n, most);
      assert values[1..][..|values[1..]| - 1] == most[1..];
    }
  }

  /** The trace of a forest, inside any open node that still has its roots to report. */
  lemma {:induction false} NestedForest(g: Image, below: seq<Frame>, m: nat, f: Forest, others: seq<nat>, calls: seq<Event>)
    requires Fits(g, f)
    ensures Nested(g, below + [Frame(m, [], Roots(f) + others)], Trace(g, f) + calls) <==> Nested(g, below + [Frame(m, [], others)], calls)
    decreases f
  {
    match f
    case Nil =>
      assert Roots(f) + others == others && Trace(g, f) + calls == calls;
    case Cons(n, kids, rest) =>
      var vals, here := g.values(n).value, below + [Frame(m, [], Roots(rest) + others)];
      var after := Trace(g, rest) + calls;
      var c1 := ValueEvents(n, vals) + (Trace(g, kids) + ([End(n)] + after));
      assert Roots(f) + others == [n] + (Roots(rest) + others);
      TraceSplit(g, f, calls);
      hide Nested, Trace, ValueEvents;
      NestedStart(g, below, m, n, Roots(rest) + others, c1);
      NestedValues(g, here, n, vals, Roots(kids), Trace(g, kids) + ([End(n)] + after));
      assert Roots(kids) + [] == Roots(kids);
      NestedForest(g, here, n, kids, [], [End(n)] + after);
      NestedEnd(g, here, n, after);
      NestedForest(g, below, m, rest, others, calls);
  }

  lemma TraceSplit(g: Image, f: Forest, calls: seq<Event>)
    requires Fits(g, f) && f.Cons?
    ensures Trace(g, f) + calls == [Start(f.n)] + (ValueEvents(f.n, g.values(f.n).value)
                                                   + (Trace(g, f.kids) + ([End(f.n)] + (Trace(g, f.rest) + calls))))
  {
    hide ValueEvents;
  }

  /** The calls of a whole visit are properly nested. */
  lemma TraceNested(g: Image, f: Forest)
    requires Fits(g, f)
    ensures Nested(g, [Frame(0, [], Roots(f))], Trace(g, f))
  {
    NestedForest(g, [], 0, f, [], []);
    assert [] + [Frame(0, [], Roots(f) + [])] == [Frame(0, [], Roots(f))] by { assert Roots(f) + [] == Roots(f); }
    assert Trace(g, f) + [] == Trace(g, f);
    assert [] + [Frame(0, [], [])] == [Frame(0, [], [])];
  }

  // ---------- node_start at most once

  /** Nodes are started at most once, and only nodes in S. */
  ghost predicate OnceIn(t: seq<Event>, S: set<nat>) {
    (forall i :: 0 <= i < |t| && t[i].Start? ==> t[i].n in S)
    && (forall i, j :: 0 <= i < j < |t| && t[i].Start? && t[j].Start? ==> t[i].n != t[j].n)
  }

  lemma OnceCat(a: seq<Event>, b: seq<Event>, S: set<nat>, T: set<nat>)
    requires OnceIn(a, S) && OnceIn(b, T) && S !! T
    ensures OnceIn(a + b, S + T)
  {
  }

  lemma {:induction false} NoStarts(n: nat, values: seq<nat>)
    ensures OnceIn(ValueEvents(n, values), {})
  {
    if values != [] {
      NoStarts(n, values[..|values| - 1]);
      OnceCat(ValueEvents(n, values[..|values| - 1]), [Val(n, values[|values| - 1])], {}, {});
    }
  }

  /** The trace of a forest starts each of its nodes, once. */
  lemma {:induction false} TraceOnce(g: Image, f: Forest)
    requires Fits(g, f) && Once(f)
    ensures OnceIn(Trace(g, f), Nodes(f)) && forall n :: n in Nodes(f) ==> Start(n) in Trace(g, f) && End(n) in Trace(g, f)
  {
    match f
    case Nil =>
    case Cons(n, kids, rest) =>
      TraceOnce(g, kids);
      TraceOnce(g, rest);
      var v := ValueEvents(n, g.values(n).value);
      NoStarts(n, g.values(n).value);
      OnceCat([Start(n)], v, {n}, {});
      OnceCat([Start(n)] + v, Trace(g, kids), {n}, Nodes(kids));
      OnceCat(([Start(n)] + v) + Trace(g, kids), [End(n)], {n} + Nodes(kids), {});
      OnceCat(([Start(n)] + v) + Trace(g, kids) + [End(n)], Trace(g, rest), {n} + Nodes(kids), Nodes(rest));
      var head := [Start(n)] + v;
      assert Trace(g, f) == head + Trace(g, kids) + [End(n)] + Trace(g, rest);
      assert head[0] == Start(n);
  }

  // ---------- the walk

  /** The callbacks accept every event of `ev` after those of `before`. */
  ghost predicate Accepts(refuse: seq<Event> -> bool, before: seq<Event>, ev: seq<Event>) {
    forall t :: before < t <= before + ev ==> !refuse(t)
  }

  lemma AcceptsCat(refuse: seq<Event> -> bool, before: seq<Event>, a: seq<Event>, b: seq<Event>)
    requires Accepts(refuse, before, a + b)
    ensures Accepts(refuse, before, a) && Accepts(refuse, before + a, b)
  {
    assert before + (a + b) == before + a + b;
  }

  lemma AcceptsJoin(refuse: seq<Event> -> bool, before: seq<Event>, a: seq<Event>, b: seq<Event>)
    requires Accepts(refuse, before, a) && Accepts(refuse, before + a, b)
    ensures Accepts(refuse, before, a + b)
  {
    assert before + (a + b) == before + a + b;
    forall t | before < t <= before + a + b
      ensures !refuse(t)
    {
      if |t| <= |before + a| { assert t <= before + a; } else { assert before + a < t; }
    }
  }

  lemma AcceptsOne(refuse: seq<Event> -> bool, before: seq<Event>, e: Event)
    ensures Accepts(refuse, before, [e]) <==> !refuse(before + [e])
  {
    if !refuse(before + [e]) {
      forall t | before < t <= before + [e]
        ensures !refuse(t)
      {
        assert t == before + [e];
      }
    }
  }

  /** Events ev were offered to the callbacks after t: all of them, or up to the first that is refused. */
  ghost predicate Ran(refuse: seq<Event> -> bool, t: seq<Event>, ev: seq<Event>, ok: bool, t': seq<Event>) {
    if Accepts(refuse, t, ev) then ok && t' == t + ev else !ok && t < t' <= t + ev && refuse(t')
  }

  lemma RanNone(refuse: seq<Event> -> bool, t: seq<Event>)
    ensures Ran(refuse, t, [], true, t)
  {
  }

  lemma RanOne(refuse: seq<Event> -> bool, t: seq<Event>, e: Event)
    ensures Ran(refuse, t, [e], !refuse(t + [e]), t + [e])
  {
    hide Accepts;
    AcceptsOne(refuse, t, e);
  }

  lemma RanThen(refuse: seq<Event> -> bool, t: seq<Event>, a: seq<Event>, t1: seq<Event>, b: seq<Event>, ok: bool, t2: seq<Event>)
    requires Ran(refuse, t, a, true, t1) && Ran(refuse, t1, b, ok, t2)
    ensures Ran(refuse, t, a + b, ok, t2)
  {
    hide Accepts;
    if Accepts(refuse, t, a + b) { AcceptsCat(refuse, t, a, b); }
    if Accepts(refuse, t1, b) { AcceptsJoin(refuse, t, a, b); }
    assert t + (a + b) == t1 + b;
  }

  lemma RanStop(refuse: seq<Event> -> bool, t: seq<Event>, a: seq<Event>, t1: seq<Event>, b: seq<Event>)
    requires Ran(refuse, t, a, false, t1)
    ensures Ran(refuse, t, a + b, false, t1)
  {
    hide Accepts;
    if Accepts(refuse, t, a + b) { AcceptsCat(refuse, t, a, b); }
    assert t + (a + b) == (t + a) + b;
  }

  // ---------- the walk that skips what is bad

  /** The values before the first that cannot be read. */
  ghost function GoodPrefix(g: Image, values: seq<nat>): seq<nat> {
    if values == [] || !g.readable(values[0]) then [] else [values[0]] + GoodPrefix(g, values[1..])
  }

  lemma {:induction false} GoodPrefixIs(g: Image, values: seq<nat>, i: nat)
    requires i <= |values| && (forall k :: k in values[..i] ==> g.readable(k)) && (i < |values| ==> !g.readable(values[i]))
    ensures GoodPrefix(g, values) == values[..i]
    decreases |values|
  {
    if i > 0 {
      assert values[0] in values[..i];
      assert values[1..][..i - 1] == values[..i][1..];
      forall k | k in values[1..][..i - 1]
        ensures g.readable(k)
      {
        assert k in values[..i];
      }
      GoodPrefixIs(g, values[1..], i - 1);
    }
  }

  lemma {:induction false} GoodPrefixHas(g: Image, values: seq<nat>, i: nat)
    requires i <= |values| && forall k :: k in values[..i] ==> g.readable(k)
    ensures i <= |GoodPrefix(g, values)| && GoodPrefix(g, values)[..i] == values[..i]
    decreases i
  {
    if i > 0 {
      assert values[0] in values[..i];
      forall k | k in values[1..][..i - 1]
        ensures g.readable(k)
      {
        assert k in values[..i];
      }
      GoodPrefixHas(g, values[1..], i - 1);
      assert values[..i] == [values[0]] + values[1..][..i - 1];
    }
  }

  ghost function ShownValues(g: Image, n: nat): seq<nat> {
    if g.values(n).Ok? then GoodPrefix(g, g.values(n).value) else []
  }

  /** What a visit with SKIP_BAD reports of these roots, and which nodes it leaves unvisited. A node seen before, or
      without a name, gives nothing; one with a bad value or bad children its start and the values before the fault, but
      no end; and its siblings are visited all the same. */
  ghost function Pruned(g: Image, U: set<nat>, roots: seq<nat>): (r: (seq<Event>, set<nat>))
    ensures r.1 <= U
    decreases U, |roots|
  {
    if roots == [] then ([], U) else
      var n, others := roots[0], roots[1..];
      if n !in U then Pruned(g, U, others)
      else if !g.named(n) then Pruned(g, U - {n}, others)
      else
        var head := [Start(n)] + ValueEvents(n, ShownValues(g, n));
        if !ValuesFit(g, n) || g.children(n).Err? then
          var rest := Pruned(g, U - {n}, others);
          (head + rest.0, rest.1)
        else
          var kids := Pruned(g, U - {n}, g.children(n).value);
          var rest := Pruned(g, kids.1, others);
          (head + kids.0 + [End(n)] + rest.0, rest.1)
  }

  ghost predicate Whole(g: Image, n: nat) { ValuesFit(g, n) && g.children(n).Ok? }

  /** One root and the others, case by case. */
  lemma PrunedStep(g: Image, U: set<nat>, roots: seq<nat>)
    requires roots != []
    ensures var n, others, head := roots[0], roots[1..], [Start(roots[0])] + ValueEvents(roots[0], ShownValues(g, roots[0]));
            (n !in U ==> Pruned(g, U, roots) == Pruned(g, U, others))
            && (n in U && !g.named(n) ==> Pruned(g, U, roots) == Pruned(g, U - {n}, others))
            && (n in U && g.named(n) && !Whole(g, n) ==>
                  Pruned(g, U, roots) == (head + Pruned(g, U - {n}, others).0, Pruned(g, U - {n}, others).1))
            && (n in U && g.named(n) && Whole(g, n) ==>
                  (var kids := Pruned(g, U - {n}, g.children(n).value);
                   Pruned(g, U, roots) == (head + kids.0 + [End(n)] + Pruned(g, kids.1, others).0, Pruned(g, kids.1, others).1)))
  {
    hide ValuesFit, ValueEvents, ShownValues;
  }

  lemma PrunedNone(g: Image, U: set<nat>)
    ensures Pruned(g, U, []) == ([], U)
  {
  }

  /** One root, case by case. */
  lemma PrunedOne(g: Image, U: set<nat>, n: nat)
    ensures n !in U ==> Pruned(g, U, [n]) == ([], U)
    ensures n in U && !g.named(n) ==> Pruned(g, U, [n]) == ([], U - {n})
    ensures var head := [Start(n)] + ValueEvents(n, ShownValues(g, n));
            (n in U && g.named(n) && !Whole(g, n) ==> Pruned(g, U, [n]) == (head, U - {n}))
            && (n in U && g.named(n) && Whole(g, n) ==>
                  (var kids := Pruned(g, U - {n}, g.children(n).value); Pruned(g, U, [n]) == (head + kids.0 + [End(n)], kids.1)))
  {
    hide Whole, ValueEvents, ShownValues, Pruned;
    PrunedStep(g, U, [n]);
    assert [n][1..] == [];
    PrunedNone(g, U);
    PrunedNone(g, U - {n});
    var head := [Start(n)] + ValueEvents(n, ShownValues(g, n));
    assert head + [] == head;
    if n in U && g.named(n) && Whole(g, n) {
      var kids := KidsPruned(g, U, n);
      PrunedNone(g, kids.1);
      assert head + kids.0 + [End(n)] + [] == head + kids.0 + [End(n)];
    }
  }

  lemma KidsPruned(g: Image, U: set<nat>, n: nat) returns (kids: (seq<Event>, set<nat>))
    requires Whole(g, n)
    ensures g.children(n).Ok? && kids == Pruned(g, U - {n}, g.children(n).value)
  {
    hide Pruned;
    kids := Pruned(g, U - {n}, g.children(n).value);
  }

  /** A list of roots is its first root, then the others on what that leaves. */
  lemma PrunedCons(g: Image, U: set<nat>, roots: seq<nat>)
    requires roots != []
    ensures var one := Pruned(g, U, [roots[0]]);
            var rest := Pruned(g, one.1, roots[1..]);
            Pruned(g, U, roots) == (one.0 + rest.0, rest.1)
  {
    hide Whole, ValueEvents, ShownValues, Pruned;
    PrunedStep(g, U, roots);
    PrunedOne(g, U, roots[0]);
    var one := Pruned(g, U, [roots[0]]);
    var rest := Pruned(g, one.1, roots[1..]);
    assert [] + rest.0 == rest.0;
  }

  /** A visit with SKIP_BAD whose events are those of p: completed, or stopped at the first event refused. */
  ghost predicate Skipped(refuse: seq<Event> -> bool, p: (seq<Event>, set<nat>), t: seq<Event>, ok: bool, u': seq<bv8>, t': seq<Event>) {
    Ran(refuse, t, p.0, ok, t') && (ok ==> Marks(u') == p.1)
  }

  /** Seen before, without a name, or refused at its start. */
  lemma SkipEarly(g: Image, refuse: seq<Event> -> bool, u: seq<bv8>, u1: seq<bv8>, n: nat, t: seq<Event>)
    requires n in Marks(u) ==> Marks(u1) == Marks(u) - {n}
    ensures n !in Marks(u) ==> Skipped(refuse, Pruned(g, Marks(u), [n]), t, true, u, t)
    ensures n in Marks(u) && !g.named(n) ==> Skipped(refuse, Pruned(g, Marks(u), [n]), t, true, u1, t)
    ensures (n in Marks(u) && g.named(n) && refuse(t + [Start(n)])) ==>
              Skipped(refuse, Pruned(g, Marks(u), [n]), t, false, u1, t + [Start(n)])
  {
    hide Marks, Ran, Pruned, ShownValues, ValueEvents, Whole;
    PrunedOne(g, Marks(u), n);
    RanNone(refuse, t);
    if n in Marks(u) && g.named(n) && refuse(t + [Start(n)]) {
      RanOne(refuse, t, Start(n));
      var shown := ValueEvents(n, ShownValues(g, n));
      RanStop(refuse, t, [Start(n)], t + [Start(n)], shown);
      if Whole(g, n) {
        var kids := KidsPruned(g, Marks(u), n);
        RanStop(refuse, t, [Start(n)] + shown, t + [Start(n)], kids.0);
        RanStop(refuse, t, [Start(n)] + shown + kids.0, t + [Start(n)], [End(n)]);
      }
    }
  }

  /** Refused at a value, or at fault in values or children. */
  lemma SkipFault(g: Image, refuse: seq<Event> -> bool, u: seq<bv8>, u1: seq<bv8>, n: nat, t: seq<Event>, ok: bool, t2: seq<Event>)
    requires n in Marks(u) && Marks(u1) == Marks(u) - {n} && g.named(n) && !refuse(t + [Start(n)])
    requires Ran(refuse, t + [Start(n)], ValueEvents(n, ShownValues(g, n)), ok, t2)
    ensures Ran(refuse, t, [Start(n)] + ValueEvents(n, ShownValues(g, n)), ok, t2)
    ensures !ok ==> Skipped(refuse, Pruned(g, Marks(u), [n]), t, false, u1, t2)
    ensures ok && !Whole(g, n) ==> Skipped(refuse, Pruned(g, Marks(u), [n]), t, true, u1, t2)
  {
    hide Marks, Ran, Pruned, ShownValues, ValueEvents, Whole;
    PrunedOne(g, Marks(u), n);
    RanOne(refuse, t, Start(n));
    var head := [Start(n)] + ValueEvents(n, ShownValues(g, n));
    RanThen(refuse, t, [Start(n)], t + [Start(n)], ValueEvents(n, ShownValues(g, n)), ok, t2);
    if !ok && Whole(g, n) {
      var kids := KidsPruned(g, Marks(u), n);
      RanStop(refuse, t, head, t2, kids.0);
      RanStop(refuse, t, head + kids.0, t2, [End(n)]);
    }
  }

  /** Without fault: its children, then its end. */
  lemma SkipWhole(g: Image, refuse: seq<Event> -> bool, u: seq<bv8>, u1: seq<bv8>, n: nat, t: seq<Event>, t2: seq<Event>,
                  ok: bool, u2: seq<bv8>, t3: seq<Event>)
    requires n in Marks(u) && Marks(u1) == Marks(u) - {n} && g.named(n) && Whole(g, n) && g.children(n).Ok?
    requires Ran(refuse, t, [Start(n)] + ValueEvents(n, ShownValues(g, n)), true, t2)
    requires Skipped(refuse, Pruned(g, Marks(u1), g.children(n).value), t2, ok, u2, t3)
    ensures !ok ==> Skipped(refuse, Pruned(g, Marks(u), [n]), t, false, u2, t3)
    ensures ok ==> Skipped(refuse, Pruned(g, Marks(u), [n]), t, !refuse(t3 + [End(n)]), u2, t3 + [End(n)])
  {
    hide Marks, Ran, Pruned, ShownValues, ValueEvents, Whole;
    PrunedOne(g, Marks(u), n);
    var head, kids := [Start(n)] + ValueEvents(n, ShownValues(g, n)), Pruned(g, Marks(u1), g.children(n).value);
    RanThen(refuse, t, head, t2, kids.0, ok, t3);
    if ok {
      RanOne(refuse, t3, End(n));
      RanThen(refuse, t, head + kids.0, t3, [End(n)], !refuse(t3 + [End(n)]), t3 + [End(n)]);
    } else {
      RanStop(refuse, t, head + kids.0, t3, [End(n)]);
    }
  }

  /** On a tree without faults nothing is pruned. */
  lemma {:induction false} PrunedWhole(g: Image, U: set<nat>, f: Forest)
    requires Fits(g, f) && Once(f) && Nodes(f) <= U
    ensures Pruned(g, U, Roots(f)) == (Trace(g, f), U - Nodes(f))
  {
    hide ValueEvents;
    match f
    case Nil =>
      assert U - Nodes(f) == U;
    case Cons(n, kids, rest) =>
      assert Roots(f)[0] == n && Roots(f)[1..] == Roots(rest);
      ShownAll(g, n);
      PrunedStep(g, U, Roots(f));
      hide Pruned, ShownValues;
      PrunedWhole(g, U - {n}, kids);
      PrunedWhole(g, U - {n} - Nodes(kids), rest);
      assert U - {n} - Nodes(kids) - Nodes(rest) == U - Nodes(f);
  }

  lemma ShownAll(g: Image, n: nat)
    requires ValuesFit(g, n)
    ensures ShownValues(g, n) == g.values(n).value
  {
    var values := g.values(n).value;
    assert values[..|values|] == values;
    GoodPrefixIs(g, values, |values|);
  }

  /** What the visit with SKIP_BAD reaches: every root, every child of a node without faults; every node it reaches is
      started if it has a name, and ended exactly if it has no fault. */
  ghost predicate Reaches(g: Image, U: set<nat>, roots: seq<nat>, ev: seq<Event>, U': set<nat>) {
    (forall r :: r in roots ==> r !in U')
    && (forall n :: Start(n) in ev <==> n in U && n !in U' && g.named(n))
    && (forall n :: End(n) in ev <==> n in U && n !in U' && ValuesFit(g, n) && g.children(n).Ok?)
    && (forall n, c :: End(n) in ev && g.children(n).Ok? && c in g.children(n).value ==> c !in U')
  }

  lemma {:induction false} PrunedReaches(g: Image, U: set<nat>, roots: seq<nat>)
    ensures Reaches(g, U, roots, Pruned(g, U, roots).0, Pruned(g, U, roots).1)
    decreases U, |roots|
  {
    if roots != [] {
      var n, others := roots[0], roots[1..];
      if n !in U {
        PrunedReaches(g, U, others);
      } else {
        NoMarksInValues(n, ShownValues(g, n));
        var head := [Start(n)] + ValueEvents(n, ShownValues(g, n));
        hide ValueEvents, ShownValues, ValuesFit;
        if !g.named(n) {
          PrunedReaches(g, U - {n}, others);
          Unnamed(g, n);
        } else if !ValuesFit(g, n) || g.children(n).Err? {
          PrunedReaches(g, U - {n}, others);
        } else {
          var kids := Pruned(g, U - {n}, g.children(n).value);
          PrunedReaches(g, U - {n}, g.children(n).value);
          PrunedReaches(g, kids.1, others);
        }
      }
    }
  }

  lemma Unnamed(g: Image, n: nat)
    requires !g.named(n)
    ensures !ValuesFit(g, n)
  {
  }

  lemma {:induction false} NoMarksInValues(n: nat, values: seq<nat>)
    ensures forall m :: Start(m) !in ValueEvents(n, values) && End(m) !in ValueEvents(n, values)
  {
    if values != [] { NoMarksInValues(n, values[..|values| - 1]); }
  }

  /** A forest that the walk over `roots` can complete: all readable, no node twice, none visited, no callback refuses. */
  ghost predicate Completes(g: Image, f: Forest, roots: seq<nat>, u: seq<bv8>, refuse: seq<Event> -> bool, before: seq<Event>) {
    Fits(g, f) && Roots(f) == roots && Once(f) && Nodes(f) <= Marks(u) && Accepts(refuse, before, Trace(g, f))
  }

  /** The walk over `roots` was the forest f, whole and in order. */
  ghost predicate Visited(g: Image, refuse: seq<Event> -> bool, f: Forest, roots: seq<nat>, u: seq<bv8>, t: seq<Event>,
                          u': seq<bv8>, t': seq<Event>) {
    Fits(g, f) && Roots(f) == roots && Once(f) && Nodes(f) <= Marks(u) && Marks(u') == Marks(u) - Nodes(f)
    && t' == t + Trace(g, f) && Accepts(refuse, t, Trace(g, f))
  }

  /** What holds of every walk, whole or not: bits only go away, and a node is started once, when its bit goes. */
  ghost predicate Progress(u: seq<bv8>, t: seq<Event>, u': seq<bv8>, t': seq<Event>) {
    |u'| == |u| && Marks(u') <= Marks(u) && t <= t' && OnceIn(t'[|t|..], Marks(u) - Marks(u'))
  }

  lemma ProgressTrans(u: seq<bv8>, t: seq<Event>, u1: seq<bv8>, t1: seq<Event>, u2: seq<bv8>, t2: seq<Event>)
    requires Progress(u, t, u1, t1) && Progress(u1, t1, u2, t2)
    ensures Progress(u, t, u2, t2)
  {
    hide Marks, OnceIn;
    OnceCat(t1[|t|..], t2[|t1|..], Marks(u) - Marks(u1), Marks(u1) - Marks(u2));
    assert t2[|t|..] == t1[|t|..] + t2[|t1|..];
    assert Marks(u) - Marks(u2) == (Marks(u) - Marks(u1)) + (Marks(u1) - Marks(u2));
  }

  /** Events that start no node. */
  lemma ProgressQuiet(u: seq<bv8>, t: seq<Event>, ev: seq<Event>)
    requires OnceIn(ev, {})
    ensures Progress(u, t, u, t + ev)
  {
    hide Marks;
    assert (t + ev)[|t|..] == ev;
    assert Marks(u) - Marks(u) == {};
  }

  /** A node's own bit goes, then it is started. */
  lemma ProgressStart(u: seq<bv8>, t: seq<Event>, n: nat)
    requires n in Marks(u)
    ensures n < 32 * |u| && Progress(u, t, Clr(u, n), t) && Progress(u, t, Clr(u, n), t + [Start(n)])
  {
    MarksCleared(u, n);
    hide Marks, Clr;
    assert (t + [Start(n)])[|t|..] == [Start(n)];
    assert t[|t|..] == [];
    assert Marks(u) - Marks(Clr(u, n)) == {n};
  }

  function Append(f: Forest, f': Forest): Forest {
    match f case Nil => f' case Cons(n, kids, rest) => Cons(n, kids, Append(rest, f'))
  }

  lemma {:induction false} AppendParts(f: Forest, f': Forest)
    ensures Roots(Append(f, f')) == Roots(f) + Roots(f') && Nodes(Append(f, f')) == Nodes(f) + Nodes(f')
    ensures Once(f) && Once(f') && Nodes(f) !! Nodes(f') ==> Once(Append(f, f'))
  {
    if f.Cons? { AppendParts(f.rest, f'); }
  }

  lemma {:induction false} AppendTrace(g: Image, f: Forest, f': Forest)
    requires Fits(g, f) && Fits(g, f')
    ensures Fits(g, Append(f, f')) && Trace(g, Append(f, f')) == Trace(g, f) + Trace(g, f')
  {
    if f.Cons? { AppendTrace(g, f.rest, f'); }
  }

  lemma {:induction false} AppendMove(f: Forest, n: nat, kids: Forest, rest: Forest)
    ensures Append(Append(f, Cons(n, kids, Nil)), rest) == Append(f, Cons(n, kids, rest))
  {
    if f.Cons? { AppendMove(f.rest, n, kids, rest); }
  }

  lemma {:induction false} AppendNil(f: Forest)
    ensures Append(f, Nil) == f
  {
    if f.Cons? { AppendNil(f.rest); }
  }

  lemma VisitedAppend(g: Image, refuse: seq<Event> -> bool, f: Forest, f': Forest, r: seq<nat>, r': seq<nat>, u: seq<bv8>, t: seq<Event>,
                      u1: seq<bv8>, t1: seq<Event>, u2: seq<bv8>, t2: seq<Event>)
    requires Visited(g, refuse, f, r, u, t, u1, t1) && Visited(g, refuse, f', r', u1, t1, u2, t2)
    ensures Visited(g, refuse, Append(f, f'), r + r', u, t, u2, t2)
  {
    hide Marks, Once, Fits, Nodes, Roots, Trace, Append, Accepts;
    AppendParts(f, f');
    AppendTrace(g, f, f');
    AcceptsJoin(refuse, t, Trace(g, f), Trace(g, f'));
  }

  /** A node with its children visited, between its start and its end. */
  lemma VisitedNode(g: Image, refuse: seq<Event> -> bool, n: nat, kids: Forest, u: seq<bv8>, t: seq<Event>,
                    u1: seq<bv8>, t1: seq<Event>, u2: seq<bv8>, t2: seq<Event>)
    requires n in Marks(u) && Marks(u1) == Marks(u) - {n} && ValuesFit(g, n) && g.children(n) == Ok(Roots(kids))
    requires t1 == t + [Start(n)] + ValueEvents(n, g.values(n).value) && Visited(g, refuse, kids, Roots(kids), u1, t1, u2, t2)
    requires !refuse(t + [Start(n)]) && Accepts(refuse, t + [Start(n)], ValueEvents(n, g.values(n).value)) && !refuse(t2 + [End(n)])
    ensures Visited(g, refuse, Cons(n, kids, Nil), [n], u, t, u2, t2 + [End(n)])
  {
    hide Marks, ValueEvents, Accepts;
    assert Roots(Cons(n, kids, Nil)) == [n];
    assert Nodes(Cons(n, kids, Nil)) == {n} + Nodes(kids);
    var f := Cons(n, kids, Nil);
    assert Once(f);
    assert Fits(g, f);
    assert Trace(g, f) == ([Start(n)] + ValueEvents(n, g.values(n).value)) + Trace(g, kids) + [End(n)];
    assert t2 + [End(n)] == t + Trace(g, f);
    AcceptsOne(refuse, t, Start(n));
    AcceptsJoin(refuse, t, [Start(n)], ValueEvents(n, g.values(n).value));
    var head := [Start(n)] + ValueEvents(n, g.values(n).value);
    assert t1 == t + head;
    AcceptsJoin(refuse, t, head, Trace(g, kids));
    assert t2 == t + (head + Trace(g, kids));
    AcceptsOne(refuse, t2, End(n));
    AcceptsJoin(refuse, t, head + Trace(g, kids), [End(n)]);
  }

  lemma FirstTree(g: Image, w: Forest)
    requires w.Cons? && Fits(g, w) && Once(w)
    ensures var tree := Cons(w.n, w.kids, Nil);
            w == Append(tree, w.rest) && Fits(g, tree) && Once(tree) && Roots(tree) == [w.n] && Nodes(tree) == {w.n} + Nodes(w.kids)
    ensures Fits(g, w.rest) && Once(w.rest) && Nodes(w.rest) !! {w.n} + Nodes(w.kids)
  {
    hide ValuesFit;
    assert Roots(Nil) == [] && Nodes(Nil) == {} && Once(Nil) && Fits(g, Nil);
  }

  /** A forest over roots is a tree over the first and a forest over the others. */
  lemma CompletesHead(g: Image, w: Forest, roots: seq<nat>, u: seq<bv8>, refuse: seq<Event> -> bool, t: seq<Event>)
    requires Completes(g, w, roots, u, refuse, t) && roots != []
    ensures w.Cons? && Completes(g, Cons(w.n, w.kids, Nil), [roots[0]], u, refuse, t)
    ensures forall u', t' :: Visited(g, refuse, Cons(w.n, w.kids, Nil), [roots[0]], u, t, u', t') ==>
                               Completes(g, w.rest, roots[1..], u', refuse, t')
  {
    hide Marks, Accepts, ValuesFit, ValueEvents, Trace;
    assert Roots(w)[0] == w.n && Roots(w)[1..] == Roots(w.rest);
    FirstTree(g, w);
    hide Fits, Roots, Nodes, Once;
    AppendParts(Cons(w.n, w.kids, Nil), w.rest);
    AppendTrace(g, Cons(w.n, w.kids, Nil), w.rest);
    AcceptsCat(refuse, t, Trace(g, Cons(w.n, w.kids, Nil)), Trace(g, w.rest));
  }

  /** A tree that can be completed: its node is unvisited and readable, and so its children's trees can be. */
  lemma CompletesNode(g: Image, w: Forest, n: nat, u: seq<bv8>, u1: seq<bv8>, refuse: seq<Event> -> bool, t: seq<Event>)
    requires Completes(g, w, [n], u, refuse, t) && (n in Marks(u) ==> Marks(u1) == Marks(u) - {n})
    ensures w == Cons(n, w.kids, Nil) && n in Marks(u) && ValuesFit(g, n) && g.children(n) == Ok(Roots(w.kids))
    ensures var t1, v := t + [Start(n)], ValueEvents(n, g.values(n).value);
            !refuse(t1) && Accepts(refuse, t1, v) && Completes(g, w.kids, Roots(w.kids), u1, refuse, t1 + v)
            && !refuse(t1 + v + Trace(g, w.kids) + [End(n)])
  {
    hide Marks, Accepts, ValueEvents;
    assert w.Cons? && w.n == Roots(w)[0] && Roots(w.rest) == Roots(w)[1..] == [];
    assert w.rest.Nil?;
    var v, k := ValueEvents(n, g.values(n).value), Trace(g, w.kids);
    assert Trace(g, w) == [Start(n)] + (v + (k + [End(n)]));
    AcceptsCat(refuse, t, [Start(n)], v + (k + [End(n)]));
    AcceptsOne(refuse, t, Start(n));
    AcceptsCat(refuse, t + [Start(n)], v, k + [End(n)]);
    AcceptsCat(refuse, t + [Start(n)] + v, k, [End(n)]);
    AcceptsOne(refuse, t + [Start(n)] + v + k, End(n));
  }

  /** A walk over a hive through its readers, or (h == null) over given answers. */
  class Walk {
    const h: Hive?
    const given: Image
    ghost const g: Image                  // the answers, whoever gives them
    const skipBad: bool
    const refuse: seq<Event> -> bool      // a callback returns -1 after these events
    var unvisited: seq<bv8>
    var trace: seq<Event>

    constructor (image: Image, bitmap: seq<bv8>, skip: bool, callbacks: seq<Event> -> bool)
      ensures g == image && unvisited == bitmap && skipBad == skip && refuse == callbacks && trace == [] && h == null && Ready()
    {
      h, given, g, unvisited, skipBad, refuse, trace := null, image, image, bitmap, skip, callbacks, [];
    }

    constructor OnHive(hive: Hive, skip: bool, callbacks: seq<Event> -> bool)
      requires hive.HeapOk()
      ensures h == hive && g == ImageOf(hive.addr, hive.bitmap) && Ready()
      ensures unvisited == hive.bitmap && skipBad == skip && refuse == callbacks && trace == []
    {
      h, unvisited, skipBad, refuse, trace := hive, hive.bitmap, skip, callbacks, [];
      given, g := Image(_ => false, _ => Err(EINVAL), _ => false, _ => Err(EINVAL)), ImageOf(hive.addr, hive.bitmap);
    }

    ghost predicate Ready()
      reads h
    {
      if h == null then g == given else h.HeapOk() && g == ImageOf(h.addr, h.bitmap)
    }

    method Named(n: nat) returns (ok: bool)
      requires Ready()
      ensures ok == g.named(n)
    {
      hide Hive.HeapOk, NameGood;
      if h == null {
        return given.named(n);
      }
      var name := NodeName(h, n);
      return name.Ok?;
    }

    method Values(n: nat) returns (r: Result<seq<nat>>)
      requires Ready()
      ensures r.Ok? == g.values(n).Ok? && (r.Ok? ==> r.value == g.values(n).value)
    {
      hide Hive.HeapOk, ValuesGood, ValuesOf;
      if h == null {
        return given.values(n);
      }
      var got := GetValues(h, n, map[], []);
      match got
      case Err(e) => return Err(e);
      case Ok((values, _)) => return Ok(values);
    }

    method CanRead(k: nat) returns (ok: bool)
      requires Ready()
      ensures ok == g.readable(k)
    {
      hide Hive.HeapOk, KeyGood, DataGood;
      if h == null {
        return given.readable(k);
      }
      var key := ValueKey(h, k);
      if key.Err? {
        return false;
      }
      var data := ValueValue(h, k, map[], 0, 0, Registry.Value([], 0, []));
      return data.Ok? || Tolerant(h.addr, k);
    }

    method Children(n: nat) returns (r: Result<seq<nat>>)
      requires Ready()
      ensures r.Ok? == g.children(n).Ok? && (r.Ok? ==> r.value == g.children(n).value)
    {
      hide Hive.HeapOk, ChildrenGood, ChildrenOf;
      if h == null {
        return given.children(n);
      }
      var got := GetChildren(h, n, true, map[], []);
      match got
      case Err(e) => return Err(e);
      case Ok((kids, _)) => return Ok(kids);
    }

    method Emit(e: Event) returns (ok: bool)
      modifies this`trace
      ensures trace == old(trace) + [e] && ok == !refuse(trace)
    {
      trace := trace + [e];
      return !refuse(trace);
    }

    method VisitValues(n: nat) returns (ok: bool, bad: bool)
      requires Ready()
      modifies this`trace
      ensures old(trace) <= trace && OnceIn(trace[|old(trace)|..], {})
      ensures ok && !bad ==> g.values(n).Ok? && (forall k :: k in g.values(n).value ==> g.readable(k))
                             && trace == old(trace) + ValueEvents(n, g.values(n).value)
                             && Accepts(refuse, old(trace), ValueEvents(n, g.values(n).value))
      ensures g.named(n) && ValuesFit(g, n) && Accepts(refuse, old(trace), ValueEvents(n, g.values(n).value)) ==> ok && !bad
      ensures Ran(refuse, old(trace), ValueEvents(n, ShownValues(g, n)), ok, trace)
      ensures ok ==> (bad <==> !(g.values(n).Ok? && forall k :: k in g.values(n).value ==> g.readable(k)))
    {
      hide Ready, ValueEvents, Accepts, OnceIn, Ran, GoodPrefix;
      var got := Values(n);
      NoValues(trace, n);
      match got
      case Err(_) => return true, true;
      case Ok(values) =>
        for i := 0 to |values|
          invariant trace == old(trace) + ValueEvents(n, values[..i]) && OnceIn(trace[|old(trace)|..], {})
          invariant forall k :: k in values[..i] ==> g.readable(k)
          invariant Accepts(refuse, old(trace), ValueEvents(n, values[..i]))
          invariant Ran(refuse, old(trace), ValueEvents(n, values[..i]), true, trace)
        {
          var readable := CanRead(values[i]);
          if !readable {
            GoodPrefixIs(g, values, i);
            return true, true;
          }
          ValueStep(old(trace), n, values, i);
          ghost var before := trace;
          ok := Emit(Val(n, values[i]));
          RanValue(old(trace), n, values, i, before, ok, trace);
          if !ok {
            RanShort(old(trace), n, values, i + 1, trace);
            return false, false;
          }
        }
        assert values[..|values|] == values;
        GoodPrefixIs(g, values, |values|);
        return true, false;
    }

    lemma NoValues(t: seq<Event>, n: nat)
      ensures t + ValueEvents(n, []) == t && OnceIn(t[|t|..], {}) && Accepts(refuse, t, ValueEvents(n, []))
      ensures Ran(refuse, t, ValueEvents(n, []), true, t)
    {
    }

    lemma RanValue(t: seq<Event>, n: nat, values: seq<nat>, i: nat, before: seq<Event>, ok: bool, now: seq<Event>)
      requires i < |values| && Ran(refuse, t, ValueEvents(n, values[..i]), true, before)
      requires now == before + [Val(n, values[i])] && ok == !refuse(now)
      ensures Ran(refuse, t, ValueEvents(n, values[..i + 1]), ok, now)
    {
      assert values[..i + 1][..i] == values[..i];
      assert ValueEvents(n, values[..i + 1]) == ValueEvents(n, values[..i]) + [Val(n, values[i])];
      hide Ran, ValueEvents;
      RanOne(refuse, before, Val(n, values[i]));
      RanThen(refuse, t, ValueEvents(n, values[..i]), before, [Val(n, values[i])], ok, now);
    }

    /** Refused at a value before the first fault. */
    lemma RanShort(t: seq<Event>, n: nat, values: seq<nat>, i: nat, now: seq<Event>)
      requires i <= |values| && Ran(refuse, t, ValueEvents(n, values[..i]), false, now) && forall k :: k in values[..i] ==> g.readable(k)
      ensures Ran(refuse, t, ValueEvents(n, GoodPrefix(g, values)), false, now)
    {
      hide Ran, ValueEvents;
      var good := GoodPrefix(g, values);
      GoodPrefixHas(g, values, i);
      ValuePrefix(n, good, i);
      var all := ValueEvents(n, good);
      assert all == all[..i] + all[i..];
      RanStop(refuse, t, all[..i], now, all[i..]);
    }

    /** One more value, after t and the values before it. */
    lemma ValueStep(t: seq<Event>, n: nat, values: seq<nat>, i: nat)
      requires i < |values|
      ensures var before, now := t + ValueEvents(n, values[..i]), t + ValueEvents(n, values[..i + 1]);
              now == before + [Val(n, values[i])] && OnceIn(now[|t|..], {})
              && (Accepts(refuse, t, ValueEvents(n, values)) ==> !refuse(now))
              && (Accepts(refuse, t, ValueEvents(n, values[..i])) && !refuse(now) ==> Accepts(refuse, t, ValueEvents(n, values[..i + 1])))
    {
      var part, e := ValueEvents(n, values[..i]), Val(n, values[i]);
      assert values[..i + 1][..i] == values[..i];
      assert ValueEvents(n, values[..i + 1]) == part + [e];
      NoStarts(n, values[..i + 1]);
      hide ValueEvents, Accepts, OnceIn;
      assert t + (part + [e]) == t + part + [e];
      assert (t + (part + [e]))[|t|..] == part + [e];
      if Accepts(refuse, t, ValueEvents(n, values)) { PrefixAccepted(t, n, values, i); }
      AcceptsOne(refuse, t + part, e);
      if Accepts(refuse, t, part) && !refuse(t + part + [e]) { AcceptsJoin(refuse, t, part, [e]); }
    }

    lemma PrefixAccepted(before: seq<Event>, n: nat, values: seq<nat>, i: nat)
      requires i < |values| && Accepts(refuse, before, ValueEvents(n, values))
      ensures !refuse(before + ValueEvents(n, values[..i + 1]))
    {
      hide ValueEvents;
      ValuePrefix(n, values, i + 1);
      ValuePrefix(n, values[..i + 1], i + 1);
    }

    /** hivex__visit_node; ghost w is a guess at the tree below n, ghost f the tree visited. */
    method VisitNode(n: nat, ghost w: Forest) returns (ok: bool, ghost f: Forest)
      requires Ready() && InRange(g, |unvisited|) && n < 32 * |unvisited| && n % 4 == 0
      modifies this`trace, this`unvisited
      ensures Progress(old(unvisited), old(trace), unvisited, trace)
      ensures ok && !skipBad ==> Visited(g, refuse, f, [n], old(unvisited), old(trace), unvisited, trace)
      ensures old(Completes(g, w, [n], unvisited, refuse, trace)) ==>
                ok && f == w && Visited(g, refuse, f, [n], old(unvisited), old(trace), unvisited, trace)
      ensures skipBad ==> Skipped(refuse, Pruned(g, Marks(old(unvisited)), [n]), old(trace), ok, unvisited, trace)
      decreases Marks(unvisited), 0
    {
      hide Marks, Tst, Clr, Completes, Visited, Progress, Accepts, OnceIn, ValueEvents, Trace, Fits, Roots, Ready,
        Skipped, Pruned, Ran, ShownValues;
      f := Nil;
      ghost var u, t := unvisited, trace;
      ghost var whole := Completes(g, w, [n], u, refuse, t);
      TestMark(u, n);
      SkipEarly(g, refuse, u, Clr(u, n), n, t);
      ProgressNone(u, t);
      if whole { CompletesNode(g, w, n, u, Clr(u, n), refuse, t); }
      if !Tst(unvisited, n) {
        return skipBad, f;
      }
      unvisited := Clr(unvisited, n);
      ProgressStart(u, t, n);
      var named := Named(n);
      if !named {
        return skipBad, f;
      }
      ok := Emit(Start(n));
      if !ok {
        return false, f;
      }
      ghost var u1, t1 := unvisited, trace;
      var bad;
      ok, bad := VisitValues(n);
      QuietSince(u1, t1, trace);
      ProgressTrans(u, t, u1, t1, u1, trace);
      SkipFault(g, refuse, u, u1, n, t, ok, trace);
      if !ok || bad {
        return ok && skipBad, f;
      }
      ghost var t2 := trace;
      var children := Children(n);
      match children
      case Err(_) => return skipBad, f;
      case Ok(kids) =>
        ghost var fk;
        ok, fk := VisitKids(kids, if whole then w.kids else Nil);
        ProgressTrans(u, t, u1, t2, unvisited, trace);
        if skipBad { SkipWhole(g, refuse, u, u1, n, t, t2, ok, unvisited, trace); }
        if !ok {
          return false, f;
        }
        ghost var t3 := trace;
        EndQuiet(unvisited, t3, n);
        if whole { VisitedTrace(g, refuse, fk, kids, u1, t2, unvisited, t3); }
        ok := Emit(End(n));
        ProgressTrans(u, t, unvisited, t3, unvisited, trace);
        f := Cons(n, fk, Nil);
        assert ValuesFit(g, n) by { AllValues(n); }
        if ok && (!skipBad || whole) { WholeNode(n, fk, kids, u, t, u1, t2, unvisited, t3); }
    }

    lemma AllValues(n: nat)
      requires g.named(n) && g.values(n).Ok? && forall k :: k in g.values(n).value ==> g.readable(k)
      ensures ValuesFit(g, n)
    {
    }

    lemma WholeNode(n: nat, fk: Forest, kids: seq<nat>, u: seq<bv8>, t: seq<Event>,
                    u1: seq<bv8>, t1: seq<Event>, u2: seq<bv8>, t2: seq<Event>)
      requires n in Marks(u) && Marks(u1) == Marks(u) - {n} && ValuesFit(g, n) && g.children(n) == Ok(kids)
      requires t1 == t + [Start(n)] + ValueEvents(n, g.values(n).value) && Visited(g, refuse, fk, kids, u1, t1, u2, t2)
      requires !refuse(t + [Start(n)]) && Accepts(refuse, t + [Start(n)], ValueEvents(n, g.values(n).value)) && !refuse(t2 + [End(n)])
      ensures Visited(g, refuse, Cons(n, fk, Nil), [n], u, t, u2, t2 + [End(n)])
    {
      hide Marks, ValuesFit, ValueEvents, Fits, Trace, Nodes, Once, Accepts;
      VisitedNode(g, refuse, n, fk, u, t, u1, t1, u2, t2);
    }

    /** The loop over the children. */
    method VisitKids(kids: seq<nat>, ghost w: Forest) returns (ok: bool, ghost f: Forest)
      requires Ready() && InRange(g, |unvisited|) && forall k :: k in kids ==> k < 32 * |unvisited| && k % 4 == 0
      modifies this`trace, this`unvisited
      ensures Progress(old(unvisited), old(trace), unvisited, trace)
      ensures ok && !skipBad ==> Visited(g, refuse, f, kids, old(unvisited), old(trace), unvisited, trace)
      ensures old(Completes(g, w, kids, unvisited, refuse, trace)) ==>
                ok && f == w && Visited(g, refuse, f, kids, old(unvisited), old(trace), unvisited, trace)
      ensures skipBad ==> Skipped(refuse, Pruned(g, Marks(old(unvisited)), kids), old(trace), ok, unvisited, trace)
      decreases Marks(unvisited), 1
    {
      hide Marks, Tst, Completes, Visited, Progress, ValuesFit, Accepts, OnceIn, Trace, Fits, Append, Roots, Ready,
        Skipped, Pruned, Ran;
      f := Nil;
      ghost var u, t, rest := unvisited, trace, w;
      ghost var whole := Completes(g, w, kids, u, refuse, t);
      ProgressNone(u, t);
      NothingVisited(g, refuse, u, t, w);
      assert kids[0..] == kids;
      ghost var done: seq<Event> := [];
      SkipStart(u, t, kids);
      for i := 0 to |kids|
        invariant Progress(u, t, unvisited, trace) && |unvisited| == |u| && Marks(unvisited) <= Marks(u)
        invariant !skipBad || whole ==> Visited(g, refuse, f, kids[..i], u, t, unvisited, trace)
        invariant whole ==> Completes(g, rest, kids[i..], unvisited, refuse, trace) && Append(f, rest) == w
        invariant skipBad ==> SkipSoFar(u, t, kids, i, done, unvisited, trace)
      {
        ghost var u1, t1 := unvisited, trace;
        if whole { CompletesHead(g, rest, kids[i..], u1, refuse, t1); AppendMove(f, rest.n, rest.kids, rest.rest); }
        ghost var tree;
        assert kids[i] in kids;
        ok, tree := VisitNode(kids[i], if whole then Cons(rest.n, rest.kids, Nil) else Nil);
        ProgressTrans(u, t, u1, t1, unvisited, trace);
        Shrinks(u1, t1, unvisited, trace);
        if skipBad { done := SkipNext(u, t, kids, i, done, u1, t1, ok, unvisited, trace); }
        if !ok {
          return;
        }
        if !skipBad || whole { VisitedAppend(g, refuse, f, tree, kids[..i], [kids[i]], u, t, u1, t1, unvisited, trace); }
        assert kids[..i] + [kids[i]] == kids[..i + 1];
        f := Append(f, tree);
        if whole { rest := rest.rest; assert kids[i..][1..] == kids[i + 1..]; }
      }
      assert kids[..|kids|] == kids;
      if skipBad { SkipEnd(u, t, kids, done, unvisited, trace); }
      if whole { NoneLeft(g, rest, unvisited, trace); AppendNil(f); }
      return true, f;
    }

    /** The first i children have given the events `done`, and the others will give the rest. */
    ghost predicate SkipSoFar(u: seq<bv8>, t: seq<Event>, kids: seq<nat>, i: nat, done: seq<Event>, u': seq<bv8>, t': seq<Event>) {
      i <= |kids| && Ran(refuse, t, done, true, t')
      && (var rest := Pruned(g, Marks(u'), kids[i..]); Pruned(g, Marks(u), kids) == (done + rest.0, rest.1))
    }

    lemma SkipStart(u: seq<bv8>, t: seq<Event>, kids: seq<nat>)
      ensures SkipSoFar(u, t, kids, 0, [], u, t)
    {
      hide Pruned, Marks, Ran;
      RanNone(refuse, t);
      assert kids[0..] == kids;
      var p := Pruned(g, Marks(u), kids);
      assert [] + p.0 == p.0;
    }

    lemma SkipNext(u: seq<bv8>, t: seq<Event>, kids: seq<nat>, i: nat, done: seq<Event>, u1: seq<bv8>, t1: seq<Event>,
                   ok: bool, u2: seq<bv8>, t2: seq<Event>) returns (done': seq<Event>)
      requires i < |kids| && SkipSoFar(u, t, kids, i, done, u1, t1) && Skipped(refuse, Pruned(g, Marks(u1), [kids[i]]), t1, ok, u2, t2)
      ensures ok ==> SkipSoFar(u, t, kids, i + 1, done', u2, t2)
      ensures !ok ==> Skipped(refuse, Pruned(g, Marks(u), kids), t, false, u2, t2)
    {
      hide Pruned, Marks, Ran;
      PrunedCons(g, Marks(u1), kids[i..]);
      assert kids[i..][0] == kids[i] && kids[i..][1..] == kids[i + 1..];
      var one := Pruned(g, Marks(u1), [kids[i]]);
      var rest := Pruned(g, one.1, kids[i + 1..]);
      done' := done + one.0;
      RanThen(refuse, t, done, t1, one.0, ok, t2);
      assert done + (one.0 + rest.0) == done' + rest.0;
      if !ok { RanStop(refuse, t, done', t2, rest.0); }
    }

    lemma SkipEnd(u: seq<bv8>, t: seq<Event>, kids: seq<nat>, done: seq<Event>, u': seq<bv8>, t': seq<Event>)
      requires SkipSoFar(u, t, kids, |kids|, done, u', t')
      ensures Skipped(refuse, Pruned(g, Marks(u), kids), t, true, u', t')
    {
      hide Marks, Ran;
      assert kids[|kids|..] == [];
      PrunedNone(g, Marks(u'));
      hide Pruned;
      assert done + [] == done;
    }

    method VisitAll(n: nat) returns (ok: bool)
      requires Ready() && InRange(g, |unvisited|) && n < 32 * |unvisited| && n % 4 == 0 && trace == []
      modifies this`trace, this`unvisited
      ensures OnceIn(trace, Marks(old(unvisited)))
      ensures !skipBad ==> (ok <==> exists f :: Completes(g, f, [n], old(unvisited), refuse, []))
      ensures forall f :: Completes(g, f, [n], old(unvisited), refuse, []) ==> ok && trace == Trace(g, f)
      ensures skipBad ==> Ran(refuse, [], Pruned(g, Marks(old(unvisited)), [n]).0, ok, trace)
    {
      hide Marks, Fits, Trace, Once, Nodes, Accepts, OnceIn, Ready, InRange, Pruned, Ran;
      ghost var u, w := unvisited, Nil;
      if f :| Completes(g, f, [n], u, refuse, []) { w := f; }
      ghost var got;
      ok, got := VisitNode(n, w);
      assert trace[0..] == trace;
      OnceWithin(trace, Marks(u) - Marks(unvisited), Marks(u));
      if ok && !skipBad {
        assert Completes(g, got, [n], u, refuse, []);
      }
      forall f | Completes(g, f, [n], u, refuse, [])
        ensures ok && trace == Trace(g, f)
      {
        FitsUnique(g, f, w);
        assert [] + Trace(g, f) == Trace(g, f);
      }
    }

    lemma NoneLeft(g: Image, w: Forest, u: seq<bv8>, t: seq<Event>)
      requires Completes(g, w, [], u, refuse, t)
      ensures w == Nil
    {
    }
  }

  lemma Shrinks(u: seq<bv8>, t: seq<Event>, u': seq<bv8>, t': seq<Event>)
    requires Progress(u, t, u', t')
    ensures |u'| == |u| && Marks(u') <= Marks(u)
  {
  }

  lemma VisitedTrace(g: Image, refuse: seq<Event> -> bool, f: Forest, roots: seq<nat>, u: seq<bv8>, t: seq<Event>,
                     u': seq<bv8>, t': seq<Event>)
    requires Visited(g, refuse, f, roots, u, t, u', t')
    ensures Fits(g, f) && t' == t + Trace(g, f)
  {
  }

  lemma NothingVisited(g: Image, refuse: seq<Event> -> bool, u: seq<bv8>, t: seq<Event>, w: Forest)
    ensures Visited(g, refuse, Nil, [], u, t, u, t) && Append(Nil, w) == w
  {
  }

  lemma TestMark(u: seq<bv8>, n: nat)
    requires n < 32 * |u| && n % 4 == 0
    ensures Tst(u, n) <==> n in Marks(u)
    ensures n in Marks(u) ==> |Clr(u, n)| == |u| && Marks(Clr(u, n)) == Marks(u) - {n} && Marks(Clr(u, n)) < Marks(u)
  {
    if n in Marks(u) { MarksCleared(u, n); }
    hide Tst, Clr;
  }

  lemma QuietSince(u: seq<bv8>, t: seq<Event>, t': seq<Event>)
    requires t <= t' && OnceIn(t'[|t|..], {})
    ensures Progress(u, t, u, t')
  {
    hide Marks, OnceIn;
    ProgressQuiet(u, t, t'[|t|..]);
    assert t + t'[|t|..] == t';
  }

  lemma ProgressNone(u: seq<bv8>, t: seq<Event>)
    ensures Progress(u, t, u, t)
  {
    ProgressQuiet(u, t, []);
    assert t + [] == t;
  }

  lemma EndQuiet(u: seq<bv8>, t: seq<Event>, n: nat)
    ensures Progress(u, t, u, t + [End(n)])
  {
    ProgressQuiet(u, t, [End(n)]);
  }

  /** hivex_visit_node on given answers. Without SKIP_BAD it returns 0 exactly when what it reaches is a tree that can be
      read and that the callbacks accept, and then the calls were those of the depth-first order. */
  method VisitFrom(g: Image, bitmap: seq<bv8>, n: nat, skipBad: bool, refuse: seq<Event> -> bool)
    returns (ok: bool, trace: seq<Event>)
    requires InRange(g, |bitmap|) && n < 32 * |bitmap| && n % 4 == 0
    ensures OnceIn(trace, Marks(bitmap))
    ensures !skipBad ==> (ok <==> exists f :: Completes(g, f, [n], bitmap, refuse, []))
    ensures forall f :: Completes(g, f, [n], bitmap, refuse, []) ==> ok && trace == Trace(g, f)
    ensures skipBad ==> Ran(refuse, [], Pruned(g, Marks(bitmap), [n]).0, ok, trace)
  {
    hide Marks, Fits, Trace, Once, Nodes, Accepts, OnceIn, Completes, InRange, Pruned, Ran;
    var v := new Walk(g, bitmap, skipBad, refuse);
    ok := v.VisitAll(n);
    trace := v.trace;
  }

  /** hivex_visit_node on a hive, through its readers: the same, whatever its blocks hold. */
  method VisitHive(h: Hive, n: nat, skipBad: bool, refuse: seq<Event> -> bool) returns (ok: bool, trace: seq<Event>)
    requires h.HeapOk() && n < 32 * |h.bitmap| && n % 4 == 0
    ensures OnceIn(trace, Marks(h.bitmap))
    ensures !skipBad ==> (ok <==> exists f :: Completes(ImageOf(h.addr, h.bitmap), f, [n], h.bitmap, refuse, []))
    ensures forall f :: Completes(ImageOf(h.addr, h.bitmap), f, [n], h.bitmap, refuse, []) ==>
                          ok && trace == Trace(ImageOf(h.addr, h.bitmap), f)
    ensures skipBad ==> Ran(refuse, [], Pruned(ImageOf(h.addr, h.bitmap), Marks(h.bitmap), [n]).0, ok, trace)
  {
    hide Marks, Fits, Trace, Once, Nodes, Accepts, OnceIn, Completes, InRange, ImageOf, Hive.HeapOk, Pruned, Ran;
    ImageInRange(h.addr, h.bitmap);
    var v := new Walk.OnHive(h, skipBad, refuse);
    ok := v.VisitAll(n);
    trace := v.trace;
  }

  lemma OnceWithin(t: seq<Event>, S: set<nat>, T: set<nat>)
    requires OnceIn(t, S) && S <= T
    ensures OnceIn(t, T)
  {
  }

  lemma {:induction false} ValuePrefix(n: nat, values: seq<nat>, i: nat)
    requires i <= |values|
    ensures |ValueEvents(n, values)| == |values| && ValueEvents(n, values[..i]) == ValueEvents(n, values)[..i]
  {
    if i == |values| {
      assert values[..i] == values;
      if i > 0 { ValuePrefix(n, values[..i - 1], i - 1); }
    } else {
      ValuePrefix(n, values[..|values| - 1], i);
      assert values[..|values| - 1][..i] == values[..i];
    }
  }
}
