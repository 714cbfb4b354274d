/**
 The key of a closure (modules/tensorflow/backend.c, kput, key_leaf, closure_of_ and the suffix
 tfb_grad adds), character by character, and the cache it indexes.

 The point is unique readability: two structures with the same key are the same structure, so
 the entry compiled for one may be called for the other.
 */
module Keys {
  import opened Wrappers
  import opened Slots
  import opened Closures
  import opened Decimals

  // ---- cutting a text at the first character outside a class --------------------------

  predicate IsDec(c: char) { '0' <= c <= '9' || c == '-' }

  /** The characters of an operation's or attribute's name. */
  predicate IsName(c: char) { 'a' <= c <= 'z' || 'A' <= c <= 'Z' || '0' <= c <= '9' || c == '_' }

  predicate All(s: string, p: char -> bool) {
    forall i :: 0 <= i < |s| ==> p(s[i])
  }

  lemma {:induction false} SpanCut(p: char -> bool, a: string, b: string, r: string, s: string)
    requires All(a, p) && All(b, p)
    requires r == [] || !p(r[0])
    requires s == [] || !p(s[0])
    requires a + r == b + s
    ensures a == b && r == s
  {
    if a != [] && b != [] {
      assert a[0] == (a + r)[0] == (b + s)[0] == b[0];
      assert a[1..] + r == (a + r)[1..] && b[1..] + s == (b + s)[1..];
      SpanCut(p, a[1..], b[1..], r, s);
    } else {
      assert (a == [] ==> a + r == r) && (b == [] ==> b + s == s);
    }
  }

  /** The same first character on both sides comes off. */
  lemma HeadCut(c: char, r: string, s: string)
    requires [c] + r == [c] + s
    ensures r == s
  {
    assert r == ([c] + r)[1..] && s == ([c] + s)[1..];
  }

  lemma DecCut(m: int, n: int, r: string, s: string)
    requires r == [] || !IsDec(r[0])
    requires s == [] || !IsDec(s[0])
    requires Dec(m) + r == Dec(n) + s
    ensures m == n && r == s
  {
    SpanCut(IsDec, Dec(m), Dec(n), r, s);
    DecInjective(m, n);
  }

  // ---- the pieces of a key, each printed in front of the rest --------------------------

  function IntsText(xs: seq<int>, rest: string): string {
    if xs == [] then rest else Dec(xs[0]) + ([','] + IntsText(xs[1..], rest))
  }

  /** A text that a list of numbers cannot begin. */
  predicate AfterInts(r: string) {
    r != [] && !IsDec(r[0])
  }

  lemma {:induction false} IntsCut(xs: seq<int>, ys: seq<int>, r: string, s: string)
    requires AfterInts(r) && AfterInts(s)
    requires IntsText(xs, r) == IntsText(ys, s)
    ensures xs == ys && r == s
    decreases |xs|
  {
    assert xs != [] ==> IntsText(xs, r)[0] == Dec(xs[0])[0];
    assert ys != [] ==> IntsText(ys, s)[0] == Dec(ys[0])[0];
    if xs != [] && ys != [] {
      var r1, s1 := IntsText(xs[1..], r), IntsText(ys[1..], s);
      DecCut(xs[0], ys[0], [','] + r1, [','] + s1);
      HeadCut(',', r1, s1);
      IntsCut(xs[1..], ys[1..], r, s);
    }
  }

  /** Only the first 32 values of a made constant are printed. */
  const MAX_PRINTED := 32

  function Printed(xs: seq<int>): seq<int> {
    if |xs| > MAX_PRINTED then xs[..MAX_PRINTED] else xs
  }

  predicate WhollyPrinted(f: Option<seq<int>>) {
    f.Some? ==> |f.value| <= MAX_PRINTED
  }

  function FixedText(f: Option<seq<int>>, rest: string): string {
    match f
    case None => [' '] + rest
    case Some(xs) => ['='] + IntsText(Printed(xs), [' '] + rest)
  }

  lemma FixedCut(f: Option<seq<int>>, g: Option<seq<int>>, r: string, s: string)
    requires WhollyPrinted(f) && WhollyPrinted(g)
    requires FixedText(f, r) == FixedText(g, s)
    ensures f == g && r == s
  {
    assert FixedText(f, r)[0] == FixedText(g, s)[0];
    if f.Some? {
      HeadCut('=', IntsText(f.value, [' '] + r), IntsText(g.value, [' '] + s));
      IntsCut(f.value, g.value, [' '] + r, [' '] + s);
    }
    HeadCut(' ', r, s);
  }

  /** key_leaf: the place, the type, the shape, and a made constant's values. */
  function LeafText(j: nat, l: LeafSig, rest: string): string {
    ['L'] + (Dec(j) + ([':'] + (Dec(l.dtype) + (['['] + IntsText(l.shape, [']'] + FixedText(l.fixed, rest))))))
  }

  lemma LeafCut(j: nat, l: LeafSig, m: LeafSig, r: string, s: string)
    requires WhollyPrinted(l.fixed) && WhollyPrinted(m.fixed)
    requires LeafText(j, l, r) == LeafText(j, m, s)
    ensures l == m && r == s
  {
    var l1, m1 := [']'] + FixedText(l.fixed, r), [']'] + FixedText(m.fixed, s);
    var l2, m2 := ['['] + IntsText(l.shape, l1), ['['] + IntsText(m.shape, m1);
    var l3, m3 := [':'] + (Dec(l.dtype) + l2), [':'] + (Dec(m.dtype) + m2);
    HeadCut('L', Dec(j) + l3, Dec(j) + m3);
    DecCut(j, j, l3, m3);
    HeadCut(':', Dec(l.dtype) + l2, Dec(m.dtype) + m2);
    DecCut(l.dtype, m.dtype, l2, m2);
    HeadCut('[', IntsText(l.shape, l1), IntsText(m.shape, m1));
    IntsCut(l.shape, m.shape, l1, m1);
    HeadCut(']', FixedText(l.fixed, r), FixedText(m.fixed, s));
    FixedCut(l.fixed, m.fixed, r, s);
  }

  function LeavesText(ls: seq<LeafSig>, j: nat, rest: string): string
    decreases |ls|
  {
    if ls == [] then rest else LeafText(j, ls[0], LeavesText(ls[1..], j + 1, rest))
  }

  lemma {:induction false} LeavesCut(ls: seq<LeafSig>, ms: seq<LeafSig>, j: nat, r: string, s: string)
    requires (r == [] || r[0] != 'L') && (s == [] || s[0] != 'L')
    requires forall i :: 0 <= i < |ls| ==> WhollyPrinted(ls[i].fixed)
    requires forall i :: 0 <= i < |ms| ==> WhollyPrinted(ms[i].fixed)
    requires LeavesText(ls, j, r) == LeavesText(ms, j, s)
    ensures ls == ms && r == s
    decreases |ls|
  {
    assert ls != [] ==> LeavesText(ls, j, r)[0] == 'L';
    assert ms != [] ==> LeavesText(ms, j, s)[0] == 'L';
    if ls != [] && ms != [] {
      LeafCut(j, ls[0], ms[0], LeavesText(ls[1..], j + 1, r), LeavesText(ms[1..], j + 1, s));
      LeavesCut(ls[1..], ms[1..], j + 1, r, s);
    }
  }

  // ---- attributes ---------------------------------------------------------------------------

  function Flags(bs: seq<(string, bool)>): seq<(string, int)> {
    seq(|bs|, i requires 0 <= i < |bs| => (bs[i].0, if bs[i].1 then 1 else 0))
  }

  /** The attributes as the key prints them: types, integers and booleans, in one run. */
  function Attrs(sig: OpSig): seq<(string, int)> {
    sig.types + sig.ints + Flags(sig.bools)
  }

  function AttrsText(xs: seq<(string, int)>, rest: string): string {
    if xs == [] then rest else xs[0].0 + ([':'] + (Dec(xs[0].1) + ([','] + AttrsText(xs[1..], rest))))
  }

  predicate Named(xs: seq<(string, int)>) {
    forall i :: 0 <= i < |xs| ==> All(xs[i].0, IsName)
  }

  lemma {:induction false} AttrsCut(xs: seq<(string, int)>, ys: seq<(string, int)>, r: string, s: string)
    requires Named(xs) && Named(ys)
    requires AttrsText(xs, ['}'] + r) == AttrsText(ys, ['}'] + s)
    ensures xs == ys && r == s
    decreases |xs|
  {
    var tx, ty := AttrsText(xs, ['}'] + r), AttrsText(ys, ['}'] + s);
    assert xs != [] ==> tx[0] == (xs[0].0 + [':'])[0];
    assert ys != [] ==> ty[0] == (ys[0].0 + [':'])[0];
    if xs != [] && ys != [] {
      var x1, y1 := [','] + AttrsText(xs[1..], ['}'] + r), [','] + AttrsText(ys[1..], ['}'] + s);
      SpanCut(IsName, xs[0].0, ys[0].0, [':'] + (Dec(xs[0].1) + x1), [':'] + (Dec(ys[0].1) + y1));
      HeadCut(':', Dec(xs[0].1) + x1, Dec(ys[0].1) + y1);
      DecCut(xs[0].1, ys[0].1, x1, y1);
      HeadCut(',', AttrsText(xs[1..], ['}'] + r), AttrsText(ys[1..], ['}'] + s));
      AttrsCut(xs[1..], ys[1..], r, s);
    } else {
      HeadCut('}', r, s);
    }
  }

  datatype AttrKind = TypeAttr | IntAttr | BoolAttr

  /** The kind of each attribute the producers set; the kinds share no name. */
  function KindOf(name: string): AttrKind {
    if name in {"N", "batch_dims"} then IntAttr
    else if name in {"transpose_a", "transpose_b", "keep_dims", "Truncate"} then BoolAttr
    else TypeAttr
  }

  /** Each attribute is listed under its own kind. */
  predicate Kinded(sig: OpSig) {
    && (forall i :: 0 <= i < |sig.types| ==> KindOf(sig.types[i].0) == TypeAttr)
    && (forall i :: 0 <= i < |sig.ints| ==> KindOf(sig.ints[i].0) == IntAttr)
    && (forall i :: 0 <= i < |sig.bools| ==> KindOf(sig.bools[i].0) == BoolAttr)
  }

  lemma FlagsInjective(a: seq<(string, bool)>, b: seq<(string, bool)>)
    requires Flags(a) == Flags(b)
    ensures a == b
  {
    assert |a| == |Flags(a)| == |Flags(b)| == |b|;
    forall i | 0 <= i < |a| ensures a[i] == b[i] {
      assert Flags(a)[i] == Flags(b)[i];
    }
  }

  lemma AttrsKinds(sig: OpSig)
    requires Kinded(sig)
    ensures var m := Attrs(sig); var t := |sig.types|; var u := t + |sig.ints|;
            && |m| == u + |sig.bools|
            && (forall i :: 0 <= i < t ==> KindOf(m[i].0) == TypeAttr)
            && (forall i :: t <= i < u ==> KindOf(m[i].0) == IntAttr)
            && (forall i :: u <= i < |m| ==> KindOf(m[i].0) == BoolAttr)
            && sig.types == m[..t] && sig.ints == m[t..u] && Flags(sig.bools) == m[u..]
  {
    var m := Attrs(sig);
    var t, u := |sig.types|, |sig.types| + |sig.ints|;
    forall i | t <= i < u ensures KindOf(m[i].0) == IntAttr { assert m[i] == sig.ints[i - t]; }
    forall i | u <= i < |m| ensures KindOf(m[i].0) == BoolAttr { assert m[i].0 == sig.bools[i - u].0; }
  }

  /** Two runs of three kinds over one list break in the same places. */
  lemma SameBreaks(m: seq<(string, int)>, t: nat, u: nat, t': nat, u': nat)
    requires t <= u <= |m| && t' <= u' <= |m|
    requires (forall i :: 0 <= i < t ==> KindOf(m[i].0) == TypeAttr)
    requires (forall i :: t <= i < u ==> KindOf(m[i].0) == IntAttr)
    requires (forall i :: 0 <= i < t' ==> KindOf(m[i].0) == TypeAttr)
    requires (forall i :: t' <= i < u' ==> KindOf(m[i].0) == IntAttr)
    requires (forall i :: u <= i < |m| ==> KindOf(m[i].0) == BoolAttr)
    requires (forall i :: u' <= i < |m| ==> KindOf(m[i].0) == BoolAttr)
    ensures t == t' && u == u'
  {
    var atT, atT' := if t < |m| then KindOf(m[t].0) else BoolAttr, if t' < |m| then KindOf(m[t'].0) else BoolAttr;
    var atU, atU' := if u < |m| then KindOf(m[u].0) else BoolAttr, if u' < |m| then KindOf(m[u'].0) else BoolAttr;
  }

  /** One run of attributes splits into the three lists in one way. */
  lemma AttrsSplit(a: OpSig, b: OpSig)
    requires Kinded(a) && Kinded(b) && Attrs(a) == Attrs(b)
    ensures a.types == b.types && a.ints == b.ints && a.bools == b.bools
  {
    AttrsKinds(a);
    AttrsKinds(b);
    SameBreaks(Attrs(a), |a.types|, |a.types| + |a.ints|, |b.types|, |b.types| + |b.ints|);
    FlagsInjective(a.bools, b.bools);
  }

  // ---- nodes, targets and the whole key -------------------------------------------------------

  function RefText(r: Ref, rest: string): string {
    match r
    case L(j) => ['L'] + (Dec(j) + ([','] + rest))
    case N(i) => ['N'] + (Dec(i) + ([','] + rest))
  }

  lemma RefCut(a: Ref, b: Ref, r: string, s: string)
    requires RefText(a, r) == RefText(b, s)
    ensures a == b && r == s
  {
    assert RefText(a, r)[0] == RefText(b, s)[0];
    var m, n := match a { case L(j) => j case N(i) => i }, match b { case L(j) => j case N(i) => i };
    HeadCut(RefText(a, r)[0], Dec(m) + ([','] + r), Dec(n) + ([','] + s));
    DecCut(m, n, [','] + r, [','] + s);
    HeadCut(',', r, s);
  }

  function RefsText(rs: seq<Ref>, rest: string): string {
    if rs == [] then rest else RefText(rs[0], RefsText(rs[1..], rest))
  }

  lemma {:induction false} RefsCut(xs: seq<Ref>, ys: seq<Ref>, r: string, s: string)
    requires RefsText(xs, [')'] + r) == RefsText(ys, [')'] + s)
    ensures xs == ys && r == s
    decreases |xs|
  {
    assert xs != [] ==> RefsText(xs, [')'] + r)[0] in {'L', 'N'};
    assert ys != [] ==> RefsText(ys, [')'] + s)[0] in {'L', 'N'};
    if xs != [] && ys != [] {
      RefCut(xs[0], ys[0], RefsText(xs[1..], [')'] + r), RefsText(ys[1..], [')'] + s));
      RefsCut(xs[1..], ys[1..], r, s);
    } else {
      HeadCut(')', r, s);
    }
  }

  function WantText(want: bool, rest: string): string {
    if want then ['o'] + ([' '] + rest) else [' '] + rest
  }

  function NodeText(i: nat, n: NodeSig, rest: string): string {
    ['N'] + (Dec(i) + (['='] + (n.sig.op + (['{'] + AttrsText(Attrs(n.sig), ['}'] + (Dec(n.sig.listN) + (['('] +
      RefsText(n.ins, [')'] + WantText(n.want, rest)))))))))
  }

  /** A node whose attributes can be read back. */
  predicate Legible(n: NodeSig) {
    All(n.sig.op, IsName) && Named(Attrs(n.sig)) && Kinded(n.sig)
  }

  predicate AllLegible(ns: seq<NodeSig>) {
    forall i :: 0 <= i < |ns| ==> Legible(ns[i])
  }

  lemma WantCut(a: bool, b: bool, r: string, s: string)
    requires WantText(a, r) == WantText(b, s)
    ensures a == b && r == s
  {
    assert WantText(a, r)[0] == WantText(b, s)[0];
    if a { HeadCut('o', [' '] + r, [' '] + s); }
    HeadCut(' ', r, s);
  }

  lemma NodeCut(i: nat, m: NodeSig, n: NodeSig, r: string, s: string)
    requires Legible(m) && Legible(n)
    requires NodeText(i, m, r) == NodeText(i, n, s)
    ensures m == n && r == s
  {
    var m1, n1 := WantText(m.want, r), WantText(n.want, s);
    var m2, n2 := ['('] + RefsText(m.ins, [')'] + m1), ['('] + RefsText(n.ins, [')'] + n1);
    var m3, n3 := Dec(m.sig.listN) + m2, Dec(n.sig.listN) + n2;
    var m4, n4 := ['{'] + AttrsText(Attrs(m.sig), ['}'] + m3), ['{'] + AttrsText(Attrs(n.sig), ['}'] + n3);
    var m5, n5 := ['='] + (m.sig.op + m4), ['='] + (n.sig.op + n4);
    HeadCut('N', Dec(i) + m5, Dec(i) + n5);
    DecCut(i, i, m5, n5);
    HeadCut('=', m.sig.op + m4, n.sig.op + n4);
    SpanCut(IsName, m.sig.op, n.sig.op, m4, n4);
    HeadCut('{', AttrsText(Attrs(m.sig), ['}'] + m3), AttrsText(Attrs(n.sig), ['}'] + n3));
    AttrsCut(Attrs(m.sig), Attrs(n.sig), m3, n3);
    AttrsSplit(m.sig, n.sig);
    DecCut(m.sig.listN, n.sig.listN, m2, n2);
    HeadCut('(', RefsText(m.ins, [')'] + m1), RefsText(n.ins, [')'] + n1));
    RefsCut(m.ins, n.ins, m1, n1);
    WantCut(m.want, n.want, r, s);
  }

  function NodesText(ns: seq<NodeSig>, i: nat, rest: string): string
    decreases |ns|
  {
    if ns == [] then rest else NodeText(i, ns[0], NodesText(ns[1..], i + 1, rest))
  }

  lemma NodeHead(i: nat, n: NodeSig, rest: string)
    ensures NodeText(i, n, rest) != [] && NodeText(i, n, rest)[0] == 'N'
  {
  }

  lemma {:induction false} NodesCut(ms: seq<NodeSig>, ns: seq<NodeSig>, i: nat, r: string, s: string)
    requires (r == [] || r[0] != 'N') && (s == [] || s[0] != 'N')
    requires AllLegible(ms) && AllLegible(ns)
    requires NodesText(ms, i, r) == NodesText(ns, i, s)
    ensures ms == ns && r == s
    decreases |ms|
  {
    hide NodeText, Legible;
    if ms != [] { NodeHead(i, ms[0], NodesText(ms[1..], i + 1, r)); }
    if ns != [] { NodeHead(i, ns[0], NodesText(ns[1..], i + 1, s)); }
    if ms != [] && ns != [] {
      NodeCut(i, ms[0], ns[0], NodesText(ms[1..], i + 1, r), NodesText(ns[1..], i + 1, s));
      NodesCut(ms[1..], ns[1..], i + 1, r, s);
    }
  }

  /** The places of a gradient's parameters; a dash for one the loss does not rest on. */
  function PlacesText(ts: seq<Option<Ref>>): string {
    if ts == [] then ""
    else match ts[0]
      case Some(r) => RefText(r, PlacesText(ts[1..]))
      case None => ['-'] + ([','] + PlacesText(ts[1..]))
  }

  lemma {:induction false} PlacesCut(a: seq<Option<Ref>>, b: seq<Option<Ref>>)
    requires PlacesText(a) == PlacesText(b)
    ensures a == b
    decreases |a|
  {
    assert a != [] ==> PlacesText(a) != [] && (PlacesText(a)[0] == '-' <==> a[0].None?);
    assert b != [] ==> PlacesText(b) != [] && (PlacesText(b)[0] == '-' <==> b[0].None?);
    if a != [] && b != [] {
      if a[0].Some? {
        RefCut(a[0].value, b[0].value, PlacesText(a[1..]), PlacesText(b[1..]));
      } else {
        HeadCut('-', [','] + PlacesText(a[1..]), [','] + PlacesText(b[1..]));
        HeadCut(',', PlacesText(a[1..]), PlacesText(b[1..]));
      }
      PlacesCut(a[1..], b[1..]);
    }
  }

  function TargetsText(t: Option<seq<Option<Ref>>>): string {
    match t case None => "" case Some(ts) => ['|'] + (['G'] + ([':'] + PlacesText(ts)))
  }

  function KeyText(st: Structure): string {
    LeavesText(st.leaves, 0, NodesText(st.nodes, 0, TargetsText(st.targets)))
  }

  /** The room the key's buffer has for characters: 1048576 less the terminator. */
  const KEY_ROOM := 1048575

  /** The key as it is kept: what does not fit in the buffer is cut off. */
  function Key(st: Structure): string {
    if |KeyText(st)| > KEY_ROOM then KeyText(st)[..KEY_ROOM] else KeyText(st)
  }

  /** Every constant is printed whole and every attribute can be read back. */
  predicate Readable(st: Structure) {
    && (forall j :: 0 <= j < |st.leaves| ==> WhollyPrinted(st.leaves[j].fixed))
    && AllLegible(st.nodes)
  }

  /** The key says everything. */
  predicate Exact(st: Structure) {
    Readable(st) && |KeyText(st)| <= KEY_ROOM
  }

  lemma TextInjective(a: Structure, b: Structure)
    requires Readable(a) && Readable(b) && KeyText(a) == KeyText(b)
    ensures a == b
  {
    var ta, tb := TargetsText(a.targets), TargetsText(b.targets);
    var na, nb := NodesText(a.nodes, 0, ta), NodesText(b.nodes, 0, tb);
    LeavesCut(a.leaves, b.leaves, 0, na, nb);
    NodesCut(a.nodes, b.nodes, 0, ta, tb);
    if a.targets.Some? && b.targets.Some? {
      var pa, pb := PlacesText(a.targets.value), PlacesText(b.targets.value);
      HeadCut('|', ['G'] + ([':'] + pa), ['G'] + ([':'] + pb));
      HeadCut('G', [':'] + pa, [':'] + pb);
      HeadCut(':', pa, pb);
      PlacesCut(a.targets.value, b.targets.value);
    }
  }

  /** Equal keys, equal structures: types, shapes, constants, operations, wiring, results, targets. */
  lemma KeyInjective(a: Structure, b: Structure)
    requires Exact(a) && Exact(b) && Key(a) == Key(b)
    ensures a == b
  {
    TextInjective(a, b);
  }

  // ---- what a key leaves out -------------------------------------------------------------------

  /** A leaf as the key tells it: only the first values of a constant. */
  function CutLeaf(l: LeafSig): LeafSig {
    match l.fixed
    case None => l
    case Some(xs) => l.(fixed := Some(Printed(xs)))
  }

  function CutLeaves(ls: seq<LeafSig>): (r: seq<LeafSig>)
    ensures |r| == |ls| && forall j :: 0 <= j < |ls| ==> r[j] == CutLeaf(ls[j]) && WhollyPrinted(r[j].fixed)
  {
    seq(|ls|, j requires 0 <= j < |ls| => CutLeaf(ls[j]))
  }

  function CutConstants(st: Structure): Structure {
    st.(leaves := CutLeaves(st.leaves))
  }

  lemma {:induction false} CutLeavesText(ls: seq<LeafSig>, j: nat, rest: string)
    ensures LeavesText(CutLeaves(ls), j, rest) == LeavesText(ls, j, rest)
    decreases |ls|
  {
    if ls != [] {
      CutLeavesText(ls[1..], j + 1, rest);
      assert CutLeaves(ls)[1..] == CutLeaves(ls[1..]);
      assert Printed(Printed(if ls[0].fixed.Some? then ls[0].fixed.value else [])) ==
             Printed(if ls[0].fixed.Some? then ls[0].fixed.value else []);
    }
  }

  /**
   Keys that fit tell two legible structures apart exactly as far as the first 32 values of their
   constants do.
   */
  lemma KeysEqualIff(a: Structure, b: Structure)
    requires AllLegible(a.nodes) && AllLegible(b.nodes)
    requires |KeyText(a)| <= KEY_ROOM && |KeyText(b)| <= KEY_ROOM
    ensures Key(a) == Key(b) <==> CutConstants(a) == CutConstants(b)
  {
    CutLeavesText(a.leaves, 0, NodesText(a.nodes, 0, TargetsText(a.targets)));
    CutLeavesText(b.leaves, 0, NodesText(b.nodes, 0, TargetsText(b.targets)));
    if Key(a) == Key(b) {
      TextInjective(CutConstants(a), CutConstants(b));
    }
  }
}
