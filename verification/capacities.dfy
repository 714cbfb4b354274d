/**
 When the back end has room (modules/tensorflow/backend.c: its tables of slots, leaves, nodes and
 entries, and the key's buffer). While few enough slots are live and few enough closures were compiled,
 no call meets a capacity: every slot is found, every walk fits, and every key says everything.
 */
module Capacities {
  import opened Collections
  import opened Wrappers
  import opened Slots
  import opened Meaning
  import opened Closures
  import opened Results
  import opened Decimals
  import opened Keys
  import opened Engines
  import opened Evolution
  import opened Programs

  /** The inputs an operation may have. */
  const MAX_IN := 65
  /** Slots live at once, few enough for the longest key of that many leaves and nodes. */
  const MAX_LIVE := 1200
  const MAX_SIG := 256

  // ---- how long a key can be ------------------------------------------------------------------------

  predicate Wide64(x: int) {
    -0x8000_0000_0000_0000 <= x < 0x8000_0000_0000_0000
  }

  function Power(n: nat): nat {
    if n == 0 then 1 else 10 * Power(n - 1)
  }

  lemma {:induction false} DigitsFew(x: nat, n: nat)
    requires n > 0 && x < Power(n)
    ensures |Digits(x)| <= n
    decreases n
  {
    if x >= 10 {
      assert Power(n) == 10 * Power(n - 1) && n > 1;
      DigitsFew(x / 10, n - 1);
    }
  }

  lemma DecFew(x: int)
    ensures Wide64(x) ==> |Dec(x)| <= 20
    ensures 0 <= x < 10000 ==> |Dec(x)| <= 4
  {
    assert Power(4) == 10000 by { assert Power(2) == 100; }
    assert Power(19) == 10000000000000000000 by {
      assert Power(8) == 100000000 by { assert Power(4) == 10000 && Power(6) == 1000000; }
      assert Power(12) == 1000000000000 by { assert Power(10) == 10000000000; }
      assert Power(16) == 10000000000000000 by { assert Power(14) == 100000000000000; }
      assert Power(18) == 1000000000000000000;
    }
    if Wide64(x) { DigitsFew(if x < 0 then -x else x, 19); }
    if 0 <= x < 10000 { DigitsFew(x, 4); }
  }

  ghost predicate AllWide(xs: seq<int>) {
    forall i :: 0 <= i < |xs| ==> Wide64(xs[i])
  }

  lemma {:induction false} IntsLength(xs: seq<int>, rest: string)
    requires AllWide(xs)
    ensures |IntsText(xs, rest)| <= 21 * |xs| + |rest|
  {
    if xs != [] {
      IntsLength(xs[1..], rest);
      DecFew(xs[0]);
    }
  }

  ghost predicate LeafFits(l: LeafSig) {
    && Wide64(l.dtype) && |l.shape| <= MAX_DIM && AllWide(l.shape)
    && (l.fixed.Some? ==> |l.fixed.value| <= MAX_PRINTED && AllWide(l.fixed.value))
  }

  lemma LeafLength(j: nat, l: LeafSig, rest: string)
    requires LeafFits(l) && j < 10000
    ensures |LeafText(j, l, rest)| <= 870 + |rest|
  {
    hide IntsText;
    DecFew(j);
    DecFew(l.dtype);
    IntsLength(l.shape, [']'] + FixedText(l.fixed, rest));
    if l.fixed.Some? { IntsLength(l.fixed.value, [' '] + rest); }
  }

  lemma {:induction false} LeavesLength(ls: seq<LeafSig>, j: nat, rest: string)
    requires (forall i :: 0 <= i < |ls| ==> LeafFits(ls[i])) && j + |ls| <= 10000
    ensures |LeavesText(ls, j, rest)| <= 870 * |ls| + |rest|
    decreases |ls|
  {
    hide LeafText, LeafFits;
    if ls != [] {
      LeavesLength(ls[1..], j + 1, rest);
      LeafLength(j, ls[0], LeavesText(ls[1..], j + 1, rest));
    }
  }

  predicate RefFits(r: Ref) {
    match r case L(j) => j < 10000 case N(i) => i < 10000
  }

  lemma RefLength(r: Ref, rest: string)
    requires RefFits(r)
    ensures |RefText(r, rest)| <= 6 + |rest|
  {
    DecFew(match r case L(j) => j case N(i) => i);
  }

  lemma {:induction false} RefsLength(rs: seq<Ref>, rest: string)
    requires forall k :: 0 <= k < |rs| ==> RefFits(rs[k])
    ensures |RefsText(rs, rest)| <= 6 * |rs| + |rest|
  {
    hide RefText;
    if rs != [] {
      RefsLength(rs[1..], rest);
      RefLength(rs[0], RefsText(rs[1..], rest));
    }
  }

  lemma {:induction false} AttrsLength(xs: seq<(string, int)>, rest: string)
    ensures |AttrsText(xs, rest)| == |AttrsText(xs, "")| + |rest|
  {
    if xs != [] { AttrsLength(xs[1..], rest); }
  }

  function SigLength(sig: OpSig): nat {
    |sig.op| + |AttrsText(Attrs(sig), "")| + |Dec(sig.listN)|
  }

  /** A signature that can be read back from a key, and is not long. */
  predicate SigFits(sig: OpSig) {
    All(sig.op, IsName) && Named(Attrs(sig)) && Kinded(sig) && SigLength(sig) <= MAX_SIG
  }

  ghost predicate NodeFits(n: NodeSig) {
    SigFits(n.sig) && |n.ins| <= MAX_IN && forall k :: 0 <= k < |n.ins| ==> RefFits(n.ins[k])
  }

  lemma NodeLength(i: nat, n: NodeSig, rest: string)
    requires NodeFits(n) && i < 10000
    ensures |NodeText(i, n, rest)| <= 870 + |rest|
  {
    hide RefsText, AttrsText, Attrs;
    DecFew(i);
    var refs := RefsText(n.ins, [')'] + WantText(n.want, rest));
    RefsLength(n.ins, [')'] + WantText(n.want, rest));
    AttrsLength(Attrs(n.sig), ['}'] + (Dec(n.sig.listN) + (['('] + refs)));
  }

  lemma {:induction false} NodesLength(ns: seq<NodeSig>, i: nat, rest: string)
    requires (forall k :: 0 <= k < |ns| ==> NodeFits(ns[k])) && i + |ns| <= 10000
    ensures |NodesText(ns, i, rest)| <= 870 * |ns| + |rest|
    decreases |ns|
  {
    hide NodeText, NodeFits;
    if ns != [] {
      NodesLength(ns[1..], i + 1, rest);
      NodeLength(i, ns[0], NodesText(ns[1..], i + 1, rest));
    }
  }

  lemma {:induction false} PlacesLength(ts: seq<Option<Ref>>)
    requires forall k :: 0 <= k < |ts| && ts[k].Some? ==> RefFits(ts[k].value)
    ensures |PlacesText(ts)| <= 6 * |ts|
  {
    hide RefText;
    if ts != [] {
      PlacesLength(ts[1..]);
      if ts[0].Some? { RefLength(ts[0].value, PlacesText(ts[1..])); }
    }
  }

  /** A structure of fitting leaves and nodes, and not too many of them. */
  ghost predicate StructureFits(st: Structure) {
    && (forall j :: 0 <= j < |st.leaves| ==> LeafFits(st.leaves[j]))
    && (forall i :: 0 <= i < |st.nodes| ==> NodeFits(st.nodes[i]))
    && |st.leaves| + |st.nodes| <= MAX_LIVE
    && (st.targets.Some? ==>
          |st.targets.value| <= MAX_PARAM
          && forall k :: 0 <= k < |st.targets.value| && st.targets.value[k].Some? ==>
            RefFits(st.targets.value[k].value))
  }

  /** Its key says everything. */
  lemma FittingIsExact(st: Structure)
    requires StructureFits(st)
    ensures Exact(st)
  {
    hide LeavesText, NodesText, PlacesText, LeafFits, NodeFits, Legible, WhollyPrinted;
    var t := TargetsText(st.targets);
    if st.targets.Some? { PlacesLength(st.targets.value); }
    NodesLength(st.nodes, 0, t);
    LeavesLength(st.leaves, 0, NodesText(st.nodes, 0, t));
    forall j | 0 <= j < |st.leaves| ensures WhollyPrinted(st.leaves[j].fixed) { LeafPrinted(st.leaves[j]); }
    forall i | 0 <= i < |st.nodes| ensures Legible(st.nodes[i]) { NodeLegible(st.nodes[i]); }
  }

  lemma LeafPrinted(l: LeafSig)
    requires LeafFits(l)
    ensures WhollyPrinted(l.fixed)
  {
  }

  lemma NodeLegible(n: NodeSig)
    requires NodeFits(n)
    ensures Legible(n)
  {
  }

  // ---- slots of fitting tensors and operations ---------------------------------------------------------

  ghost predicate TensorFits(t: Tensor) {
    Wide64(t.dtype) && AllWide(t.shape)
  }

  /** What TensorFlow answers has a 64-bit shape. */
  ghost predicate KernelFits(run: Kernel) {
    forall sig, args :: TensorFits(run(sig, args))
  }

  ghost predicate SlotFits(s: Slot) {
    s.kind != FREE ==>
      && (s.eh.Some? ==> TensorFits(s.eh.value))
      && (s.host.Some? ==> |s.host.value.data| <= MAX_PRINTED && AllWide(s.host.value.data))
      && (s.kind == NODE ==> SigFits(s.spec.sig) && |s.spec.ins| <= MAX_IN)
  }

  ghost predicate AllFit(slots: seq<Slot>) {
    forall x: nat :: x < |slots| ==> SlotFits(slots[x])
  }

  lemma LaterFits(run: Kernel, s: Slot, t: Slot)
    requires KernelFits(run) && SlotFits(s) && Later(run, s, t)
    ensures SlotFits(t)
  {
    if t.kind != FREE && t.eh.Some? && t.eh != s.eh {
      var sig, args :| t.eh.value == run(sig, args);
    }
  }

  lemma EvolvesFits(run: Kernel, a: seq<Slot>, b: seq<Slot>)
    requires KernelFits(run) && AllFit(a) && Evolves(run, a, b)
    ensures AllFit(b) && LiveSet(b) <= LiveSet(a)
  {
    forall x: nat | x < |b| ensures SlotFits(b[x]) && (a[x].kind == FREE ==> b[x].kind == FREE) {
      assert Later(run, a[x], b[x]);
      LaterFits(run, a[x], b[x]);
    }
  }

  lemma ButFits(run: Kernel, a: seq<Slot>, b: seq<Slot>, h: nat, s: Slot)
    requires KernelFits(run) && AllFit(a) && EvolvesBut(run, a, b, h, s) && SlotFits(s)
    ensures AllFit(b) && LiveSet(b) <= LiveSet(a) + {h}
  {
    forall x: nat | x < |b| ensures SlotFits(b[x]) && (x != h && a[x].kind == FREE ==> b[x].kind == FREE) {
      if x == h { LaterFits(run, s, b[x]); } else { assert Later(run, a[x], b[x]); LaterFits(run, a[x], b[x]); }
    }
  }

  // ---- the closure of a slot ------------------------------------------------------------------------------

  /** A closure has no more members than there are live slots. */
  lemma ListedCount(slots: seq<Slot>, c: Closure, grad: bool)
    requires Listed(slots, c, grad)
    ensures |c.leaves| + |c.nodes| <= |LiveSet(slots)|
  {
    hide InputsEarlier;
    var ls, ns := Elements(c.leaves), Elements(c.nodes);
    DistinctCount(c.leaves);
    DistinctCount(c.nodes);
    assert ls !! ns;
    assert |ls + ns| == |ls| + |ns|;
    SubsetCount(ls + ns, LiveSet(slots));
  }

  /** A walk over few live slots does not run out of room. */
  lemma {:induction false} VisitHasRoom(slots: seq<Slot>, h: nat, w: Walk, grad: bool, open: set<nat>)
    requires Formed(slots) && Ordered(slots) && Listed(slots, w.c, grad) && Live(slots, h)
    requires w.seen == Members(w.c) + open && OpenAbove(slots, open, slots[h].born) && |LiveSet(slots)| <= MAX_LEAF
    ensures !Visit(slots, h, w, grad).TooMany?
    decreases slots[h].born, 1, 0
  {
    hide Listed;
    if h !in w.seen {
      var w1 := w.(seen := w.seen + {h});
      if IsLeaf(slots[h], grad) {
        AppendLeaf(slots, w.c, h, grad);
        ListedCount(slots, w.c.(leaves := w.c.leaves + [h]), grad);
      } else {
        assert w1.seen == Members(w.c) + (open + {h});
        VisitInputsHaveRoom(slots, h, 0, w1, grad, open);
        VisitInputsLists(slots, h, 0, w1, grad, open);
        match VisitInputs(slots, h, 0, w1, grad)
        case Walked(w2) => ListedCount(slots, w2.c, grad);
        case _ =>
      }
    }
  }

  lemma {:induction false} VisitInputsHaveRoom(slots: seq<Slot>, h: nat, k: nat, w: Walk, grad: bool, open: set<nat>)
    requires Formed(slots) && Ordered(slots) && Listed(slots, w.c, grad) && Live(slots, h)
    requires slots[h].kind == NODE && !IsLeaf(slots[h], grad) && k <= |slots[h].spec.ins|
    requires w.seen == Members(w.c) + (open + {h}) && OpenAbove(slots, open, slots[h].born) && h !in Members(w.c)
    requires (forall m :: 0 <= m < k ==> slots[h].spec.ins[m] in Members(w.c)) && |LiveSet(slots)| <= MAX_LEAF
    ensures !VisitInputs(slots, h, k, w, grad).TooMany?
    decreases slots[h].born, 0, |slots[h].spec.ins| - k
  {
    hide Listed, Visit;
    if k < |slots[h].spec.ins| {
      assert InputsBelow(slots, h);
      var x := slots[h].spec.ins[k];
      VisitHasRoom(slots, x, w, grad, open + {h});
      VisitLists(slots, x, w, grad, open + {h});
      match Visit(slots, x, w, grad)
      case Walked(w1) =>
        VisitOlder(slots, x, w, grad);
        VisitInputsHaveRoom(slots, h, k + 1, w1, grad, open);
      case _ =>
    }
  }

  lemma PlaceFits(c: Closure, x: nat)
    requires |c.leaves| <= MAX_LIVE && |c.nodes| <= MAX_LIVE
    ensures RefFits(PlaceOf(c, x)) && (Place(c, x).Some? ==> RefFits(Place(c, x).value))
  {
  }

  lemma LeafSigFits(s: Slot)
    requires SlotFits(s) && s.kind != FREE
    ensures LeafFits(LeafSigOf(s))
  {
  }

  lemma ClosureFits(slots: seq<Slot>, c: Closure, root: nat, ps: Option<seq<nat>>)
    requires Listed(slots, c, ps.Some?) && Bounded(slots, c) && AllFit(slots) && |LiveSet(slots)| <= MAX_LIVE
    requires ps.Some? ==> |ps.value| <= MAX_PARAM
    ensures StructureFits(StructureOf(slots, c, root, ps))
  {
    hide LeafFits, SigFits, SlotFits, RefFits, InputsEarlier;
    ListedCount(slots, c, ps.Some?);
    var st := StructureOf(slots, c, root, ps);
    forall j | 0 <= j < |st.leaves| ensures LeafFits(st.leaves[j]) {
      LeafSigFits(slots[c.leaves[j]]);
    }
    forall i | 0 <= i < |st.nodes| ensures NodeFits(st.nodes[i]) {
      NodeSigFits(slots, c, c.nodes[i], root);
    }
    if ps.Some? {
      forall k | 0 <= k < |ps.value| && st.targets.value[k].Some? ensures RefFits(st.targets.value[k].value) {
        PlaceFits(c, ps.value[k]);
      }
    }
  }

  lemma NodeSigFits(slots: seq<Slot>, c: Closure, h: nat, root: nat)
    requires h < |slots| && SlotFits(slots[h]) && slots[h].kind == NODE && |c.leaves| <= MAX_LIVE
    requires |c.nodes| <= MAX_LIVE
    ensures NodeFits(NodeSigOf(slots, c, h, root))
  {
    hide SigFits, RefFits;
    forall k | 0 <= k < |slots[h].spec.ins| ensures RefFits(PlaceOf(c, slots[h].spec.ins[k])) {
      PlaceFits(c, slots[h].spec.ins[k]);
    }
  }

  // ---- engines with room to spare ---------------------------------------------------------------------------

  /** Nothing was ever cut or full; at most `n` slots are live and `runs` closures were compiled. */
  ghost predicate Roomy(run: Kernel, e: Engine, n: nat, runs: nat) {
    && Inv(run, e) && e.exact && !e.full && AllFit(e.slots)
    && |LiveSet(e.slots)| <= n <= MAX_LIVE && n < |e.slots| && |e.entries| <= runs <= MAX_ENTRY
  }

  /** slot_new finds a slot while fewer are live than there are. */
  lemma SlotFound(e: Engine)
    requires 0 < e.cursor < |e.slots| && |LiveSet(e.slots)| < |e.slots| - 1
    ensures SlotNew(e).1.Some? && SlotNew(e).0.full == e.full
  {
    hide Scan;
    TableFull(e.slots, e.cursor);
    if Scan(e.slots, e.cursor, |e.slots| - 1).0.None? {
      assert Places(|e.slots|) <= LiveSet(e.slots);
      SubsetCount(Places(|e.slots|), LiveSet(e.slots));
    }
  }

  lemma NewValueRoomy(run: Kernel, e: Engine, t: Tensor, made: bool, isParam: bool, n: nat, runs: nat)
    requires KernelFits(run) && Roomy(run, e, n, runs) && TensorFits(t) && n + 1 <= MAX_LIVE && n + 1 < |e.slots|
    requires made ==> IsMade(t) && |t.data| <= MAX_PRINTED && AllWide(t.data)
    ensures var (e1, h) := NewValue(e, t, made, isParam);
            && Roomy(run, e1, n + 1, runs) && h.Some? && !Exists(e.slots, h.value) && Exists(e1.slots, h.value)
            && NamesKept(e.slots, e1.slots) && Lacks(e1.slots, h.value) == 0
  {
    hide SlotNew, AllFit, Evolves, EvolvesBut, Inv;
    Cursor(run, e);
    SlotFound(e);
    NewValueMoves(run, e, t, made, isParam);
    NewValueMakes(run, e, t, made, isParam);
    var (e1, h) := NewValue(e, t, made, isParam);
    NewInv(run, e, e1);
    ButFits(run, e.slots, e1.slots, h.value, ValueSlot(t, made, isParam, e.clock));
    SubsetCount(LiveSet(e1.slots), LiveSet(e.slots) + {h.value});
    NewValueKeepsNames(e, t, made, isParam);
  }

  lemma Cursor(run: Kernel, e: Engine)
    requires Inv(run, e)
    ensures 0 < e.cursor < |e.slots|
  {
  }

  lemma NewInv(run: Kernel, a: Engine, b: Engine)
    requires Moves(run, a, b, {})
    ensures Inv(run, b)
  {
  }

  lemma StandsStill(run: Kernel, a: Engine, b: Engine, gone: set<nat>, x: nat)
    requires Moves(run, a, b, gone) && Exists(a.slots, x) && x !in gone
    ensures Exists(b.slots, x)
  {
    assert Stands(run, a.slots, b.slots, x);
  }

  /** Running a closure never finds a table full, and its key is exact. */
  lemma WalkRoomy(run: Kernel, e: Engine, h: nat, ps: Option<seq<nat>>, n: nat, runs: nat)
    requires KernelFits(run) && Roomy(run, e, n, runs) && Exists(e.slots, h) && runs + 1 <= MAX_ENTRY
    requires ps.Some? ==> |ps.value| <= MAX_PARAM
    ensures var (e1, ok) := RunWalk(run, e, h, ps); e1.exact && !e1.full && ok
  {
    hide AllFit, CacheRight, Meaningful, OlderThan, LiveSet, RunListed;
    RoomySound(run, e, n, runs);
    ClosureListed(e.slots, h, ps.Some?);
    VisitHasRoom(e.slots, h, Walk(Closure([], []), {}), ps.Some?, {});
    match ClosureOf(e.slots, h, ps.Some?)
    case Walked(w) => if w.c.nodes != [] { ListedRoomy(run, e, w.c, h, ps, n, runs); }
    case _ =>
  }

  lemma RoomySound(run: Kernel, e: Engine, n: nat, runs: nat)
    requires Roomy(run, e, n, runs)
    ensures Sound(e.slots)
  {
  }

  lemma ListedRoomy(run: Kernel, e: Engine, c: Closure, h: nat, ps: Option<seq<nat>>, n: nat, runs: nat)
    requires KernelFits(run) && Roomy(run, e, n, runs) && Exists(e.slots, h) && runs + 1 <= MAX_ENTRY
    requires (ps.Some? ==> |ps.value| <= MAX_PARAM) && Listed(e.slots, c, ps.Some?) && Bounded(e.slots, c)
    requires c.nodes != [] && c.nodes[|c.nodes| - 1] == h
    ensures var (e1, ok) := RunListed(run, e, c, h, ps); e1.exact && !e1.full && ok
  {
    hide AllFit, StructureOf, StructureFits, Exact, Called, Runnable, Listed, Meaningful, OlderThan, CacheRight, Keeps;
    var st := StructureOf(e.slots, c, h, ps);
    ClosureFits(e.slots, c, h, ps);
    FittingIsExact(st);
    EntryForRight(e, st);
    StoreCallKeeps(run, e.slots, c, h, ps);
  }

  lemma RunWalkRoomy(run: Kernel, e: Engine, h: nat, ps: Option<seq<nat>>, n: nat, runs: nat)
    requires KernelFits(run) && Roomy(run, e, n, runs) && Exists(e.slots, h) && runs + 1 <= MAX_ENTRY
    requires ps.Some? ==> |ps.value| <= MAX_PARAM
    ensures var (e1, ok) := RunWalk(run, e, h, ps);
            && Roomy(run, e1, n, runs + 1) && ok && Moves(run, e, e1, {}) && (ps.None? ==> e1.slots[h].eh.Some?)
  {
    hide AllFit, Evolves, RunWalk, Inv, LiveSet, Moves;
    WalkRoomy(run, e, h, ps, n, runs);
    RunWalkMoves(run, e, h, ps);
    RunWalkEvolves(run, e, h, ps);
    var e1 := RunWalk(run, e, h, ps).0;
    NewInv(run, e, e1);
    EvolvesFits(run, e.slots, e1.slots);
    SubsetCount(LiveSet(e1.slots), LiveSet(e.slots));
    Widths(run, e, e1);
  }

  lemma Widths(run: Kernel, a: Engine, b: Engine)
    requires Moves(run, a, b, {})
    ensures |b.slots| == |a.slots|
  {
  }

  lemma StaysRoomy(run: Kernel, e: Engine, n: nat, m: nat, runs: nat, more: nat)
    requires Roomy(run, e, n, runs) && n <= m <= MAX_LIVE && m < |e.slots| && runs <= more <= MAX_ENTRY
    ensures Roomy(run, e, m, more)
  {
  }

  lemma ForceRoomy(run: Kernel, e: Engine, h: nat, n: nat, runs: nat)
    requires KernelFits(run) && Roomy(run, e, n, runs) && Exists(e.slots, h) && runs + Lacks(e.slots, h) <= MAX_ENTRY
    ensures var (e1, ok) := Force(run, e, h);
            && Roomy(run, e1, n, runs + Lacks(e.slots, h)) && ok && Moves(run, e, e1, {})
            && h < |e1.slots| && e1.slots[h].eh.Some?
  {
    hide RunWalk, Moves, Inv, AllFit, CacheRight, LiveSet;
    if e.slots[h].eh.None? {
      RunWalkRoomy(run, e, h, None, n, runs);
      Widths(run, e, RunWalk(run, e, h, None).0);
    } else {
      SelfMoves(run, e);
    }
  }

  lemma SelfMoves(run: Kernel, e: Engine)
    requires Inv(run, e)
    ensures Moves(run, e, e, {})
  {
    MovesNothing(run, e, e);
  }

  lemma {:induction false} ForceAllRoomy(run: Kernel, e: Engine, ins: seq<nat>, n: nat, runs: nat)
    requires KernelFits(run) && Roomy(run, e, n, runs) && AllExist(e.slots, ins)
    requires runs + AllLacks(e.slots, ins) <= MAX_ENTRY
    ensures var (e1, ok) := ForceAll(run, e, ins);
            Roomy(run, e1, n, runs + AllLacks(e.slots, ins)) && ok && Moves(run, e, e1, {})
    decreases |ins|
  {
    hide Roomy, Moves, Force, Lacks, Evolves, NamesKept;
    if ins == [] {
      RoomyInv(run, e, n, runs);
      SelfMoves(run, e);
    } else {
      ForceRoomy(run, e, ins[0], n, runs);
      var e1 := Force(run, e, ins[0]).0;
      var runs1 := runs + Lacks(e.slots, ins[0]);
      MovesAllExist(run, e, e1, ins);
      ForceEvolves(run, e, ins[0]);
      ForceKeepsNames(run, e, ins[0]);
      LacksFewer(run, e.slots, e1.slots, ins[1..]);
      ForceAllRoomy(run, e1, ins[1..], n, runs1);
      var e2 := ForceAll(run, e1, ins[1..]).0;
      MovesTrans(run, e, e1, e2, {});
      Narrow(run, e2, n);
      StaysRoomy(run, e2, n, n, runs1 + AllLacks(e1.slots, ins[1..]), runs + AllLacks(e.slots, ins));
    }
  }

  lemma Narrow(run: Kernel, e: Engine, n: nat)
    ensures forall runs: nat :: Roomy(run, e, n, runs) ==> n <= MAX_LIVE && n < |e.slots|
  {
  }

  lemma RoomyInv(run: Kernel, e: Engine, n: nat, runs: nat)
    requires Roomy(run, e, n, runs)
    ensures Inv(run, e)
  {
  }

  /** An operation in either mode, not refused, makes its slot. */
  lemma RunSpecRoomy(run: Kernel, e: Engine, graph: bool, spec: OpSpec, refused: bool, n: nat, runs: nat)
    requires KernelFits(run) && Roomy(run, e, n, runs) && AllExist(e.slots, spec.ins)
    requires SigFits(spec.sig) && |spec.ins| <= MAX_IN
    requires n + 1 <= MAX_LIVE && n + 1 < |e.slots| && runs + SpecLacks(e, graph, spec) <= MAX_ENTRY
    ensures var (e1, h) := RunSpec(run, e, graph, spec, refused);
            && Roomy(run, e1, n + 1, runs + SpecLacks(e, graph, spec)) && (h.None? <==> refused)
  {
    hide RunSpec, Inv, AllFit, Evolves, EvolvesBut, LiveSet, Moves, SigFits, SlotFits, SpecLacks;
    SpecNotFull(run, e, graph, spec, refused, n, runs);
    RunSpecMoves(run, e, graph, spec, refused);
    RunSpecMakes(run, e, graph, spec, refused);
    var (e1, h) := RunSpec(run, e, graph, spec, refused);
    NewInv(run, e, e1);
    Widths(run, e, e1);
    if h.Some? {
      SpecSlotFits(run, e, graph, spec);
      ButFits(run, e.slots, e1.slots, h.value, SpecSlot(run, e, graph, spec));
      SubsetCount(LiveSet(e1.slots), LiveSet(e.slots) + {h.value});
    } else {
      EvolvesFits(run, e.slots, e1.slots);
      SubsetCount(LiveSet(e1.slots), LiveSet(e.slots));
    }
  }

  lemma SpecSlotFits(run: Kernel, e: Engine, graph: bool, spec: OpSpec)
    requires KernelFits(run) && SigFits(spec.sig) && |spec.ins| <= MAX_IN
    ensures SlotFits(SpecSlot(run, e, graph, spec))
  {
    hide ForceAll, ValuesOf, AnyUnderParam, SigFits;
  }

  lemma SpecNotFull(run: Kernel, e: Engine, graph: bool, spec: OpSpec, refused: bool, n: nat, runs: nat)
    requires KernelFits(run) && Roomy(run, e, n, runs) && AllExist(e.slots, spec.ins)
    requires n + 1 <= MAX_LIVE && n + 1 < |e.slots| && runs + SpecLacks(e, graph, spec) <= MAX_ENTRY
    ensures var e1 := RunSpec(run, e, graph, spec, refused).0; e1.exact && !e1.full
  {
    hide ForceAll, Record, Undo, AllFit, Moves, SlotNew, AnyUnderParam, ValuesOf, Meaningful;
    if graph {
      SlotFound(e);
    } else {
      ForceAllRoomy(run, e, spec.ins, n, runs);
      SlotFound(ForceAll(run, e, spec.ins).0);
    }
  }

  lemma FreeRoomy(run: Kernel, e: Engine, h: nat, n: nat, runs: nat)
    requires KernelFits(run) && Roomy(run, e, n, runs) && Exists(e.slots, h)
    ensures Roomy(run, FreeIn(e, h), n, runs)
  {
    hide Inv, AllFit, Evolves, Free, LiveSet;
    FreeMoves(run, e, h);
    FreeEvolves(run, e.slots, h);
    EvolvesFits(run, e.slots, Free(e.slots, h));
    SubsetCount(LiveSet(Free(e.slots, h)), LiveSet(e.slots));
  }

  /** An operation on `a` and a temporary that has its value. */
  lemma RunWithRoomy(run: Kernel, e: Engine, graph: bool, sig: OpSig, a: nat, tmp: nat, n: nat, runs: nat)
    requires KernelFits(run) && Roomy(run, e, n, runs) && Exists(e.slots, a) && Exists(e.slots, tmp) && SigFits(sig)
    requires (graph || Lacks(e.slots, tmp) == 0) && n + 1 <= MAX_LIVE && n + 1 < |e.slots|
    requires runs + (if graph then 0 else Lacks(e.slots, a)) <= MAX_ENTRY
    ensures var (e1, h) := RunWith(run, e, graph, sig, a, tmp);
            && Roomy(run, e1, n + 1, runs + if graph then 0 else Lacks(e.slots, a))
            && h.Some? && Exists(e1.slots, h.value) && |e1.slots| == |e.slots|
            && (graph || Lacks(e1.slots, h.value) == 0)
            && forall x: nat :: Exists(e.slots, x) && x != tmp ==>
              Exists(e1.slots, x) && Lacks(e1.slots, x) <= Lacks(e.slots, x)
  {
    hide Roomy, RunSpec, SigFits, FreeIn;
    var spec := OpSpec(sig, [a, tmp]);
    TwoLacks(e.slots, a, tmp);
    RunSpecRoomy(run, e, graph, spec, false, n, runs);
    RunSpecKeepsNames(run, e, graph, spec, false);
    var (e1, h) := RunSpec(run, e, graph, spec, false);
    FreeRoomy(run, e1, tmp, n + 1, runs + SpecLacks(e, graph, spec));
    FreeSpares(e1, tmp);
  }

  lemma TwoLacks(slots: seq<Slot>, a: nat, b: nat)
    ensures AllLacks(slots, [a, b]) == Lacks(slots, a) + Lacks(slots, b)
  {
    assert [a, b][1..] == [b] && [b][1..] == [];
    assert AllLacks(slots, [b]) == Lacks(slots, b) + AllLacks(slots, []);
  }

  lemma FreeSpares(e: Engine, h: nat)
    ensures |FreeIn(e, h).slots| == |e.slots|
    ensures forall x: nat :: Exists(e.slots, x) && x != h ==>
              Exists(FreeIn(e, h).slots, x) && Lacks(FreeIn(e, h).slots, x) <= Lacks(e.slots, x)
  {
    hide Free;
    forall x: nat | Exists(e.slots, x) && x != h
      ensures Exists(FreeIn(e, h).slots, x) && Lacks(FreeIn(e, h).slots, x) <= Lacks(e.slots, x)
    {
      FreeKeepsNames(e.slots, h, x);
    }
  }

  lemma MarkRoomy(run: Kernel, e: Engine, h: nat, n: nat, runs: nat)
    requires KernelFits(run) && Roomy(run, e, n, runs) && Exists(e.slots, h)
    ensures Roomy(run, e.(slots := MarkParam(e.slots, h)), n, runs)
  {
    hide Inv, Evolves, DropStructure;
    MarkParamMoves(run, e, h);
    var s1 := e.slots[h := e.slots[h].(isParam := true)];
    assert AllFit(s1) && LiveSet(s1) == LiveSet(e.slots);
    DropEvolves(run, s1, h);
    SameEvolves(run, s1);
    EvolvesFits(run, s1, MarkParam(e.slots, h));
    SubsetCount(LiveSet(MarkParam(e.slots, h)), LiveSet(s1));
  }

  lemma StepSigsFit()
    ensures SigFits(MUL) && SigFits(SUB)
  {
    assert KindOf("T") == TypeAttr;
    ShortSig(MUL);
    ShortSig(SUB);
  }

  lemma ShortSig(sig: OpSig)
    requires |sig.op| == 3 && sig.types == [("T", FLOAT)] && sig.ints == [] && sig.bools == [] && sig.listN == 0
    ensures SigLength(sig) <= 20 && Attrs(sig) == [("T", FLOAT)]
  {
    var xs := [("T", FLOAT)];
    assert Attrs(sig) == xs && xs[1..] == [] && AttrsText(xs[1..], "") == "";
    assert AttrsText(xs, "") == "T" + ([':'] + (Dec(FLOAT) + ([','] + "")));
    DecFew(FLOAT);
    DecFew(0);
  }

  /** The closures a step has to run: its inputs, if it is taken at once. */
  function StepLacks(e: Engine, graph: bool, w: nat, g: nat): nat {
    if graph then 0 else Lacks(e.slots, w) + Lacks(e.slots, g)
  }

  lemma MakeStepRoomy(run: Kernel, e: Engine, graph: bool, w: nat, g: nat, lr: Tensor, n: nat, runs: nat)
    requires KernelFits(run) && Roomy(run, e, n, runs) && Exists(e.slots, w) && Exists(e.slots, g) && TensorFits(lr)
    requires n + 3 <= MAX_LIVE && n + 3 < |e.slots| && runs + StepLacks(e, graph, w, g) <= MAX_ENTRY
    ensures Roomy(run, MakeStep(run, e, graph, w, g, lr).0, n + 3, runs + StepLacks(e, graph, w, g))
  {
    hide Roomy, RunWith, NewValue, MarkParam, SigFits, TensorFits;
    StepSigsFit();
    NewValueRoomy(run, e, lr, false, false, n, runs);
    var (e1, s) := NewValue(e, lr, false, false);
    NewWidths(e, lr);
    assert Lacks(e1.slots, g) <= Lacks(e.slots, g) && Lacks(e1.slots, w) <= Lacks(e.slots, w);
    RunWithRoomy(run, e1, graph, MUL, g, s.value, n + 1, runs);
    var (e2, scaled) := RunWith(run, e1, graph, MUL, g, s.value);
    var runs2 := runs + if graph then 0 else Lacks(e1.slots, g);
    RunWithRoomy(run, e2, graph, SUB, w, scaled.value, n + 2, runs2);
    var (e3, next) := RunWith(run, e2, graph, SUB, w, scaled.value);
    var runs3 := runs2 + if graph then 0 else Lacks(e2.slots, w);
    StaysRoomy(run, e3, n + 3, n + 3, runs3, runs + StepLacks(e, graph, w, g));
    MarkRoomy(run, e3, next.value, n + 3, runs + StepLacks(e, graph, w, g));
  }

  lemma NewWidths(e: Engine, t: Tensor)
    ensures |NewValue(e, t, false, false).0.slots| == |e.slots|
  {
  }

  // ---- programs ---------------------------------------------------------------------------------------------

  /** What a command may make. */
  function Births(c: Cmd): nat {
    match c
    case Data(_, _) | Made(_, _, _) | Op(_, _, _, _) | Parameter(_, _) => 1
    case Step(_, _, _, _) => 3
    case Grad(_, _, xs, _) => |xs|
    case _ => 0
  }

  /** The closures a command has to run. */
  function RunsOf(w: World, c: Cmd): nat {
    match c
    case Op(_, _, ys, _) =>
      (match Names(w.env, ys)
       case Some(ins) => if w.graph then 0 else AllLacks(w.e.slots, ins)
       case None => 0)
    case Parameter(_, y) => if y in w.env then Lacks(w.e.slots, w.env[y]) else 0
    case Read(x) => if x in w.env then Lacks(w.e.slots, w.env[x]) else 0
    case Grad(_, _, _, _) => 1
    case Step(_, p, g, _) => if p in w.env && g in w.env then StepLacks(w.e, w.graph, w.env[p], w.env[g]) else 0
    case _ => 0
  }

  /** 64-bit shapes, constants of at most 32 values, signatures and input lists of the sizes the source allows. */
  ghost predicate CmdFits(c: Cmd) {
    match c
    case Data(_, t) => TensorFits(t)
    case Made(_, vals, scalar) => |vals| <= MAX_PRINTED && AllWide(vals)
    case Op(_, sig, ys, _) => SigFits(sig) && |ys| <= MAX_IN
    case Step(_, _, _, lr) => TensorFits(lr)
    case Grad(_, _, _, answers) => forall k :: 0 <= k < |answers| ==> TensorFits(answers[k])
    case _ => true
  }

  lemma {:induction false} BindAllRoomy(run: Kernel, w: World, xs: seq<Name>, ts: seq<Tensor>, n: nat, runs: nat)
    requires KernelFits(run) && Roomy(run, w.e, n, runs) && |xs| == |ts| && n + |xs| <= MAX_LIVE
    requires n + |xs| < |w.e.slots|
    requires forall k :: 0 <= k < |ts| ==> TensorFits(ts[k])
    ensures Roomy(run, BindAll(w, xs, ts).e, n + |xs|, runs)
    decreases |xs|
  {
    hide Roomy, NewValue, TensorFits;
    if xs != [] {
      NewValueRoomy(run, w.e, ts[0], false, false, n, runs);
      NewWidths(w.e, ts[0]);
      var (e1, h) := NewValue(w.e, ts[0], false, false);
      BindAllRoomy(run, Bind(w, xs[0], e1, h), xs[1..], ts[1..], n + 1, runs);
    }
  }

  lemma NameExists(run: Kernel, w: World, r: Reference, x: Name)
    requires Simulates(run, w, r) && x in w.env
    ensures Exists(w.e.slots, w.env[x])
  {
    assert Right(run, w, r, x);
  }

  lemma NamesExist(run: Kernel, w: World, r: Reference, ys: seq<Name>)
    requires Simulates(run, w, r) && Names(w.env, ys).Some?
    ensures AllExist(w.e.slots, Names(w.env, ys).value) && |Names(w.env, ys).value| == |ys|
  {
    NamesRight(run, w, r, ys);
  }

  /** The command has room. */
  ghost predicate HasRoom(w: World, c: Cmd, n: nat, runs: nat) {
    CmdFits(c) && n + Births(c) <= MAX_LIVE && n + Births(c) < |w.e.slots| && runs + RunsOf(w, c) <= MAX_ENTRY
  }

  lemma OpRoomy(run: Kernel, w: World, r: Reference, c: Cmd, n: nat, runs: nat)
    requires KernelFits(run) && Simulates(run, w, r) && Roomy(run, w.e, n, runs) && HasRoom(w, c, n, runs) && c.Op?
    ensures Roomy(run, WorldStep(run, w, c).e, n + 1, runs + RunsOf(w, c))
  {
    hide Roomy, RunSpec, SigFits, Simulates;
    if Names(w.env, c.ys).Some? {
      NamesExist(run, w, r, c.ys);
      RunSpecRoomy(run, w.e, w.graph, OpSpec(c.sig, Names(w.env, c.ys).value), c.refused, n, runs);
    } else {
      StaysRoomy(run, w.e, n, n + 1, runs, runs);
    }
  }

  lemma ParameterRoomy(run: Kernel, w: World, r: Reference, c: Cmd, n: nat, runs: nat)
    requires KernelFits(run) && Simulates(run, w, r) && Roomy(run, w.e, n, runs) && HasRoom(w, c, n, runs)
    requires c.Parameter?
    ensures Roomy(run, WorldStep(run, w, c).e, n + 1, runs + RunsOf(w, c))
  {
    hide Roomy, Force, NewValue, Simulates, TensorFits, Lacks;
    if c.y in w.env {
      NameExists(run, w, r, c.y);
      var h := w.env[c.y];
      ForceRoomy(run, w.e, h, n, runs);
      var e1 := Force(run, w.e, h).0;
      ValueFits(run, e1, h, n, runs + Lacks(w.e.slots, h));
      Widths(run, w.e, e1);
      NewValueRoomy(run, e1, e1.slots[h].eh.value, false, true, n, runs + Lacks(w.e.slots, h));
    } else {
      StaysRoomy(run, w.e, n, n + 1, runs, runs);
    }
  }

  lemma ValueFits(run: Kernel, e: Engine, h: nat, n: nat, runs: nat)
    requires Roomy(run, e, n, runs) && h < |e.slots| && e.slots[h].eh.Some?
    ensures e.slots[h].kind != FREE ==> TensorFits(e.slots[h].eh.value)
  {
    assert SlotFits(e.slots[h]);
  }

  lemma GradRoomy(run: Kernel, w: World, r: Reference, c: Cmd, n: nat, runs: nat)
    requires KernelFits(run) && Simulates(run, w, r) && Roomy(run, w.e, n, runs) && HasRoom(w, c, n, runs) && c.Grad?
    ensures Roomy(run, WorldStep(run, w, c).e, n + |c.xs|, runs + 1)
  {
    hide Roomy, RunWalk, Simulates, TensorFits, BindAll;
    if GradAsked(w, c) {
      var loss := w.env[c.loss];
      if w.e.slots[loss].kind == NODE && w.e.slots[loss].underParam {
        var ps := Names(w.env, c.ps);
        RunWalkRoomy(run, w.e, loss, ps, n, runs);
        var e1 := RunWalk(run, w.e, loss, ps).0;
        Widths(run, w.e, e1);
        BindAllRoomy(run, w.(e := e1), c.xs, c.answers, n, runs + 1);
      } else {
        BindAllRoomy(run, w, c.xs, c.answers, n, runs);
        var w1 := BindAll(w, c.xs, c.answers);
        StaysRoomy(run, w1.e, n + |c.xs|, n + |c.xs|, runs, runs + 1);
      }
    } else {
      StaysRoomy(run, w.e, n, n + |c.xs|, runs, runs + 1);
    }
  }

  lemma CommandRoomy(run: Kernel, w: World, r: Reference, c: Cmd, n: nat, runs: nat)
    requires KernelFits(run) && Simulates(run, w, r) && Roomy(run, w.e, n, runs) && HasRoom(w, c, n, runs)
    ensures Roomy(run, WorldStep(run, w, c).e, n + Births(c), runs + RunsOf(w, c))
  {
    hide Roomy, Simulates, TensorFits, NewValue, RunSpec, Force, FreeIn, MakeStep, MakeGrad, MakeParameter;
    match c
    case SetMode(_) =>
    case Data(x, t) => NewValueRoomy(run, w.e, t, false, false, n, runs);
    case Made(x, vals, scalar) =>
      MadeFits(vals, scalar);
      NewValueRoomy(run, w.e, MadeTensor(vals, scalar), true, false, n, runs);
    case Op(_, _, _, _) => OpRoomy(run, w, r, c, n, runs);
    case Parameter(_, _) => ParameterRoomy(run, w, r, c, n, runs);
    case Step(x, p, g, lr) =>
      if p in w.env && g in w.env {
        NameExists(run, w, r, p);
        NameExists(run, w, r, g);
        MakeStepRoomy(run, w.e, w.graph, w.env[p], w.env[g], lr, n, runs);
      } else {
        StaysRoomy(run, w.e, n, n + 3, runs, runs);
      }
    case Grad(_, _, _, _) => GradRoomy(run, w, r, c, n, runs);
    case Release(x) =>
      if x in w.env {
        NameExists(run, w, r, x);
        FreeRoomy(run, w.e, w.env[x], n, runs);
      }
    case Read(x) =>
      if x in w.env {
        NameExists(run, w, r, x);
        ForceRoomy(run, w.e, w.env[x], n, runs);
      }
  }

  lemma MadeFits(vals: seq<int>, scalar: bool)
    requires |vals| <= MAX_PRINTED && AllWide(vals)
    ensures var t := MadeTensor(vals, scalar); TensorFits(t) && IsMade(t) && t.data == vals
  {
  }

  lemma Spotless(run: Kernel, e: Engine, n: nat, runs: nat)
    requires Roomy(run, e, n, runs)
    ensures e.exact && !e.full
  {
  }
}
