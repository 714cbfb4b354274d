/**
 What a gradient is asked of (modules/tensorflow/backend.c: tfb_grad, visit with grad_mode). TensorFlow
 is given a loss as a tree of operations over parameters and known values. Two runs of a program that
 differ only in the mode ask for the same tree, as long as every parameter under the loss has its value
 when the gradient is taken; so whatever TensorFlow answers, it answers the same in both.
 */
module Questions {
  import opened Wrappers
  import opened Slots
  import opened Meaning
  import opened Results
  import opened Engines
  import opened Evolution
  import opened Programs
  import opened Gradients

  /** A loss as TensorFlow sees it: what no parameter is under is known; a parameter is told by its stamp. */
  datatype Tree = Known(t: Tensor) | Var(id: nat) | Apply(sig: OpSig, args: seq<Tree>)

  /** The tree of a slot when parameters are where it ends. */
  ghost function Ideal(run: Kernel, slots: seq<Slot>, h: nat): Tree
    requires Formed(slots) && Ordered(slots) && Live(slots, h)
    decreases slots[h].born, 1
  {
    if slots[h].isParam then Var(slots[h].born)
    else if slots[h].kind == NODE && slots[h].underParam then
      Apply(slots[h].spec.sig, IdealInputs(run, slots, h))
    else Known(Den(run, slots, h))
  }

  ghost function IdealInputs(run: Kernel, slots: seq<Slot>, h: nat): (r: seq<Tree>)
    requires Formed(slots) && Ordered(slots) && Live(slots, h) && slots[h].kind == NODE
    ensures |r| == |slots[h].spec.ins|
    decreases slots[h].born, 0
  {
    assert InputsBelow(slots, h);
    seq(|slots[h].spec.ins|, k requires 0 <= k < |slots[h].spec.ins| => Ideal(run, slots, slots[h].spec.ins[k]))
  }

  /** The tree that the gradient's walk takes in: it stops at values, and goes on through every recipe. */
  ghost function Seen(run: Kernel, slots: seq<Slot>, h: nat): Tree
    requires Formed(slots) && Ordered(slots) && Live(slots, h)
    decreases slots[h].born, 1
  {
    if slots[h].kind == NODE && slots[h].underParam then Apply(slots[h].spec.sig, SeenInputs(run, slots, h))
    else if slots[h].isParam then Var(slots[h].born)
    else Known(Den(run, slots, h))
  }

  ghost function SeenInputs(run: Kernel, slots: seq<Slot>, h: nat): (r: seq<Tree>)
    requires Formed(slots) && Ordered(slots) && Live(slots, h) && slots[h].kind == NODE
    ensures |r| == |slots[h].spec.ins|
    decreases slots[h].born, 0
  {
    assert InputsBelow(slots, h);
    seq(|slots[h].spec.ins|, k requires 0 <= k < |slots[h].spec.ins| => Seen(run, slots, slots[h].spec.ins[k]))
  }

  /** Every parameter under `h` has its value. */
  ghost predicate Grounded(slots: seq<Slot>, h: nat) {
    forall x: nat :: Live(slots, x) && Reachable(slots, h, x) && slots[x].isParam ==> slots[x].eh.Some?
  }

  lemma GroundedInput(slots: seq<Slot>, h: nat, y: nat)
    requires Grounded(slots, h) && Reads(slots, h, y)
    ensures Grounded(slots, y)
  {
    forall x: nat | Live(slots, x) && Reachable(slots, y, x) && slots[x].isParam ensures slots[x].eh.Some? {
      var path :| Way(slots, y, x, path);
      assert Way(slots, h, x, [h] + path);
    }
  }

  /** Then the walk sees the tree that ends at parameters. */
  lemma {:induction false} GroundedSeen(run: Kernel, slots: seq<Slot>, h: nat)
    requires Formed(slots) && Ordered(slots) && Live(slots, h) && Grounded(slots, h)
    ensures Seen(run, slots, h) == Ideal(run, slots, h)
    decreases slots[h].born
  {
    hide Grounded;
    if slots[h].kind == NODE && slots[h].underParam {
      GroundedParam(slots, h);
      assert InputsBelow(slots, h);
      forall k | 0 <= k < |slots[h].spec.ins|
        ensures SeenInputs(run, slots, h)[k] == IdealInputs(run, slots, h)[k]
      {
        GroundedInput(slots, h, slots[h].spec.ins[k]);
        GroundedSeen(run, slots, slots[h].spec.ins[k]);
      }
      assert SeenInputs(run, slots, h) == IdealInputs(run, slots, h);
    }
  }

  lemma GroundedParam(slots: seq<Slot>, h: nat)
    requires Formed(slots) && Live(slots, h) && slots[h].kind == NODE && Grounded(slots, h)
    ensures !slots[h].isParam
  {
    ReachableSelf(slots, h);
    assert WellFormed(slots[h]);
  }

  // ---- trees keep -------------------------------------------------------------------------------------------

  /** The slot `x` is an old one: what it was, or what that may have become, and of the same meaning. */
  ghost predicate Old(run: Kernel, a: seq<Slot>, b: seq<Slot>, x: nat)
    requires Formed(a) && Ordered(a) && Formed(b) && Ordered(b) && Live(b, x)
  {
    Live(a, x) && Later(run, a[x], b[x]) && Den(run, b, x) == Den(run, a, x)
  }

  /** Every slot is old, or stamped since. */
  ghost predicate Descends(run: Kernel, a: seq<Slot>, b: seq<Slot>, clock: nat) {
    && Formed(a) && Ordered(a) && Formed(b) && Ordered(b) && OlderThan(a, clock)
    && forall x: nat :: Live(b, x) ==> b[x].born >= clock || Old(run, a, b, x)
  }

  lemma {:induction false} IdealKept(run: Kernel, a: seq<Slot>, b: seq<Slot>, clock: nat, x: nat)
    requires Descends(run, a, b, clock) && Live(b, x) && b[x].born < clock
    ensures Live(a, x) && Ideal(run, b, x) == Ideal(run, a, x)
    decreases b[x].born
  {
    assert Old(run, a, b, x);
    if b[x].kind == NODE && b[x].underParam && !b[x].isParam {
      assert InputsBelow(b, x);
      forall k | 0 <= k < |b[x].spec.ins| ensures IdealInputs(run, b, x)[k] == IdealInputs(run, a, x)[k] {
        IdealKept(run, a, b, clock, b[x].spec.ins[k]);
      }
      assert IdealInputs(run, b, x) == IdealInputs(run, a, x);
    }
  }

  lemma DescendsTrans(run: Kernel, a: seq<Slot>, b: seq<Slot>, c: seq<Slot>, clock: nat, later: nat)
    requires Descends(run, a, b, clock) && Descends(run, b, c, later) && clock <= later
    ensures Descends(run, a, c, clock)
  {
    forall x: nat | Live(c, x) ensures c[x].born >= clock || Old(run, a, c, x) {
      if c[x].born < clock {
        assert Old(run, b, c, x) && Old(run, a, b, x);
      }
    }
  }

  lemma EvolvesDescends(run: Kernel, a: seq<Slot>, b: seq<Slot>, clock: nat)
    requires Formed(a) && Ordered(a) && Formed(b) && Ordered(b) && OlderThan(a, clock)
    requires Evolves(run, a, b) && Preserves(run, a, b)
    ensures Descends(run, a, b, clock)
  {
    forall x: nat | Live(b, x) ensures Old(run, a, b, x) {
      assert Later(run, a[x], b[x]);
    }
  }

  lemma ButDescends(run: Kernel, a: seq<Slot>, b: seq<Slot>, h: nat, s: Slot, clock: nat)
    requires Formed(a) && Ordered(a) && Formed(b) && Ordered(b) && OlderThan(a, clock)
    requires EvolvesBut(run, a, b, h, s) && s.born >= clock
    requires forall x: nat :: Live(b, x) && Live(a, x) && x != h ==> Den(run, b, x) == Den(run, a, x)
    ensures Descends(run, a, b, clock)
  {
    forall x: nat | Live(b, x) ensures b[x].born >= clock || Old(run, a, b, x) {
      if x != h { assert Later(run, a[x], b[x]); }
    }
  }

  // ---- the engine's calls -----------------------------------------------------------------------------------

  lemma InvIs(run: Kernel, e: Engine)
    requires Inv(run, e)
    ensures Meaningful(run, e.slots) && Sound(e.slots) && OlderThan(e.slots, e.clock)
  {
  }

  lemma SoundParts(slots: seq<Slot>)
    requires Sound(slots)
    ensures Formed(slots) && Ordered(slots)
  {
  }

  lemma KeepsDescends(run: Kernel, a: seq<Slot>, b: seq<Slot>, clock: nat)
    requires Keeps(run, a, b) && Evolves(run, a, b) && OlderThan(a, clock)
    ensures Descends(run, a, b, clock)
  {
    forall x: nat | Live(b, x) ensures Old(run, a, b, x) {
      assert Stays(run, a, b, x) && Later(run, a[x], b[x]);
    }
  }

  lemma NewValueDescends(run: Kernel, e: Engine, t: Tensor, made: bool, isParam: bool)
    requires Inv(run, e) && (made ==> IsMade(t))
    ensures var (e1, h) := NewValue(e, t, made, isParam);
            && Inv(run, e1) && Descends(run, e.slots, e1.slots, e.clock)
            && (h.Some? ==> e1.clock == e.clock + 1 && Live(e1.slots, h.value)
                            && Ideal(run, e1.slots, h.value) == if isParam then Var(e.clock) else Known(t))
  {
    hide Evolves, EvolvesBut, SlotNew;
    NewValueMoves(run, e, t, made, isParam);
    NewValueMakes(run, e, t, made, isParam);
    var (e1, h) := NewValue(e, t, made, isParam);
    if h.Some? {
      NewValueKeeps(run, e.slots, h.value, t, made, isParam, e.clock);
      ButDescends(run, e.slots, e1.slots, h.value, ValueSlot(t, made, isParam, e.clock), e.clock);
    } else {
      EvolvesDescends(run, e.slots, e1.slots, e.clock);
    }
  }

  lemma RunWalkDescends(run: Kernel, e: Engine, h: nat, ps: Option<seq<nat>>)
    requires Inv(run, e) && Exists(e.slots, h) && RunWalk(run, e, h, ps).0.exact
    ensures var e1 := RunWalk(run, e, h, ps).0;
            Moves(run, e, e1, {}) && Descends(run, e.slots, e1.slots, e.clock) && e1.clock == e.clock
  {
    hide RunWalk, Keeps, Evolves, Moves;
    RunWalkMoves(run, e, h, ps);
    RunWalkEvolves(run, e, h, ps);
    InvIs(run, e);
    KeepsDescends(run, e.slots, RunWalk(run, e, h, ps).0.slots, e.clock);
  }

  lemma ForceDescends(run: Kernel, e: Engine, h: nat)
    requires Inv(run, e) && Exists(e.slots, h) && Force(run, e, h).0.exact
    ensures var e1 := Force(run, e, h).0;
            Moves(run, e, e1, {}) && Descends(run, e.slots, e1.slots, e.clock) && e1.clock == e.clock
  {
    hide RunWalk, Keeps, Evolves, Moves;
    InvIs(run, e);
    ForceMoves(run, e, h);
    if e.slots[h].eh.None? {
      RunWalkDescends(run, e, h, None);
    } else {
      ForceEvolves(run, e, h);
      KeepsDescends(run, e.slots, Force(run, e, h).0.slots, e.clock);
    }
  }

  lemma FreeDescends(run: Kernel, e: Engine, h: nat)
    requires Inv(run, e) && Exists(e.slots, h)
    ensures Inv(run, FreeIn(e, h)) && Descends(run, e.slots, FreeIn(e, h).slots, e.clock)
  {
    hide Evolves, Free;
    FreeMoves(run, e, h);
    FreeKeeps(run, e.slots, h);
    FreeEvolves(run, e.slots, h);
    EvolvesDescends(run, e.slots, Free(e.slots, h), e.clock);
  }

  /** What is recorded, or run at once, in a table whose slots it does not disturb. */
  lemma SpecDescends(run: Kernel, e: Engine, e1: Engine, spec: OpSpec, graph: bool, refused: bool)
    requires Inv(run, e) && AllExist(e.slots, spec.ins) && RunSpec(run, e, graph, spec, refused).0 == e1 && e1.exact
    ensures Inv(run, e1) && Descends(run, e.slots, e1.slots, e.clock)
  {
    hide Evolves, EvolvesBut, RunGraph, RunEager, Moves;
    RunSpecMoves(run, e, graph, spec, refused);
    MovedInv(run, e, e1);
    if graph {
      GraphDescends(run, e, spec, refused);
    } else {
      EagerDescends(run, e, spec, refused);
    }
  }

  lemma MovedInv(run: Kernel, e: Engine, e1: Engine)
    requires Moves(run, e, e1, {})
    ensures Inv(run, e) && Inv(run, e1)
  {
  }

  lemma GraphDescends(run: Kernel, e: Engine, spec: OpSpec, refused: bool)
    requires Inv(run, e) && AllExist(e.slots, spec.ins)
    ensures Descends(run, e.slots, RunGraph(e, spec, refused).0.slots, e.clock)
  {
    hide Evolves, EvolvesBut, SlotNew, Record, Undo, AnyUnderParam;
    RunGraphMakes(run, e, spec, refused);
    var (e1, h) := RunGraph(e, spec, refused);
    var k, up := SlotNew(e).1, AnyUnderParam(e.slots, spec.ins);
    RunGraphMoves(run, e, spec, refused);
    if h.Some? {
      RecordKeeps(run, e.slots, h.value, spec, None, up, e.clock);
      ButDescends(run, e.slots, e1.slots, h.value, NodeSlot(spec, None, up, e.clock), e.clock);
    } else {
      if k.Some? {
        UndoRestores(e.slots, k.value, spec, up, e.clock);
        FreeSlotAny(run, e.slots, Undo(Record(e.slots, k.value, spec, None, up, e.clock), k.value, spec.ins), k.value);
      }
      EvolvesDescends(run, e.slots, e1.slots, e.clock);
    }
  }

  lemma EagerDescends(run: Kernel, e: Engine, spec: OpSpec, refused: bool)
    requires Inv(run, e) && AllExist(e.slots, spec.ins) && RunEager(run, e, spec, refused).0.exact
    ensures Descends(run, e.slots, RunEager(run, e, spec, refused).0.slots, e.clock)
  {
    hide Evolves, EvolvesBut, SlotNew, Record, ForceAll, Keeps, AnyUnderParam;
    var (e1, ok) := ForceAll(run, e, spec.ins);
    ForceAllMoves(run, e, spec.ins);
    ForceAllEvolves(run, e, spec.ins);
    KeepsDescends(run, e.slots, e1.slots, e.clock);
    if ok && !refused {
      var h := SlotNew(e1).1;
      if h.Some? {
        ValuesAreDens(run, e1.slots, spec.ins);
        var t := run(spec.sig, ValuesOf(e1.slots, spec.ins));
        MadeDescends(run, e1, h.value, spec, t);
        DescendsTrans(run, e.slots, e1.slots, RunEager(run, e, spec, refused).0.slots, e.clock, e1.clock);
      }
    }
  }

  lemma MadeDescends(run: Kernel, e: Engine, h: nat, spec: OpSpec, t: Tensor)
    requires Inv(run, e) && AllExist(e.slots, spec.ins) && 0 < h < |e.slots| && e.slots[h].kind == FREE
    requires t == run(spec.sig, DensOf(run, e.slots, spec.ins))
    ensures Descends(run, e.slots, Record(e.slots, h, spec, Some(t), true, e.clock), e.clock)
    ensures Descends(run, e.slots, e.slots[h := ValueSlot(t, false, false, e.clock)], e.clock)
  {
    hide Evolves, EvolvesBut, Record;
    RecordKeeps(run, e.slots, h, spec, Some(t), true, e.clock);
    NewValueKeeps(run, e.slots, h, t, false, false, e.clock);
    SameEvolves(run, e.slots);
    EagerBut(run, e, e, spec, t, h);
    var node, value := NodeSlot(spec, Some(t), true, e.clock), ValueSlot(t, false, false, e.clock);
    ButDescends(run, e.slots, Record(e.slots, h, spec, Some(t), true, e.clock), h, node, e.clock);
    ButDescends(run, e.slots, e.slots[h := value], h, value, e.clock);
  }

  // ---- the tree of what is made -----------------------------------------------------------------------------

  ghost function IdealsOf(run: Kernel, slots: seq<Slot>, ins: seq<nat>): (r: seq<Tree>)
    requires Formed(slots) && Ordered(slots) && AllExist(slots, ins)
    ensures |r| == |ins|
  {
    seq(|ins|, k requires 0 <= k < |ins| => Ideal(run, slots, ins[k]))
  }

  /** An operation on these trees, of value `t`. */
  function Operation(sig: OpSig, args: seq<Tree>, t: Tensor): Tree {
    if forall k :: 0 <= k < |args| ==> args[k].Known? then Known(t) else Apply(sig, args)
  }

  lemma UnderIsTree(run: Kernel, slots: seq<Slot>, ins: seq<nat>)
    requires Formed(slots) && Ordered(slots) && AllExist(slots, ins)
    ensures var args := IdealsOf(run, slots, ins);
            AnyUnderParam(slots, ins) <==> !forall k :: 0 <= k < |args| ==> args[k].Known?
  {
    var args := IdealsOf(run, slots, ins);
    forall k | 0 <= k < |ins|
      ensures !args[k].Known? <==> slots[ins[k]].isParam || (slots[ins[k]].kind == NODE && slots[ins[k]].underParam)
    {
      assert Exists(slots, ins[k]);
    }
  }

  lemma {:induction false} SpecTree(run: Kernel, e: Engine, graph: bool, spec: OpSpec, refused: bool)
    requires Inv(run, e) && AllExist(e.slots, spec.ins) && RunSpec(run, e, graph, spec, refused).0.exact
    ensures var (e1, h) := RunSpec(run, e, graph, spec, refused);
            && Inv(run, e1) && Descends(run, e.slots, e1.slots, e.clock) && (h.None? ==> e1.clock == e.clock)
            && (h.Some? ==>
                  && e1.clock == e.clock + 1 && Live(e1.slots, h.value) && e1.slots[h.value].born == e.clock
                  && var t := run(spec.sig, DensOf(run, e.slots, spec.ins));
                     Ideal(run, e1.slots, h.value) == Operation(spec.sig, IdealsOf(run, e.slots, spec.ins), t))
  {
    hide RunSpec, Evolves, EvolvesBut, Moves, AnyUnderParam, Descends;
    var (e1, h) := RunSpec(run, e, graph, spec, refused);
    SpecDescends(run, e, e1, spec, graph, refused);
    RunSpecMoves(run, e, graph, spec, refused);
    RunSpecMakes(run, e, graph, spec, refused);
    if h.Some? {
      SpecSlotAs(run, e, graph, spec);
      MadeAs(run, e.slots, e1.slots, h.value, SpecSlot(run, e, graph, spec));
      UnderIsTree(run, e.slots, spec.ins);
      if AnyUnderParam(e.slots, spec.ins) { InputTrees(run, e, e1, h.value, spec); }
    }
  }

  lemma MadeAs(run: Kernel, a: seq<Slot>, b: seq<Slot>, h: nat, s: Slot)
    requires EvolvesBut(run, a, b, h, s)
    ensures Later(run, s, b[h])
  {
  }

  /** The slot an operation is made in: a recipe under a parameter exactly when one of its inputs is. */
  lemma SpecSlotAs(run: Kernel, e: Engine, graph: bool, spec: OpSpec)
    ensures var s := SpecSlot(run, e, graph, spec);
            && s.born == e.clock && !s.isParam && s.kind != FREE && (s.kind == NODE ==> s.spec == spec)
            && (s.kind == NODE && s.underParam <==> AnyUnderParam(e.slots, spec.ins))
  {
    hide ForceAll, ValuesOf, AnyUnderParam, Evolves;
    ForceAllEvolves(run, e, spec.ins);
  }

  lemma InputTrees(run: Kernel, e: Engine, e1: Engine, h: nat, spec: OpSpec)
    requires Inv(run, e) && Inv(run, e1) && Descends(run, e.slots, e1.slots, e.clock) && AllExist(e.slots, spec.ins)
    requires Live(e1.slots, h) && e1.slots[h].kind == NODE && e1.slots[h].spec == spec && e1.slots[h].born == e.clock
    ensures IdealInputs(run, e1.slots, h) == IdealsOf(run, e.slots, spec.ins)
  {
    assert InputsBelow(e1.slots, h);
    forall k | 0 <= k < |spec.ins|
      ensures IdealInputs(run, e1.slots, h)[k] == IdealsOf(run, e.slots, spec.ins)[k]
    {
      IdealKept(run, e.slots, e1.slots, e.clock, spec.ins[k]);
    }
  }

  /** An operation with a temporary: what it makes was not there before. */
  lemma RunWithDescends(run: Kernel, e: Engine, graph: bool, sig: OpSig, a: nat, tmp: nat)
    requires Inv(run, e) && Exists(e.slots, a) && Exists(e.slots, tmp) && RunWith(run, e, graph, sig, a, tmp).0.exact
    ensures var (e1, h) := RunWith(run, e, graph, sig, a, tmp);
            && Inv(run, e1) && Descends(run, e.slots, e1.slots, e.clock)
            && (h.Some? && Live(e1.slots, h.value) ==> e1.clock == e.clock + 1 && e1.slots[h.value].born == e.clock)
  {
    hide RunSpec, Free, Moves, Ideal, IdealsOf, DensOf, Evolves;
    var spec := OpSpec(sig, [a, tmp]);
    assert AllExist(e.slots, spec.ins);
    SpecTree(run, e, graph, spec, false);
    var (e1, h) := RunSpec(run, e, graph, spec, false);
    RunSpecMoves(run, e, graph, spec, false);
    StillThere(run, e, e1, tmp);
    FreeDescends(run, e1, tmp);
    FreeEvolves(run, e1.slots, tmp);
    var b := FreeIn(e1, tmp).slots;
    DescendsTrans(run, e.slots, e1.slots, b, e.clock, e1.clock);
    if h.Some? && Live(b, h.value) { LaterAt(run, e1.slots, b, h.value); }
  }

  lemma LaterAt(run: Kernel, a: seq<Slot>, b: seq<Slot>, x: nat)
    requires Evolves(run, a, b) && Live(b, x)
    ensures Later(run, a[x], b[x])
  {
  }

  lemma StillThere(run: Kernel, e: Engine, e1: Engine, x: nat)
    requires Moves(run, e, e1, {}) && Exists(e.slots, x)
    ensures Exists(e1.slots, x)
  {
    assert Stands(run, e.slots, e1.slots, x);
  }

  /** A slot made since may be marked: no older one is touched. */
  lemma MarkDescends(run: Kernel, a: seq<Slot>, e: Engine, h: nat, clock: nat)
    requires Descends(run, a, e.slots, clock) && Inv(run, e) && Exists(e.slots, h) && e.slots[h].born >= clock
    ensures Descends(run, a, MarkParam(e.slots, h), clock)
    ensures var r := MarkParam(e.slots, h); Live(r, h) && r[h].born == e.slots[h].born && r[h].isParam
  {
    hide DropStructure;
    MarkParamKeeps(run, e.slots, h);
    var s1, r := e.slots[h := e.slots[h].(isParam := true)], MarkParam(e.slots, h);
    SameEvolves(run, s1);
    DropEvolves(run, s1, h);
    forall x: nat | Live(r, x) ensures r[x].born >= clock || Old(run, a, r, x) {
      if r[x].born < clock {
        assert Old(run, a, e.slots, x);
        assert Later(run, s1[x], r[x]);
      }
    }
  }

  /** The first half of a step. */
  lemma ScaleDescends(run: Kernel, e: Engine, graph: bool, w: nat, g: nat, lr: Tensor)
    requires Inv(run, e) && Exists(e.slots, w) && Exists(e.slots, g)
    requires var (e1, s) := NewValue(e, lr, false, false);
             s.Some? && var (e2, p) := RunWith(run, e1, graph, MUL, g, s.value); e2.exact && p.Some?
    ensures var (e1, s) := NewValue(e, lr, false, false);
            var (e2, p) := RunWith(run, e1, graph, MUL, g, s.value);
            && Inv(run, e2) && Descends(run, e.slots, e2.slots, e.clock) && e2.clock == e.clock + 2
            && Exists(e2.slots, p.value) && Exists(e2.slots, w)
  {
    hide NewValue, RunWith, Moves, Descends, Inv, Ideal, Den;
    NewValueDescends(run, e, lr, false, false);
    NewValueMoves(run, e, lr, false, false);
    var (e1, s) := NewValue(e, lr, false, false);
    StillThere(run, e, e1, w);
    StillThere(run, e, e1, g);
    RunWithDescends(run, e1, graph, MUL, g, s.value);
    RunWithMoves(run, e1, graph, MUL, g, s.value);
    var (e2, scaled) := RunWith(run, e1, graph, MUL, g, s.value);
    DescendsTrans(run, e.slots, e1.slots, e2.slots, e.clock, e1.clock);
    StillButOne(run, e1, e2, s.value, w);
  }

  lemma MakeStepTree(run: Kernel, e: Engine, graph: bool, w: nat, g: nat, lr: Tensor)
    requires Inv(run, e) && Exists(e.slots, w) && Exists(e.slots, g)
    requires MakeStep(run, e, graph, w, g, lr).0.exact && MakeStep(run, e, graph, w, g, lr).1.Some?
    ensures var (e1, h) := MakeStep(run, e, graph, w, g, lr);
            && Inv(run, e1) && Descends(run, e.slots, e1.slots, e.clock) && e1.clock == e.clock + 3
            && Live(e1.slots, h.value) && e1.slots[h.value].isParam && e1.slots[h.value].born == e.clock + 2
  {
    hide NewValue, RunWith, MarkParam, Moves, Descends, Inv, Den;
    MakeStepMoves(run, e, graph, w, g, lr);
    MovedInv(run, e, MakeStep(run, e, graph, w, g, lr).0);
    var (e1, s) := NewValue(e, lr, false, false);
    ScaleDescends(run, e, graph, w, g, lr);
    var (e2, scaled) := RunWith(run, e1, graph, MUL, g, s.value);
    RunWithDescends(run, e2, graph, SUB, w, scaled.value);
    RunWithMoves(run, e2, graph, SUB, w, scaled.value);
    var (e3, next) := RunWith(run, e2, graph, SUB, w, scaled.value);
    DescendsTrans(run, e.slots, e2.slots, e3.slots, e.clock, e2.clock);
    MarkDescends(run, e.slots, e3, next.value, e.clock);
  }

  lemma ParamTree(run: Kernel, e: Engine, h: nat)
    requires Inv(run, e) && Live(e.slots, h) && e.slots[h].isParam
    ensures Ideal(run, e.slots, h) == Var(e.slots[h].born)
  {
  }

  lemma StillButOne(run: Kernel, e: Engine, e1: Engine, gone: nat, x: nat)
    requires Moves(run, e, e1, {gone}) && Exists(e.slots, x) && x != gone
    ensures Exists(e1.slots, x)
  {
    assert Stands(run, e.slots, e1.slots, x);
  }

  // ---- the reference's trees --------------------------------------------------------------------------------

  /** The trees of a program's names, kept beside the reference; `clock` counts the slots made. */
  datatype Forest = Forest(clock: nat, trees: map<Name, Tree>)

  function Planted(f: Forest, x: Name, t: Tree, made: nat): Forest {
    Forest(f.clock + made, f.trees[x := t])
  }

  function Cleared(f: Forest, xs: set<Name>): Forest {
    f.(trees := f.trees - xs)
  }

  function PlantedAll(f: Forest, xs: seq<Name>, ts: seq<Tensor>): Forest
    requires |xs| == |ts|
    decreases |xs|
  {
    if xs == [] then f else PlantedAll(Planted(f, xs[0], Known(ts[0]), 1), xs[1..], ts[1..])
  }

  predicate AllPlanted(f: Forest, ys: seq<Name>) {
    forall k :: 0 <= k < |ys| ==> ys[k] in f.trees
  }

  function TreesOf(f: Forest, ys: seq<Name>): (r: seq<Tree>)
    requires AllPlanted(f, ys)
    ensures |r| == |ys|
  {
    seq(|ys|, k requires 0 <= k < |ys| => f.trees[ys[k]])
  }

  /** A parameter, and a step, is where a tree ends. */
  function ForestStep(run: Kernel, r: Reference, f: Forest, c: Cmd): Forest {
    match c
    case SetMode(_) => f
    case Data(x, t) => Planted(f, x, Known(t), 1)
    case Made(x, vals, scalar) => Planted(f, x, Known(MadeTensor(vals, scalar)), 1)
    case Op(x, sig, ys, refused) =>
      if AllPlanted(f, ys) && Programs.Known(r.env, ys) && !refused
      then Planted(f, x, Operation(sig, TreesOf(f, ys), run(sig, ValuesIn(r.env, ys))), 1) else Cleared(f, {x})
    case Parameter(x, y) => if y in f.trees then Planted(f, x, Var(f.clock), 1) else Cleared(f, {x})
    case Step(x, w, g, _) =>
      if w in f.trees && g in f.trees then Planted(f, x, Var(f.clock + 2), 3) else Cleared(f, {x})
    case Grad(_, _, xs, answers) =>
      if RefGradAsked(r, c) then PlantedAll(f, xs, answers) else Cleared(f, set x | x in xs)
    case Release(x) => Cleared(f, {x})
    case Read(_) => f
  }

  /** Every name's tree in the engine is the reference's. */
  ghost predicate Mirrors(run: Kernel, w: World, f: Forest) {
    && Inv(run, w.e) && f.clock == w.e.clock && f.trees.Keys == w.env.Keys
    && forall x :: x in w.env ==> Exists(w.e.slots, w.env[x]) && Ideal(run, w.e.slots, w.env[x]) == f.trees[x]
  }

  /** An engine that moved no name moved no tree. */
  lemma MirrorsMoves(run: Kernel, w: World, f: Forest, e1: Engine)
    requires Mirrors(run, w, f) && Moves(run, w.e, e1, {}) && Descends(run, w.e.slots, e1.slots, w.e.clock)
    ensures Mirrors(run, w.(e := e1), f.(clock := e1.clock))
  {
    hide CacheRight, Descends;
    forall x | x in w.env
      ensures Exists(e1.slots, w.env[x]) && Ideal(run, e1.slots, w.env[x]) == f.trees[x]
    {
      StillThere(run, w.e, e1, w.env[x]);
      SameBirth(run, w.e, e1, w.env[x]);
      IdealKept(run, w.e.slots, e1.slots, w.e.clock, w.env[x]);
    }
  }

  /** A name stands for the slot it stood for: no other was put in its place. */
  lemma SameBirth(run: Kernel, e: Engine, e1: Engine, x: nat)
    requires Moves(run, e, e1, {}) && Descends(run, e.slots, e1.slots, e.clock) && Exists(e.slots, x)
    ensures Live(e1.slots, x) && e1.slots[x].born < e.clock
  {
    assert Stands(run, e.slots, e1.slots, x);
  }

  // ---- one command ------------------------------------------------------------------------------------------

  lemma MirrorsBind(run: Kernel, w: World, f: Forest, x: Name, e1: Engine, h: nat, t: Tree, made: nat)
    requires Mirrors(run, w, f) && Moves(run, w.e, e1, {}) && Descends(run, w.e.slots, e1.slots, w.e.clock)
    requires Exists(e1.slots, h) && Ideal(run, e1.slots, h) == t && e1.clock == w.e.clock + made
    ensures Mirrors(run, Bind(w, x, e1, Some(h)), Planted(f, x, t, made))
  {
    hide Inv, Moves, Descends, Ideal;
    MirrorsMoves(run, w, f, e1);
  }

  lemma MirrorsClear(run: Kernel, w: World, f: Forest, xs: set<Name>)
    requires Mirrors(run, w, f)
    ensures Mirrors(run, w.(env := w.env - xs), Cleared(f, xs))
  {
    hide Inv, Ideal;
  }

  lemma NewMirrors(run: Kernel, w: World, f: Forest, x: Name, t: Tensor, made: bool)
    requires Mirrors(run, w, f) && (made ==> IsMade(t))
    ensures var (e1, h) := NewValue(w.e, t, made, false);
            !e1.full ==> Mirrors(run, Bind(w, x, e1, h), Planted(f, x, Known(t), 1))
  {
    hide NewValue, Inv, Moves, Descends, Ideal;
    NewValueMoves(run, w.e, t, made, false);
    NewValueDescends(run, w.e, t, made, false);
    var (e1, h) := NewValue(w.e, t, made, false);
    if !e1.full { MirrorsBind(run, w, f, x, e1, h.value, Known(t), 1); }
  }

  lemma NamesAgree(run: Kernel, w: World, r: Reference, f: Forest, ys: seq<Name>)
    requires Simulates(run, w, r) && Mirrors(run, w, f) && Names(w.env, ys).Some?
    ensures AllPlanted(f, ys) && Programs.Known(r.env, ys) && AllExist(w.e.slots, Names(w.env, ys).value)
    ensures IdealsOf(run, w.e.slots, Names(w.env, ys).value) == TreesOf(f, ys)
  {
    hide Inv;
    InvIs(run, w.e);
    NamesRight(run, w, r, ys);
    var ins: seq<nat> := Names(w.env, ys).value;
    forall k | 0 <= k < |ys| ensures ys[k] in f.trees && Ideal(run, w.e.slots, ins[k]) == f.trees[ys[k]] {
      assert ins[k] == w.env[ys[k]];
    }
  }

  lemma OpMirrors(run: Kernel, w: World, r: Reference, f: Forest, c: Cmd)
    requires Simulates(run, w, r) && Mirrors(run, w, f) && c.Op?
    ensures var w' := WorldStep(run, w, c);
            w'.e.exact && !w'.e.full ==> Mirrors(run, w', ForestStep(run, r, f, c))
  {
    hide RunSpec, Inv, Moves, Descends, Ideal, Simulates, Operation, IdealsOf, TreesOf, DensOf, ValuesIn;
    var w' := WorldStep(run, w, c);
    if w'.e.exact && !w'.e.full {
      if Names(w.env, c.ys).Some? {
        var spec := OpSpec(c.sig, Names(w.env, c.ys).value);
        NamesAgree(run, w, r, f, c.ys);
        NamesRight(run, w, r, c.ys);
        RunSpecMoves(run, w.e, w.graph, spec, c.refused);
        SpecTree(run, w.e, w.graph, spec, c.refused);
        var (e1, h) := RunSpec(run, w.e, w.graph, spec, c.refused);
        InvIs(run, e1);
        if h.Some? {
          MirrorsBind(run, w, f, c.x, e1, h.value, Ideal(run, e1.slots, h.value), 1);
        } else {
          MirrorsMoves(run, w, f, e1);
          MirrorsClear(run, w.(e := e1), f, {c.x});
        }
      } else {
        NotPlanted(run, w, f, c.ys);
        MirrorsClear(run, w, f, {c.x});
      }
    }
  }

  lemma NotPlanted(run: Kernel, w: World, f: Forest, ys: seq<Name>)
    requires Mirrors(run, w, f)
    ensures AllPlanted(f, ys) ==> Names(w.env, ys).Some?
  {
  }

  lemma ParameterBound(run: Kernel, w: World, f: Forest, x: Name, y: Name)
    requires Mirrors(run, w, f) && y in w.env
    requires var e1 := MakeParameter(run, w.e, w.env[y]).0; e1.exact && !e1.full
    ensures var (e1, h) := MakeParameter(run, w.e, w.env[y]);
            Mirrors(run, Bind(w, x, e1, h), Planted(f, x, Var(f.clock), 1))
  {
    hide Force, NewValue, Moves, Descends, Ideal, Inv, Den;
    var h := w.env[y];
    ReadMoves(run, w.e, h);
    ForceDescends(run, w.e, h);
    var (e1, v) := ReadValue(run, w.e, h);
    MovedInv(run, w.e, e1);
    MirrorsMoves(run, w, f, e1);
    NewValueMoves(run, e1, v.value, false, true);
    NewValueDescends(run, e1, v.value, false, true);
    var (e2, k) := NewValue(e1, v.value, false, true);
    MirrorsBind(run, w.(e := e1), f, x, e2, k.value, Var(f.clock), 1);
  }

  lemma ParameterMirrors(run: Kernel, w: World, f: Forest, c: Cmd)
    requires Mirrors(run, w, f) && c.Parameter?
    ensures var w' := WorldStep(run, w, c);
            w'.e.exact && !w'.e.full ==> Mirrors(run, w', ForestStep(run, Reference(map[], {}, []), f, c))
  {
    hide MakeParameter, Mirrors;
    var w' := WorldStep(run, w, c);
    MirrorsNames(run, w, f);
    if w'.e.exact && !w'.e.full {
      if c.y in w.env {
        ParameterBound(run, w, f, c.x, c.y);
      } else {
        MirrorsClear(run, w, f, {c.x});
      }
    }
  }

  lemma StepBound(run: Kernel, w: World, f: Forest, x: Name, p: Name, g: Name, lr: Tensor)
    requires Mirrors(run, w, f) && p in w.env && g in w.env
    requires var e1 := MakeStep(run, w.e, w.graph, w.env[p], w.env[g], lr).0; e1.exact && !e1.full
    ensures var (e1, h) := MakeStep(run, w.e, w.graph, w.env[p], w.env[g], lr);
            Mirrors(run, Bind(w, x, e1, h), Planted(f, x, Var(f.clock + 2), 3))
  {
    hide MakeStep, Moves, Descends, Ideal, Inv, Den;
    var hp, hg := w.env[p], w.env[g];
    MakeStepMoves(run, w.e, w.graph, hp, hg, lr);
    MakeStepTree(run, w.e, w.graph, hp, hg, lr);
    var (e1, h) := MakeStep(run, w.e, w.graph, hp, hg, lr);
    ParamTree(run, e1, h.value);
    MirrorsBind(run, w, f, x, e1, h.value, Var(f.clock + 2), 3);
  }

  lemma StepMirrors(run: Kernel, w: World, f: Forest, c: Cmd)
    requires Mirrors(run, w, f) && c.Step?
    ensures var w' := WorldStep(run, w, c);
            w'.e.exact && !w'.e.full ==> Mirrors(run, w', ForestStep(run, Reference(map[], {}, []), f, c))
  {
    hide MakeStep, Mirrors;
    var w' := WorldStep(run, w, c);
    MirrorsNames(run, w, f);
    if w'.e.exact && !w'.e.full {
      if c.w in w.env && c.g in w.env {
        StepBound(run, w, f, c.x, c.w, c.g, c.lr);
      } else {
        MirrorsClear(run, w, f, {c.x});
      }
    }
  }

  lemma MirrorsNames(run: Kernel, w: World, f: Forest)
    requires Mirrors(run, w, f)
    ensures forall x :: x in w.env <==> x in f.trees
  {
  }

  lemma {:induction false} BindAllMirrors(run: Kernel, w: World, f: Forest, xs: seq<Name>, ts: seq<Tensor>)
    requires Mirrors(run, w, f) && |xs| == |ts|
    ensures !BindAll(w, xs, ts).e.full ==> Mirrors(run, BindAll(w, xs, ts), PlantedAll(f, xs, ts))
    decreases |xs|
  {
    hide Mirrors, NewValue;
    if xs != [] {
      NewMirrors(run, w, f, xs[0], ts[0], false);
      var (e1, h) := NewValue(w.e, ts[0], false, false);
      if !e1.full {
        BindAllMirrors(run, Bind(w, xs[0], e1, h), Planted(f, xs[0], Known(ts[0]), 1), xs[1..], ts[1..]);
      }
    }
  }

  lemma GradMirrors(run: Kernel, w: World, r: Reference, f: Forest, c: Cmd)
    requires Simulates(run, w, r) && Mirrors(run, w, f) && c.Grad?
    ensures var w' := WorldStep(run, w, c);
            w'.e.exact && !w'.e.full ==> Mirrors(run, w', ForestStep(run, r, f, c))
  {
    hide RunWalk, Mirrors, Moves, Descends, Inv, Simulates, BindAll, RefGradAsked;
    var w' := WorldStep(run, w, c);
    if w'.e.exact && !w'.e.full {
      GradAskedAgree(run, w, r, c);
      if GradAsked(w, c) {
        var loss := w.env[c.loss];
        var ps := Names(w.env, c.ps);
        if w.e.slots[loss].kind == NODE && w.e.slots[loss].underParam {
          MirrorsInv(run, w, f);
          RunWalkDescends(run, w.e, loss, ps);
          var (e1, ok) := RunWalk(run, w.e, loss, ps);
          RunWalkMoves(run, w.e, loss, ps);
          MirrorsMoves(run, w, f, e1);
          assert ok;
          BindAllMirrors(run, w.(e := e1), f, c.xs, c.answers);
        } else {
          BindAllMirrors(run, w, f, c.xs, c.answers);
        }
      } else {
        MirrorsClear(run, w, f, set x | x in c.xs);
      }
    }
  }

  lemma MirrorsInv(run: Kernel, w: World, f: Forest)
    requires Mirrors(run, w, f)
    ensures Inv(run, w.e) && f.clock == w.e.clock
  {
  }

  lemma ReleaseMirrors(run: Kernel, w: World, r: Reference, f: Forest, c: Cmd)
    requires Simulates(run, w, r) && Mirrors(run, w, f) && c.Release?
    ensures Mirrors(run, WorldStep(run, w, c), ForestStep(run, r, f, c))
  {
    hide Free, Ideal, Inv, Descends, Moves, Simulates, Mirrors;
    MirrorsClear(run, w, f, {c.x});
    if c.x in w.env {
      OneHandle(run, w, r, c.x);
      MirrorsFree(run, w.(env := w.env - {c.x}), Cleared(f, {c.x}), w.env[c.x]);
    } else {
      assert w.env - {c.x} == w.env;
    }
  }

  /** No other name has this handle. */
  lemma OneHandle(run: Kernel, w: World, r: Reference, x: Name)
    requires Simulates(run, w, r) && x in w.env
    ensures Inv(run, w.e) && Exists(w.e.slots, w.env[x]) && forall y :: y in w.env && y != x ==> w.env[y] != w.env[x]
  {
    hide Inv;
    assert Right(run, w, r, x);
  }

  lemma MirrorsFree(run: Kernel, w: World, f: Forest, h: nat)
    requires Mirrors(run, w, f) && Inv(run, w.e) && Exists(w.e.slots, h) && forall x :: x in w.env ==> w.env[x] != h
    ensures Mirrors(run, w.(e := FreeIn(w.e, h)), f)
  {
    hide Free, Ideal, Inv, Descends, Moves;
    FreeMoves(run, w.e, h);
    FreeDescends(run, w.e, h);
    var e1 := FreeIn(w.e, h);
    InvIs(run, e1);
    forall x | x in w.env ensures Exists(e1.slots, w.env[x]) && Ideal(run, e1.slots, w.env[x]) == f.trees[x] {
      OtherTree(run, w.e, e1, h, w.env[x]);
    }
  }

  lemma OtherTree(run: Kernel, e: Engine, e1: Engine, gone: nat, x: nat)
    requires Moves(run, e, e1, {gone}) && Descends(run, e.slots, e1.slots, e.clock) && Exists(e.slots, x) && x != gone
    ensures Exists(e1.slots, x) && Inv(run, e) && Inv(run, e1) && Ideal(run, e1.slots, x) == Ideal(run, e.slots, x)
  {
    assert Stands(run, e.slots, e1.slots, x);
    IdealKept(run, e.slots, e1.slots, e.clock, x);
  }

  lemma ReadMirrors(run: Kernel, w: World, r: Reference, f: Forest, c: Cmd)
    requires Mirrors(run, w, f) && c.Read?
    ensures var w' := WorldStep(run, w, c);
            w'.e.exact ==> Mirrors(run, w', ForestStep(run, r, f, c))
  {
    hide Force, Ideal, Inv, Descends, Moves;
    if c.x in w.env && WorldStep(run, w, c).e.exact {
      ForceDescends(run, w.e, w.env[c.x]);
      MirrorsMoves(run, w, f, Force(run, w.e, w.env[c.x]).0);
    }
  }

  /** Every command keeps every tree. */
  lemma CommandMirrors(run: Kernel, w: World, r: Reference, f: Forest, c: Cmd)
    requires Simulates(run, w, r) && Mirrors(run, w, f)
    ensures var w' := WorldStep(run, w, c);
            w'.e.exact && !w'.e.full ==> Mirrors(run, w', ForestStep(run, r, f, c))
  {
    hide Simulates, NewValue, RunSpec, MakeStep, MakeGrad, MakeParameter, ReadValue, FreeIn, Ideal, Inv;
    match c
    case SetMode(_) =>
    case Data(x, t) => NewMirrors(run, w, f, x, t, false);
    case Made(x, vals, scalar) => NewMirrors(run, w, f, x, MadeTensor(vals, scalar), true);
    case Op(_, _, _, _) => OpMirrors(run, w, r, f, c);
    case Parameter(_, _) => ParameterMirrors(run, w, f, c);
    case Step(_, _, _, _) => StepMirrors(run, w, f, c);
    case Grad(_, _, _, _) => GradMirrors(run, w, r, f, c);
    case Release(_) => ReleaseMirrors(run, w, r, f, c);
    case Read(_) => ReadMirrors(run, w, r, f, c);
  }

  // ---- what TensorFlow is asked, over a whole run -----------------------------------------------------------

  /** TensorFlow's answers: some function of the loss's tree and of which parameters are meant. */
  type Oracle = (Tree, seq<nat>) -> seq<Tensor>

  ghost function Targets(w: World, c: Cmd): seq<nat>
    requires c.Grad? && GradAsked(w, c)
  {
    seq(|c.ps|, k requires 0 <= k < |c.ps| => w.e.slots[w.env[c.ps[k]]].born)
  }

  /** The answers that come with a gradient are TensorFlow's to the question this engine asks. */
  ghost predicate HonestHere(run: Kernel, g: Oracle, w: World, c: Cmd) {
    c.Grad? && GradAsked(w, c) && Sound(w.e.slots) ==>
      c.answers == g(Seen(run, w.e.slots, w.env[c.loss]), Targets(w, c))
  }

  ghost predicate Honest(run: Kernel, g: Oracle, w: World, prog: seq<Cmd>)
    decreases |prog|
  {
    prog == [] || (HonestHere(run, g, w, prog[0]) && Honest(run, g, WorldStep(run, w, prog[0]), prog[1..]))
  }

  /** Whenever a gradient is taken, every parameter under its loss has its value. */
  ghost predicate AlwaysGrounded(run: Kernel, w: World, prog: seq<Cmd>)
    decreases |prog|
  {
    prog == [] ||
    (var c := prog[0];
     && (c.Grad? && GradAsked(w, c) ==> Grounded(w.e.slots, w.env[c.loss]))
     && AlwaysGrounded(run, WorldStep(run, w, c), prog[1..]))
  }

  function StampOf(t: Tree): nat {
    match t case Var(id) => id case _ => 0
  }

  function StampsOf(f: Forest, ps: seq<Name>): seq<nat>
    requires AllPlanted(f, ps)
  {
    seq(|ps|, k requires 0 <= k < |ps| => StampOf(f.trees[ps[k]]))
  }

  /** The same of the reference, which has no mode. */
  ghost predicate RefHonestHere(g: Oracle, r: Reference, f: Forest, c: Cmd) {
    c.Grad? && RefGradAsked(r, c) && c.loss in f.trees && AllPlanted(f, c.ps) ==>
      c.answers == g(f.trees[c.loss], StampsOf(f, c.ps))
  }

  ghost predicate RefHonest(run: Kernel, g: Oracle, r: Reference, f: Forest, prog: seq<Cmd>)
    decreases |prog|
  {
    prog == [] ||
    (&& RefHonestHere(g, r, f, prog[0])
     && RefHonest(run, g, RefStep(run, r, prog[0]), ForestStep(run, r, f, prog[0]), prog[1..]))
  }

  /** What the engine asks is what the reference would. */
  lemma SameQuestion(run: Kernel, w: World, f: Forest, c: Cmd)
    requires Mirrors(run, w, f) && c.Grad? && GradAsked(w, c) && Grounded(w.e.slots, w.env[c.loss])
    ensures Sound(w.e.slots) && c.loss in f.trees && AllPlanted(f, c.ps)
    ensures Seen(run, w.e.slots, w.env[c.loss]) == f.trees[c.loss] && Targets(w, c) == StampsOf(f, c.ps)
  {
    hide Grounded, Inv, Seen, Ideal, Sound;
    InvIs(run, w.e);
    SoundParts(w.e.slots);
    GroundedSeen(run, w.e.slots, w.env[c.loss]);
    forall k | 0 <= k < |c.ps| ensures c.ps[k] in f.trees && StampOf(f.trees[c.ps[k]]) == Targets(w, c)[k] {
      ParamTree(run, w.e, w.env[c.ps[k]]);
    }
  }

  lemma HonestHereIff(run: Kernel, g: Oracle, w: World, r: Reference, f: Forest, c: Cmd)
    requires Simulates(run, w, r) && Mirrors(run, w, f) && !w.e.full
    requires c.Grad? && GradAsked(w, c) ==> Grounded(w.e.slots, w.env[c.loss])
    ensures HonestHere(run, g, w, c) <==> RefHonestHere(g, r, f, c)
  {
    hide Grounded, Simulates, Mirrors, Seen, Targets, StampsOf, RefGradAsked;
    if c.Grad? {
      GradAskedAgree(run, w, r, c);
      if GradAsked(w, c) { SameQuestion(run, w, f, c); }
    }
  }

  lemma {:induction false} HonestIff(run: Kernel, g: Oracle, w: World, r: Reference, f: Forest, prog: seq<Cmd>)
    requires Simulates(run, w, r) && Mirrors(run, w, f) && AlwaysGrounded(run, w, prog)
    requires RunProgram(run, w, prog).e.exact && !RunProgram(run, w, prog).e.full
    ensures Honest(run, g, w, prog) <==> RefHonest(run, g, r, f, prog)
    decreases |prog|
  {
    hide Simulates, Mirrors, WorldStep, HonestHere, RefHonestHere, RefStep, ForestStep;
    if prog != [] {
      var w1 := WorldStep(run, w, prog[0]);
      assert w1.e.exact && !w1.e.full && !w.e.full;
      HonestHereIff(run, g, w, r, f, prog[0]);
      StepSimulates(run, w, r, prog[0]);
      CommandMirrors(run, w, r, f, prog[0]);
      HonestIff(run, g, w1, RefStep(run, r, prog[0]), ForestStep(run, r, f, prog[0]), prog[1..]);
    }
  }

  lemma {:induction false} RefHonestModes(run: Kernel, g: Oracle, r: Reference, f: Forest, prog: seq<Cmd>)
    ensures RefHonest(run, g, r, f, prog) <==> RefHonest(run, g, r, f, WithoutModes(prog))
    decreases |prog|
  {
    if prog != [] {
      RefHonestModes(run, g, RefStep(run, r, prog[0]), ForestStep(run, r, f, prog[0]), prog[1..]);
      if !prog[0].SetMode? {
        assert WithoutModes(prog)[0] == prog[0] && WithoutModes(prog)[1..] == WithoutModes(prog[1..]);
      } else {
        assert WithoutModes(prog) == WithoutModes(prog[1..]);
      }
    }
  }

  const BARE := Forest(0, map[])
  const NOTHING := Reference(map[], {}, [])

  lemma StartMirrors(run: Kernel, n: nat)
    ensures Mirrors(run, Start(n), BARE)
  {
    StartSimulates(run, n);
  }

  /**
   Two runs of a program that differ only in mode put the same questions to TensorFlow: its answers
   are right for the one if and only if they are right for the other, whatever function it answers by.
   */
  lemma GradientsAgree(run: Kernel, g: Oracle, n: nat, p: seq<Cmd>, q: seq<Cmd>)
    requires WithoutModes(p) == WithoutModes(q)
    requires AlwaysGrounded(run, Start(n), p) && AlwaysGrounded(run, Start(n), q)
    requires RunProgram(run, Start(n), p).e.exact && !RunProgram(run, Start(n), p).e.full
    requires RunProgram(run, Start(n), q).e.exact && !RunProgram(run, Start(n), q).e.full
    ensures Honest(run, g, Start(n), p) <==> Honest(run, g, Start(n), q)
  {
    hide Honest, RefHonest, AlwaysGrounded, Simulates, Mirrors, RunProgram, WithoutModes;
    StartMirrors(run, n);
    StartSimulates(run, n);
    HonestIff(run, g, Start(n), NOTHING, BARE, p);
    HonestIff(run, g, Start(n), NOTHING, BARE, q);
    RefHonestModes(run, g, NOTHING, BARE, p);
    RefHonestModes(run, g, NOTHING, BARE, q);
  }

  /** Run eagerly, a program is always grounded. */
  lemma {:induction false} EagerGrounded(run: Kernel, w: World, r: Reference, prog: seq<Cmd>)
    requires Simulates(run, w, r) && !w.graph && Eager(w.e.slots) && SetMode(true) !in prog
    requires RunProgram(run, w, prog).e.exact
    ensures AlwaysGrounded(run, w, prog)
    decreases |prog|
  {
    hide Simulates, Eager, WorldStep, Grounded;
    if prog != [] {
      var c := prog[0];
      if c.Grad? && GradAsked(w, c) { EagerIsGrounded(run, w, r, w.env[c.loss]); }
      StepEager(run, w, c);
      StepSimulates(run, w, r, c);
      EagerGrounded(run, WorldStep(run, w, c), RefStep(run, r, c), prog[1..]);
    }
  }

  lemma EagerIsGrounded(run: Kernel, w: World, r: Reference, h: nat)
    requires Simulates(run, w, r) && Eager(w.e.slots)
    ensures Grounded(w.e.slots, h)
  {
    forall x: nat | Live(w.e.slots, x) && w.e.slots[x].isParam ensures w.e.slots[x].eh.Some? {
      assert WellFormed(w.e.slots[x]);
    }
  }

  /** So what TensorFlow answers an eager run it answers every grounded run of the same program. */
  lemma EagerAnswersServe(run: Kernel, g: Oracle, n: nat, p: seq<Cmd>, q: seq<Cmd>)
    requires WithoutModes(p) == WithoutModes(q) && SetMode(true) !in p && AlwaysGrounded(run, Start(n), q)
    requires RunProgram(run, Start(n), p).e.exact && !RunProgram(run, Start(n), p).e.full
    requires RunProgram(run, Start(n), q).e.exact && !RunProgram(run, Start(n), q).e.full
    requires Honest(run, g, Start(n), p)
    ensures Honest(run, g, Start(n), q) && RunProgram(run, Start(n), q).out == RunProgram(run, Start(n), p).out
  {
    hide Honest, AlwaysGrounded, Simulates, RunProgram, WithoutModes;
    StartSimulates(run, n);
    EagerGrounded(run, Start(n), NOTHING, p);
    GradientsAgree(run, g, n, p, q);
    EagerAndGraphAgree(run, n, p, q);
  }
}
