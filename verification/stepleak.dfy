/**
 Where a step is no boundary (modules/tensorflow/backend.c: tfb_step, visit). A parameter is stepped, and a
 loss is taken on the result. Taken eagerly, its gradient stops at the parameter after the step. Taken
 in graph mode, the step is still a recipe, and the gradient's walk goes on to the parameter before it.
 */
module StepLeak {
  import opened Wrappers
  import opened Slots
  import opened Meaning
  import opened Closures
  import opened Results
  import opened Engines
  import opened Evolution
  import opened Programs
  import opened Gradients
  import opened Capacities
  import opened Ledgers

  // ---- in graph mode ----------------------------------------------------------------------------------------

  /** The slot is this recipe, without a value, counts aside. */
  predicate IsRecipe(slots: seq<Slot>, h: nat, spec: OpSpec, up: bool) {
    && Exists(slots, h) && slots[h].kind == NODE && slots[h].spec == spec
    && slots[h].eh.None? && slots[h].underParam == up
  }

  lemma RecordedAs(run: Kernel, e: Engine, spec: OpSpec)
    requires Inv(run, e) && AllExist(e.slots, spec.ins) && !RunSpec(run, e, true, spec, false).0.full
    ensures var (e1, h) := RunSpec(run, e, true, spec, false);
            && h.Some? && IsRecipe(e1.slots, h.value, spec, AnyUnderParam(e.slots, spec.ins))
            && !Exists(e.slots, h.value) && Inv(run, e1) && Spares(e.slots, e1.slots, h.value)
  {
    hide Record, AnyUnderParam, SlotNew;
    RunGraphMoves(run, e, spec, false);
    var h, up := SlotNew(e).1, AnyUnderParam(e.slots, spec.ins);
    RecordKeepsNames(e.slots, h.value, spec, None, up, e.clock);
    RecordKeeps(run, e.slots, h.value, spec, None, up, e.clock);
  }

  /** The difference of a step, recorded: a recipe on the parameter, marked. */
  lemma StepRecipe(run: Kernel, e: Engine, w: nat, g: nat, lr: Tensor)
    requires Inv(run, e) && Exists(e.slots, w) && Exists(e.slots, g) && e.slots[w].isParam
    requires MakeStep(run, e, true, w, g, lr).0.exact && !MakeStep(run, e, true, w, g, lr).0.full
    ensures var (e1, h) := MakeStep(run, e, true, w, g, lr);
            && h.Some? && h.value < |e1.slots| && w in e1.slots[h.value].spec.ins
            && IsRecipe(e1.slots, h.value, e1.slots[h.value].spec, true) && e1.slots[h.value].isParam
  {
    hide NewValue, RunWith, Inv, Moves;
    MakeStepMoves(run, e, true, w, g, lr);
    NewValueMoves(run, e, lr, false, false);
    var (e1, s) := NewValue(e, lr, false, false);
    NewInv(run, e, e1);
    StandsStill(run, e, e1, {}, w);
    StandsStill(run, e, e1, {}, g);
    RunWithMoves(run, e1, true, MUL, g, s.value);
    var (e2, scaled) := RunWith(run, e1, true, MUL, g, s.value);
    FreedNames(run, e1, e2, s.value, w);
    ParamStands(run, e, e1, {}, w);
    ParamStands(run, e1, e2, {s.value}, w);
    DifferenceRecipe(run, e2, w, scaled.value);
  }

  lemma FreedNames(run: Kernel, e: Engine, e1: Engine, gone: nat, x: nat)
    requires Moves(run, e, e1, {gone}) && Exists(e.slots, x) && x != gone
    ensures Inv(run, e1) && Exists(e1.slots, x)
  {
    assert Stands(run, e.slots, e1.slots, x);
  }

  lemma ParamStands(run: Kernel, e: Engine, e1: Engine, gone: set<nat>, x: nat)
    requires Moves(run, e, e1, gone) && Exists(e.slots, x) && x !in gone
    ensures x < |e1.slots| && e1.slots[x].isParam == e.slots[x].isParam
  {
    assert Stands(run, e.slots, e1.slots, x);
  }

  lemma DifferenceRecipe(run: Kernel, e: Engine, w: nat, tmp: nat)
    requires Inv(run, e) && Exists(e.slots, w) && Exists(e.slots, tmp) && w != tmp && e.slots[w].isParam
    requires RunWith(run, e, true, SUB, w, tmp).0.exact && !RunWith(run, e, true, SUB, w, tmp).0.full
    ensures var (e1, h) := RunWith(run, e, true, SUB, w, tmp);
            h.Some? && IsRecipe(e1.slots, h.value, OpSpec(SUB, [w, tmp]), true)
  {
    hide RunSpec, Free;
    var spec := OpSpec(SUB, [w, tmp]);
    assert spec.ins[0] == w;
    assert AllExist(e.slots, spec.ins) && AnyUnderParam(e.slots, spec.ins);
    RecordedAs(run, e, spec);
    var (e1, h) := RunSpec(run, e, true, spec, false);
    FreeKeeps(run, e1.slots, tmp);
  }

  /** A step of `p` named `x`, and a loss on it named `l`. */
  function StepAndLoss(x: Name, p: Name, g: Name, lr: Tensor, l: Name, sig: OpSig): seq<Cmd> {
    [Step(x, p, g, lr), Op(l, sig, [x], false)]
  }

  lemma TwoCommands(run: Kernel, w: World, a: Cmd, b: Cmd)
    ensures RunProgram(run, w, [a, b]) == WorldStep(run, WorldStep(run, w, a), b)
  {
    assert [a, b][1..] == [b] && [b][1..] == [];
    assert RunProgram(run, WorldStep(run, w, a), [b]) == RunProgram(run, WorldStep(run, WorldStep(run, w, a), b), []);
  }

  lemma OneName(env: map<Name, nat>, x: Name)
    requires x in env
    ensures Names(env, [x]) == Some([env[x]])
  {
    assert Names(env, [x]).value == [env[x]];
  }

  /** What the program names after the two commands, in a state it may be in. */
  ghost predicate Begun(run: Kernel, w: World, r: Reference, x: Name, p: Name, g: Name, l: Name) {
    && Simulates(run, w, r) && p in w.env && g in w.env && p in r.params && p != x && p != l && x != l
  }

  lemma BegunParts(run: Kernel, w: World, r: Reference, x: Name, p: Name, g: Name, l: Name)
    requires Begun(run, w, r, x, p, g, l)
    ensures Inv(run, w.e) && Exists(w.e.slots, w.env[p]) && Exists(w.e.slots, w.env[g]) && w.e.slots[w.env[p]].isParam
  {
    assert Right(run, w, r, p) && Right(run, w, r, g);
  }

  /** In graph mode the loss reaches both the parameter after the step, a recipe, and the one before it. */
  lemma GraphReaches(run: Kernel, w: World, r: Reference, x: Name, p: Name, g: Name, lr: Tensor, l: Name, sig: OpSig)
    requires Begun(run, w, r, x, p, g, l) && w.graph
    requires var e := RunProgram(run, w, StepAndLoss(x, p, g, lr, l, sig)).e; e.exact && !e.full
    ensures var w2 := RunProgram(run, w, StepAndLoss(x, p, g, lr, l, sig));
            && {p, x, l} <= w2.env.Keys && w2.env[p] == w.env[p] && Inv(run, w2.e) && Live(w2.e.slots, w2.env[l])
            && Live(w2.e.slots, w2.env[x]) && w2.e.slots[w2.env[x]].isParam && w2.e.slots[w2.env[x]].kind == NODE
            && Reads(w2.e.slots, w2.env[l], w2.env[x]) && Reads(w2.e.slots, w2.env[x], w2.env[p])
  {
    hide RunProgram, MakeStep, RunSpec, Inv, Moves, AnyUnderParam, Simulates;
    var step, op := Step(x, p, g, lr), Op(l, sig, [x], false);
    TwoCommands(run, w, step, op);
    BegunParts(run, w, r, x, p, g, l);
    var w1 := WorldStep(run, w, step);
    MakeStepMoves(run, w.e, true, w.env[p], w.env[g], lr);
    StepRecipe(run, w.e, w.env[p], w.env[g], lr);
    var (e1, h) := MakeStep(run, w.e, true, w.env[p], w.env[g], lr);
    NewInv(run, w.e, e1);
    OneName(w1.env, x);
    assert AnyUnderParam(e1.slots, [h.value]) by { assert [h.value][0] == h.value; OneUnder(e1.slots, h.value); }
    RecordedAs(run, e1, OpSpec(sig, [h.value]));
    assert [h.value][0] == h.value;
  }

  lemma OneUnder(slots: seq<Slot>, h: nat)
    requires h < |slots| && slots[h].isParam
    ensures AnyUnderParam(slots, [h])
  {
    assert [h][0] == h;
  }

  /** So its walk lists the step as an operation, and takes in the parameter it was taken from. */
  lemma GraphWalks(run: Kernel, w: World, r: Reference, x: Name, p: Name, g: Name, lr: Tensor, l: Name, sig: OpSig,
                   walk: Walk)
    requires Begun(run, w, r, x, p, g, l) && w.graph
    requires var w2 := RunProgram(run, w, StepAndLoss(x, p, g, lr, l, sig));
             w2.e.exact && !w2.e.full && l in w2.env && ClosureOf(w2.e.slots, w2.env[l], true) == Walked(walk)
    ensures var w2 := RunProgram(run, w, StepAndLoss(x, p, g, lr, l, sig));
            x in w2.env && w2.env[x] in walk.c.nodes && p in w2.env && Place(walk.c, w2.env[p]).Some?
  {
    hide RunProgram, Inv, ClosureOf, Reads, Begun;
    GraphReaches(run, w, r, x, p, g, lr, l, sig);
    var w2 := RunProgram(run, w, StepAndLoss(x, p, g, lr, l, sig));
    var slots, a, b, c := w2.e.slots, w2.env[l], w2.env[x], w2.env[p];
    InvParts(run, w2.e);
    ReachableSelf(slots, a);
    ReachableNext(slots, a, a, b);
    ReachableNext(slots, a, b, c);
    WalkIsReachable(slots, a, walk, b);
    WalkIsReachable(slots, a, walk, c);
    ClosureListed(slots, a, true);
    NodeIsNoLeaf(slots, walk.c, b);
  }

  lemma NodeIsNoLeaf(slots: seq<Slot>, c: Closure, x: nat)
    requires Formed(slots) && Listed(slots, c, true) && x in Members(c) && x < |slots| && slots[x].kind == NODE
    ensures x in c.nodes
  {
    GradientLeaf(slots[x]);
  }

  // ---- eagerly ----------------------------------------------------------------------------------------------

  /** Taken eagerly, the loss reads only the parameter after the step, which is a plain value. */
  lemma EagerReaches(run: Kernel, w: World, r: Reference, x: Name, p: Name, g: Name, lr: Tensor, l: Name, sig: OpSig)
    requires Begun(run, w, r, x, p, g, l) && !w.graph && Eager(w.e.slots)
    requires var e := RunProgram(run, w, StepAndLoss(x, p, g, lr, l, sig)).e; e.exact && !e.full
    ensures var w2 := RunProgram(run, w, StepAndLoss(x, p, g, lr, l, sig));
            && {p, x, l} <= w2.env.Keys && w2.env[p] != w2.env[x] && w2.env[p] != w2.env[l] && Inv(run, w2.e)
            && Live(w2.e.slots, w2.env[l]) && w2.e.slots[w2.env[l]].kind == NODE
            && w2.e.slots[w2.env[l]].spec.ins == [w2.env[x]]
            && Live(w2.e.slots, w2.env[x]) && w2.e.slots[w2.env[x]].kind == VALUE
  {
    hide RunProgram, MakeStep, RunSpec, Inv, Moves, AnyUnderParam, Simulates, Evolves, EvolvesBut;
    var step, op := Step(x, p, g, lr), Op(l, sig, [x], false);
    TwoCommands(run, w, step, op);
    BegunParts(run, w, r, x, p, g, l);
    var w1 := WorldStep(run, w, step);
    MakeStepMoves(run, w.e, false, w.env[p], w.env[g], lr);
    MakeStepEager(run, w.e, w.env[p], w.env[g], lr);
    var (e1, h) := MakeStep(run, w.e, false, w.env[p], w.env[g], lr);
    NewInv(run, w.e, e1);
    StandsStill(run, w.e, e1, {}, w.env[p]);
    OneName(w1.env, x);
    var spec := OpSpec(sig, [h.value]);
    OneUnder(e1.slots, h.value);
    RunSpecMoves(run, e1, false, spec, false);
    RunSpecMakes(run, e1, false, spec, false);
    var (e2, k) := RunSpec(run, e1, false, spec, false);
    NewInv(run, e1, e2);
    StandsStill(run, e1, e2, {}, h.value);
    StandsStill(run, e1, e2, {}, w.env[p]);
    assert e1.slots[h.value].kind == VALUE;
    TapedLoss(run, e1, e2, k.value, spec);
  }

  lemma TapedLoss(run: Kernel, e: Engine, e1: Engine, k: nat, spec: OpSpec)
    requires EvolvesBut(run, e.slots, e1.slots, k, EagerSlot(run, e, spec)) && AnyUnderParam(e.slots, spec.ins)
    requires Exists(e1.slots, k) && !Exists(e.slots, k) && spec.ins != [] && Exists(e.slots, spec.ins[0])
    requires Live(e.slots, spec.ins[0]) && e.slots[spec.ins[0]].kind == VALUE && Exists(e1.slots, spec.ins[0])
    ensures e1.slots[k].kind == NODE && e1.slots[k].spec == spec && e1.slots[spec.ins[0]].kind == VALUE
  {
    hide ForceAll, ValuesOf, AnyUnderParam;
    assert Later(run, e.slots[spec.ins[0]], e1.slots[spec.ins[0]]);
  }

  lemma EagerWalks(run: Kernel, w: World, r: Reference, x: Name, p: Name, g: Name, lr: Tensor, l: Name, sig: OpSig,
                   walk: Walk)
    requires Begun(run, w, r, x, p, g, l) && !w.graph && Eager(w.e.slots)
    requires var w2 := RunProgram(run, w, StepAndLoss(x, p, g, lr, l, sig));
             w2.e.exact && !w2.e.full && l in w2.env && ClosureOf(w2.e.slots, w2.env[l], true) == Walked(walk)
    ensures var w2 := RunProgram(run, w, StepAndLoss(x, p, g, lr, l, sig));
            x in w2.env && w2.env[x] in walk.c.leaves && p in w2.env && Place(walk.c, w2.env[p]).None?
  {
    hide RunProgram, Inv, ClosureOf, Begun, Eager;
    EagerReaches(run, w, r, x, p, g, lr, l, sig);
    var w2 := RunProgram(run, w, StepAndLoss(x, p, g, lr, l, sig));
    var slots, a, b, c := w2.e.slots, w2.env[l], w2.env[x], w2.env[p];
    InvParts(run, w2.e);
    assert Reads(slots, a, b) by { assert slots[a].spec.ins[0] == b; }
    ReachableSelf(slots, a);
    ReachableNext(slots, a, a, b);
    WalkIsReachable(slots, a, walk, b);
    WalkIsReachable(slots, a, walk, c);
    if Reachable(slots, a, c) { ReachesTwo(slots, a, b, c); }
    ClosureListed(slots, a, true);
    assert b !in walk.c.nodes;
  }

  /** A recipe on one plain value reaches itself and that value. */
  lemma ReachesTwo(slots: seq<Slot>, a: nat, b: nat, y: nat)
    requires Live(slots, a) && slots[a].kind == NODE && slots[a].spec.ins == [b]
    requires Live(slots, b) && slots[b].kind == VALUE && Reachable(slots, a, y)
    ensures y == a || y == b
  {
    var path :| Way(slots, a, y, path);
    assert |path| > 1 ==> Reads(slots, path[0], path[1]);
    assert |path| > 2 ==> Reads(slots, path[1], path[2]);
  }

  /**
   A finding. From any state an eager program can be in, step a parameter and take a loss on the result.
   Eagerly, the gradient's walk ends at the parameter after the step; in graph mode it goes through it, to
   the parameter before.
   */
  lemma RecordedStepIsNoBoundary(run: Kernel, w: World, r: Reference, x: Name, p: Name, g: Name, lr: Tensor, l: Name,
                                 sig: OpSig, a: Walk, b: Walk)
    requires Begun(run, w, r, x, p, g, l) && Eager(w.e.slots)
    requires var eager := RunProgram(run, w.(graph := false), StepAndLoss(x, p, g, lr, l, sig));
             && eager.e.exact && !eager.e.full && l in eager.env
             && ClosureOf(eager.e.slots, eager.env[l], true) == Walked(a)
    requires var graph := RunProgram(run, w.(graph := true), StepAndLoss(x, p, g, lr, l, sig));
             && graph.e.exact && !graph.e.full && l in graph.env
             && ClosureOf(graph.e.slots, graph.env[l], true) == Walked(b)
    ensures var eager := RunProgram(run, w.(graph := false), StepAndLoss(x, p, g, lr, l, sig));
            var graph := RunProgram(run, w.(graph := true), StepAndLoss(x, p, g, lr, l, sig));
            && {x, p} <= eager.env.Keys && {x, p} <= graph.env.Keys
            && eager.env[x] in a.c.leaves && Place(a.c, eager.env[p]).None?
            && graph.env[x] in b.c.nodes && Place(b.c, graph.env[p]).Some?
  {
    hide RunProgram, Simulates, Eager, ClosureOf;
    SimMode(run, w, r, false);
    SimMode(run, w, r, true);
    EagerWalks(run, w.(graph := false), r, x, p, g, lr, l, sig, a);
    GraphWalks(run, w.(graph := true), r, x, p, g, lr, l, sig, b);
  }

  // ---- it does happen ---------------------------------------------------------------------------------------

  /** Names: 0 the data, 1 the parameter, 2 its gradient. */
  function Beginning(t: Tensor, g: Tensor): seq<Cmd> {
    [Data(0, t), Parameter(1, 0), Data(2, g)]
  }

  lemma {:induction false} RunAppend(run: Kernel, w: World, a: seq<Cmd>, b: seq<Cmd>)
    ensures RunProgram(run, w, a + b) == RunProgram(run, RunProgram(run, w, a), b)
    decreases |a|
  {
    if a == [] {
      assert a + b == b;
    } else {
      assert (a + b)[0] == a[0] && (a + b)[1..] == a[1..] + b;
      RunAppend(run, WorldStep(run, w, a[0]), a[1..], b);
    }
  }

  lemma {:induction false} TotalsAppend(a: seq<Cmd>, b: seq<Cmd>)
    ensures TotalBirths(a + b) == TotalBirths(a) + TotalBirths(b) && TotalRuns(a + b) == TotalRuns(a) + TotalRuns(b)
    decreases |a|
  {
    if a == [] {
      assert a + b == b;
    } else {
      assert (a + b)[0] == a[0] && (a + b)[1..] == a[1..] + b;
      TotalsAppend(a[1..], b);
    }
  }

  lemma TotalsOf(t: Tensor, g: Tensor, lr: Tensor, sig: OpSig, mode: seq<Cmd>)
    requires mode == [] || mode == [SetMode(true)]
    ensures TotalBirths(Beginning(t, g)) == 3 && TotalRuns(Beginning(t, g)) == 1
    ensures var p := Beginning(t, g) + mode + StepAndLoss(3, 1, 2, lr, 4, sig); TotalBirths(p) == 7 && TotalRuns(p) == 4
  {
    var a, b := Beginning(t, g), StepAndLoss(3, 1, 2, lr, 4, sig);
    TotalsAppend(a + mode, b);
    TotalsAppend(a, mode);
    TotalsAppend([Data(0, t)], [Parameter(1, 0), Data(2, g)]);
    TotalsAppend([Parameter(1, 0)], [Data(2, g)]);
    assert a == [Data(0, t)] + [Parameter(1, 0), Data(2, g)];
    assert [Parameter(1, 0), Data(2, g)] == [Parameter(1, 0)] + [Data(2, g)];
    TotalsAppend([Step(3, 1, 2, lr)], [Op(4, sig, [3], false)]);
    assert b == [Step(3, 1, 2, lr)] + [Op(4, sig, [3], false)];
    if mode != [] { assert mode[1..] == []; }
  }

  lemma PartsFit(t: Tensor, g: Tensor, lr: Tensor, sig: OpSig, mode: seq<Cmd>, n: nat)
    requires TensorFits(t) && TensorFits(g) && TensorFits(lr) && SigFits(sig) && n >= 6
    requires mode == [] || mode == [SetMode(true)]
    ensures ProgramFits(n, Beginning(t, g) + mode + StepAndLoss(3, 1, 2, lr, 4, sig)) && ProgramFits(n, Beginning(t, g))
  {
    hide SigFits, TensorFits, ProgramFits;
    var a, b := Beginning(t, g), StepAndLoss(3, 1, 2, lr, 4, sig);
    var p := a + mode + b;
    TotalsOf(t, g, lr, sig, mode);
    forall i | 0 <= i < |p| ensures CmdFits(p[i]) {
      assert p[i] in a || p[i] in mode || p[i] in b;
    }
    SmallProgramsFit(n, p);
    SmallProgramsFit(n, a);
  }

  /** The program has room, and so has its gradient's walk. */
  lemma HasRoomFor(run: Kernel, n: nat, t: Tensor, g: Tensor, lr: Tensor, sig: OpSig, mode: seq<Cmd>)
    requires KernelFits(run) && TensorFits(t) && TensorFits(g) && TensorFits(lr) && SigFits(sig) && n >= 6
    requires mode == [] || mode == [SetMode(true)]
    ensures var e := RunProgram(run, Start(n), Beginning(t, g) + mode + StepAndLoss(3, 1, 2, lr, 4, sig)).e;
            e.exact && !e.full && |LiveSet(e.slots)| <= 7
    ensures var e := RunProgram(run, Start(n), Beginning(t, g)).e; e.exact && !e.full
  {
    hide RunProgram, SigFits, TensorFits, ProgramFits, KernelFits, Beginning, StepAndLoss, LiveSet, Owed, LedgerRun;
    var p := Beginning(t, g) + mode + StepAndLoss(3, 1, 2, lr, 4, sig);
    TotalsOf(t, g, lr, sig, mode);
    PartsFit(t, g, lr, sig, mode, n);
    FewLive(run, n, p);
    RunDated(OPENING, p);
    OwedDated(LedgerRun(OPENING, p));
    NeverFull(run, n, Beginning(t, g));
  }

  lemma BegunHere(run: Kernel, n: nat, t: Tensor, g: Tensor)
    requires var e := RunProgram(run, Start(n), Beginning(t, g)).e; e.exact && !e.full
    ensures var w := RunProgram(run, Start(n), Beginning(t, g));
            var r := RefProgram(run, Reference(map[], {}, []), Beginning(t, g));
            Begun(run, w, r, 3, 1, 2, 4) && Eager(w.e.slots) && !w.graph
  {
    hide RunProgram, WorldStep, Inv, Eager;
    StartSimulates(run, n);
    var a := Beginning(t, g);
    RunSimulates(run, Start(n), Reference(map[], {}, []), a);
    RefBeginning(run, t, g);
    StaysEager(run, n, a);
  }

  lemma {:induction false} EagerMode(run: Kernel, w: World, prog: seq<Cmd>)
    requires !w.graph && Eager(w.e.slots) && SetMode(true) !in prog
    ensures !RunProgram(run, w, prog).graph
    decreases |prog|
  {
    hide Eager, WorldStep;
    if prog != [] {
      StepEager(run, w, prog[0]);
      EagerMode(run, WorldStep(run, w, prog[0]), prog[1..]);
    }
  }

  lemma StaysEager(run: Kernel, n: nat, prog: seq<Cmd>)
    requires SetMode(true) !in prog
    ensures var w := RunProgram(run, Start(n), prog); Eager(w.e.slots) && !w.graph
  {
    RunEagerKept(run, Start(n), prog);
    EagerMode(run, Start(n), prog);
  }

  lemma RefBeginning(run: Kernel, t: Tensor, g: Tensor)
    ensures RefProgram(run, Reference(map[], {}, []), Beginning(t, g)) ==
            Reference(map[0 := t, 1 := t, 2 := g], {1}, [])
  {
    var a := Beginning(t, g);
    var r1 := Reference(map[0 := t], {}, []);
    var r2 := Reference(map[0 := t, 1 := t], {1}, []);
    assert a[1..] == [Parameter(1, 0), Data(2, g)] && a[1..][1..] == [Data(2, g)] && a[1..][1..][1..] == [];
    assert RefStep(run, Reference(map[], {}, []), a[0]) == r1 && RefStep(run, r1, Parameter(1, 0)) == r2;
    assert RefProgram(run, r2, [Data(2, g)]) == RefProgram(run, RefStep(run, r2, Data(2, g)), []);
  }

  /** Such a walk has room. */
  lemma WalkHasRoom(run: Kernel, e: Engine, h: nat)
    requires Inv(run, e) && Live(e.slots, h) && |LiveSet(e.slots)| <= 7
    ensures ClosureOf(e.slots, h, true).Walked?
  {
    ClosureListed(e.slots, h, true);
    VisitHasRoom(e.slots, h, Walk(Closure([], []), {}), true, {});
  }

  /** A program that does so, from a fresh engine: the two modes ask about different parameters. */
  lemma StepLeaks(run: Kernel, n: nat, t: Tensor, g: Tensor, lr: Tensor, sig: OpSig)
    requires KernelFits(run) && TensorFits(t) && TensorFits(g) && TensorFits(lr) && SigFits(sig) && n >= 6
    ensures var first, two := Beginning(t, g), StepAndLoss(3, 1, 2, lr, 4, sig);
            var eager := RunProgram(run, Start(n), first + [] + two);
            var graph := RunProgram(run, Start(n), first + [SetMode(true)] + two);
            && {1, 3, 4} <= eager.env.Keys && {1, 3, 4} <= graph.env.Keys
            && var a := ClosureOf(eager.e.slots, eager.env[4], true);
            var b := ClosureOf(graph.e.slots, graph.env[4], true);
            && a.Walked? && eager.env[3] in a.w.c.leaves && Place(a.w.c, eager.env[1]).None?
            && b.Walked? && graph.env[3] in b.w.c.nodes && Place(b.w.c, graph.env[1]).Some?
  {
    hide RunProgram, SigFits, TensorFits, Begun, Eager, ClosureOf, Inv, Reads, StepAndLoss, Beginning;
    var w := RunProgram(run, Start(n), Beginning(t, g));
    var r := RefProgram(run, Reference(map[], {}, []), Beginning(t, g));
    var two := StepAndLoss(3, 1, 2, lr, 4, sig);
    HasRoomFor(run, n, t, g, lr, sig, []);
    HasRoomFor(run, n, t, g, lr, sig, [SetMode(true)]);
    BegunHere(run, n, t, g);
    InOrder(run, n, Beginning(t, g), two);
    GraphBegun(run, w, r);
    EagerReaches(run, w, r, 3, 1, 2, lr, 4, sig);
    GraphReaches(run, w.(graph := true), r, 3, 1, 2, lr, 4, sig);
    var eager, graph := RunProgram(run, w, two), RunProgram(run, w.(graph := true), two);
    WalkHasRoom(run, eager.e, eager.env[4]);
    WalkHasRoom(run, graph.e, graph.env[4]);
    EagerWalks(run, w, r, 3, 1, 2, lr, 4, sig, ClosureOf(eager.e.slots, eager.env[4], true).w);
    GraphWalks(run, w.(graph := true), r, 3, 1, 2, lr, 4, sig, ClosureOf(graph.e.slots, graph.env[4], true).w);
  }

  lemma GraphBegun(run: Kernel, w: World, r: Reference)
    requires Begun(run, w, r, 3, 1, 2, 4)
    ensures Begun(run, w.(graph := true), r, 3, 1, 2, 4)
  {
    hide Simulates;
    SimMode(run, w, r, true);
  }

  lemma ModeOnly(run: Kernel, w: World)
    ensures RunProgram(run, w, [SetMode(true)]) == w.(graph := true)
  {
    assert [SetMode(true)][1..] == [];
    assert RunProgram(run, w.(graph := true), []) == w.(graph := true);
  }

  lemma InOrder(run: Kernel, n: nat, a: seq<Cmd>, b: seq<Cmd>)
    ensures var w := RunProgram(run, Start(n), a);
            && RunProgram(run, Start(n), a + [] + b) == RunProgram(run, w, b)
            && RunProgram(run, Start(n), a + [SetMode(true)] + b) == RunProgram(run, w.(graph := true), b)
  {
    hide RunProgram, Start;
    RunAppend(run, Start(n), a, b);
    assert a + [] + b == a + b;
    RunAppend(run, Start(n), a + [SetMode(true)], b);
    RunAppend(run, Start(n), a, [SetMode(true)]);
    ModeOnly(run, RunProgram(run, Start(n), a));
  }
}
