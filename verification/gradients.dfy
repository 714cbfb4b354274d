/**
 Where a gradient's walk stops (modules/tensorflow/backend.c: visit with grad_mode, tfb_step and
 tfb_grad). A parameter is meant to be a boundary. It is one exactly while it has its value; eager
 programs never have it otherwise, and a graph program can.
 */
module Gradients {
  import opened Wrappers
  import opened Slots
  import opened Meaning
  import opened Closures
  import opened Engines
  import opened Evolution
  import opened Programs

  // ---- what a walk reaches ---------------------------------------------------------------------------

  /** `y` is an input of the recipe of `x`. */
  predicate Reads(slots: seq<Slot>, x: nat, y: nat) {
    Live(slots, x) && slots[x].kind == NODE && y in slots[x].spec.ins
  }

  /** A way from `x` to `y` along inputs. */
  ghost predicate Way(slots: seq<Slot>, x: nat, y: nat, path: seq<nat>) {
    && path != [] && path[0] == x && path[|path| - 1] == y
    && forall i :: 0 <= i < |path| - 1 ==> Reads(slots, path[i], path[i + 1])
  }

  ghost predicate Reachable(slots: seq<Slot>, x: nat, y: nat) {
    exists path :: Way(slots, x, y, path)
  }

  lemma ReachableSelf(slots: seq<Slot>, x: nat)
    ensures Reachable(slots, x, x)
  {
    assert Way(slots, x, x, [x]);
  }

  lemma ReachableNext(slots: seq<Slot>, x: nat, y: nat, z: nat)
    requires Reachable(slots, x, y) && Reads(slots, y, z)
    ensures Reachable(slots, x, z)
  {
    var path :| Way(slots, x, y, path);
    assert Way(slots, x, z, path + [z]);
  }

  /** A gradient's walk stops nowhere but at values. */
  lemma GradientLeaf(s: Slot)
    requires WellFormed(s) && s.kind != FREE
    ensures IsLeaf(s, true) <==> s.kind == VALUE
  {
  }

  /** A walk adds only what its start reaches. */
  lemma {:induction false} VisitReaches(slots: seq<Slot>, root: nat, h: nat, w: Walk)
    requires Formed(slots) && Reachable(slots, root, h)
    requires forall x :: x in Members(w.c) ==> Reachable(slots, root, x)
    ensures var r := Visit(slots, h, w, true);
            r.Walked? ==> forall x :: x in Members(r.w.c) ==> Reachable(slots, root, x)
    decreases LiveSet(slots) - w.seen, 0, 0
  {
    hide Reachable;
    if Live(slots, h) && h !in w.seen {
      var w1 := w.(seen := w.seen + {h});
      if !IsLeaf(slots[h], true) {
        assert LiveSet(slots) - w1.seen < LiveSet(slots) - w.seen by {
          assert h in LiveSet(slots) - w.seen && h !in LiveSet(slots) - w1.seen;
        }
        VisitInputsReach(slots, root, h, 0, w1);
      }
    }
  }

  lemma {:induction false} VisitInputsReach(slots: seq<Slot>, root: nat, h: nat, k: nat, w: Walk)
    requires Formed(slots) && Reachable(slots, root, h) && Live(slots, h) && slots[h].kind == NODE
    requires k <= |slots[h].spec.ins|
    requires forall x :: x in Members(w.c) ==> Reachable(slots, root, x)
    ensures var r := VisitInputs(slots, h, k, w, true);
            r.Walked? ==> forall x :: x in Members(r.w.c) ==> Reachable(slots, root, x)
    decreases LiveSet(slots) - w.seen, 1, |slots[h].spec.ins| - k
  {
    hide Reachable, Visit;
    if k < |slots[h].spec.ins| {
      var x := slots[h].spec.ins[k];
      ReachableNext(slots, root, h, x);
      VisitReaches(slots, root, x, w);
      match Visit(slots, x, w, true)
      case Walked(w1) => VisitInputsReach(slots, root, h, k + 1, w1);
      case _ =>
    }
  }

  /** A listed closure holds the inputs of its nodes, and so everything reachable from any of them. */
  lemma {:induction false} ListedReaches(slots: seq<Slot>, c: Closure, path: seq<nat>, x: nat, y: nat)
    requires Formed(slots) && Listed(slots, c, true) && x in Members(c) && Way(slots, x, y, path)
    ensures y in Members(c)
    decreases |path|
  {
    if |path| > 1 {
      assert Reads(slots, path[0], path[1]);
      GradientLeaf(slots[x]);
      assert x in c.nodes;
      var i :| 0 <= i < |c.nodes| && c.nodes[i] == x;
      assert InputsEarlier(slots, c, i);
      var k :| 0 <= k < |slots[x].spec.ins| && slots[x].spec.ins[k] == path[1];
      assert path[1] in Members(c);
      ListedReaches(slots, c, path[1..], path[1], y);
    }
  }

  /** The gradient's walk from a loss takes in exactly the slots its recipes reach. */
  lemma WalkIsReachable(slots: seq<Slot>, loss: nat, w: Walk, x: nat)
    requires Formed(slots) && Ordered(slots) && Live(slots, loss) && ClosureOf(slots, loss, true) == Walked(w)
    ensures x in Members(w.c) <==> Reachable(slots, loss, x)
  {
    ClosureListed(slots, loss, true);
    ReachableSelf(slots, loss);
    VisitReaches(slots, loss, loss, Walk(Closure([], []), {}));
    assert loss in Members(w.c);
    if Reachable(slots, loss, x) {
      var path :| Way(slots, loss, x, path);
      ListedReaches(slots, w.c, path, loss, x);
    }
  }

  /**
   The walk passes through no parameter if and only if every parameter the loss rests on already
   has its value.
   */
  lemma GradientBoundary(slots: seq<Slot>, loss: nat, w: Walk)
    requires Formed(slots) && Ordered(slots) && Live(slots, loss) && ClosureOf(slots, loss, true) == Walked(w)
    ensures (forall i :: 0 <= i < |w.c.nodes| ==> !slots[w.c.nodes[i]].isParam)
       <==> (forall x: nat :: x < |slots| && Reachable(slots, loss, x) && slots[x].isParam ==> slots[x].eh.Some?)
  {
    hide Reachable;
    ClosureListed(slots, loss, true);
    forall x: nat | x < |slots| ensures x in Members(w.c) <==> Reachable(slots, loss, x) {
      WalkIsReachable(slots, loss, w, x);
    }
    forall i | 0 <= i < |w.c.nodes|
      ensures slots[w.c.nodes[i]].isParam ==> slots[w.c.nodes[i]].eh.None? && Reachable(slots, loss, w.c.nodes[i])
    {
      assert WellFormed(slots[w.c.nodes[i]]) && w.c.nodes[i] in Members(w.c);
    }
    forall x: nat | x < |slots| && Reachable(slots, loss, x) && slots[x].eh.None? ensures x in w.c.nodes {
      assert x in Members(w.c);
    }
  }

  // ---- eager programs ----------------------------------------------------------------------------------

  /** Everything the program names has its value, and every parameter is a plain value. */
  ghost predicate Eager(slots: seq<Slot>) {
    && (forall x: nat :: Exists(slots, x) ==> slots[x].eh.Some?)
    && (forall x: nat :: Live(slots, x) && slots[x].isParam ==> slots[x].kind == VALUE)
  }

  lemma EvolvesEager(run: Kernel, a: seq<Slot>, b: seq<Slot>)
    requires Eager(a) && Evolves(run, a, b) && NamesKept(a, b)
    ensures Eager(b)
  {
    forall x: nat | Live(b, x) ensures Later(run, a[x], b[x]) {}
  }

  lemma NewValueEager(run: Kernel, e: Engine, t: Tensor, made: bool, isParam: bool)
    requires Eager(e.slots)
    ensures Eager(NewValue(e, t, made, isParam).0.slots)
    ensures var (e1, h) := NewValue(e, t, made, isParam);
            h.Some? ==> !Exists(e.slots, h.value) && Exists(e1.slots, h.value)
  {
  }

  /** An operation run at once: a new name with a value, and the rest as it was but for counts. */
  lemma RunSpecEager(run: Kernel, e: Engine, spec: OpSpec, refused: bool)
    requires Eager(e.slots)
    ensures var (e1, h) := RunSpec(run, e, false, spec, refused);
            && Eager(e1.slots) && |e1.slots| == |e.slots|
            && (forall x: nat :: Exists(e.slots, x) ==> Exists(e1.slots, x))
            && (h.Some? ==> NewName(e.slots, e1.slots, h.value))
  {
    hide RunSpec, Eager, Evolves, EvolvesBut, EagerSlot;
    RunSpecMakes(run, e, false, spec, refused);
    RunSpecKeepsNames(run, e, false, spec, refused);
    var (e1, h) := RunSpec(run, e, false, spec, refused);
    if h.Some? {
      ButEager(run, e.slots, e1.slots, h.value, EagerSlot(run, e, spec));
    } else {
      EvolvesEager(run, e.slots, e1.slots);
    }
  }

  lemma ButEager(run: Kernel, a: seq<Slot>, b: seq<Slot>, h: nat, s: Slot)
    requires Eager(a) && EvolvesBut(run, a, b, h, s) && NamesKept(a, b) && NewName(a, b, h) && b[h].eh.Some?
    ensures Eager(b)
  {
    forall x: nat | Live(b, x) && x != h ensures Later(run, a[x], b[x]) {}
  }

  lemma FreeEager(run: Kernel, slots: seq<Slot>, h: nat)
    requires Eager(slots)
    ensures Eager(Free(slots, h)) && |Free(slots, h)| == |slots|
    ensures forall x: nat :: Exists(slots, x) && x != h ==> Exists(Free(slots, h), x)
  {
    var r := Free(slots, h);
    FreeEvolves(run, slots, h);
    forall x: nat | Exists(slots, x) && x != h ensures Exists(r, x) && r[x].eh.Some? {
      FreeKeepsNames(slots, h, x);
    }
    forall x: nat | Live(r, x) ensures Later(run, slots[x], r[x]) {}
    if Exists(slots, h) && Exists(r, h) {
      FreedIsGone(slots, h);
    }
  }

  lemma FreedIsGone(slots: seq<Slot>, h: nat)
    requires Exists(slots, h)
    ensures !Exists(Free(slots, h), h)
  {
    var s1 := slots[h := slots[h].(released := true)];
    if s1[h].refs == 0 { ReleasedAlone(s1, h); }
  }

  lemma RunWithEager(run: Kernel, e: Engine, sig: OpSig, a: nat, tmp: nat)
    requires Eager(e.slots) && Exists(e.slots, tmp)
    ensures var (e1, h) := RunWith(run, e, false, sig, a, tmp);
            && Eager(e1.slots) && |e1.slots| == |e.slots|
            && (forall x: nat :: Exists(e.slots, x) && x != tmp ==> Exists(e1.slots, x))
            && (h.Some? ==> !Exists(e.slots, h.value) && Exists(e1.slots, h.value))
  {
    hide Eager, RunSpec;
    RunSpecEager(run, e, OpSpec(sig, [a, tmp]), false);
    FreeEager(run, RunSpec(run, e, false, OpSpec(sig, [a, tmp]), false).0.slots, tmp);
  }

  /** A step taken eagerly is a plain value at once. */
  lemma MakeStepEager(run: Kernel, e: Engine, w: nat, g: nat, lr: Tensor)
    requires Eager(e.slots)
    ensures Eager(MakeStep(run, e, false, w, g, lr).0.slots)
  {
    hide Eager, RunWith, NewValue, MarkParam;
    NewValueEager(run, e, lr, false, false);
    var (e1, s) := NewValue(e, lr, false, false);
    if s.Some? {
      RunWithEager(run, e1, MUL, g, s.value);
      var (e2, scaled) := RunWith(run, e1, false, MUL, g, s.value);
      if scaled.Some? {
        RunWithEager(run, e2, SUB, w, scaled.value);
        var (e3, next) := RunWith(run, e2, false, SUB, w, scaled.value);
        if next.Some? { MarkParamEager(run, e3.slots, next.value); }
      }
    }
  }

  lemma MarkParamEager(run: Kernel, slots: seq<Slot>, h: nat)
    requires Eager(slots) && Exists(slots, h)
    ensures Eager(MarkParam(slots, h))
  {
    var s1 := slots[h := slots[h].(isParam := true)];
    var s2 := slots[h := slots[h].(isParam := true, kind := VALUE, spec := NO_SPEC)];
    if slots[h].kind == NODE {
      assert s1[h := s1[h].(kind := VALUE, spec := NO_SPEC)] == s2;
      assert Eager(s2);
      UnrefAllEvolves(run, s2, slots[h].spec.ins);
      UnrefAllKeepsNames(s2, slots[h].spec.ins);
      EvolvesEager(run, s2, MarkParam(slots, h));
    }
  }

  lemma {:induction false} BindAllEager(run: Kernel, w: World, xs: seq<Name>, ts: seq<Tensor>)
    requires Eager(w.e.slots) && |xs| == |ts|
    ensures Eager(BindAll(w, xs, ts).e.slots) && BindAll(w, xs, ts).graph == w.graph
    decreases |xs|
  {
    hide Eager, NewValue;
    if xs != [] {
      NewValueEager(run, w.e, ts[0], false, false);
      var (e1, h) := NewValue(w.e, ts[0], false, false);
      BindAllEager(run, Bind(w, xs[0], e1, h), xs[1..], ts[1..]);
    }
  }

  lemma RunWalkEager(run: Kernel, e: Engine, h: nat, ps: Option<seq<nat>>)
    requires Eager(e.slots)
    ensures Eager(RunWalk(run, e, h, ps).0.slots)
  {
    hide Eager, RunWalk, Evolves, NamesKept;
    RunWalkEvolves(run, e, h, ps);
    RunWalkKeepsNames(run, e, h, ps);
    EvolvesEager(run, e.slots, RunWalk(run, e, h, ps).0.slots);
  }

  lemma ReadEager(run: Kernel, e: Engine, h: nat)
    requires Eager(e.slots)
    ensures Eager(ReadValue(run, e, h).0.slots)
  {
    hide Eager, RunWalk;
    RunWalkEager(run, e, h, None);
  }

  lemma StepEager(run: Kernel, w: World, c: Cmd)
    requires !w.graph && Eager(w.e.slots) && c != SetMode(true)
    ensures !WorldStep(run, w, c).graph && Eager(WorldStep(run, w, c).e.slots)
  {
    hide Eager, NewValue, RunSpec, MakeStep, RunWalk, ReadValue, Free;
    match c
    case SetMode(_) =>
    case Data(x, t) => NewValueEager(run, w.e, t, false, false);
    case Made(x, vals, scalar) => NewValueEager(run, w.e, MadeTensor(vals, scalar), true, false);
    case Op(x, sig, ys, refused) =>
      if Names(w.env, ys).Some? { RunSpecEager(run, w.e, OpSpec(sig, Names(w.env, ys).value), refused); }
    case Parameter(x, y) =>
      if y in w.env {
        ReadEager(run, w.e, w.env[y]);
        var (e1, v) := ReadValue(run, w.e, w.env[y]);
        if v.Some? { NewValueEager(run, e1, v.value, false, true); }
      }
    case Step(x, p, g, lr) =>
      if p in w.env && g in w.env { MakeStepEager(run, w.e, w.env[p], w.env[g], lr); }
    case Grad(loss, ps, xs, answers) =>
      if GradAsked(w, c) {
        RunWalkEager(run, w.e, w.env[loss], Names(w.env, ps));
        BindAllEager(run, w.(e := RunWalk(run, w.e, w.env[loss], Names(w.env, ps)).0), xs, answers);
        BindAllEager(run, w, xs, answers);
      }
    case Release(x) => if x in w.env { FreeEager(run, w.e.slots, w.env[x]); }
    case Read(x) => if x in w.env { ReadEager(run, w.e, w.env[x]); }
  }

  lemma {:induction false} RunEagerKept(run: Kernel, w: World, prog: seq<Cmd>)
    requires !w.graph && Eager(w.e.slots) && SetMode(true) !in prog
    ensures Eager(RunProgram(run, w, prog).e.slots)
    decreases |prog|
  {
    hide Eager, WorldStep;
    if prog != [] {
      StepEager(run, w, prog[0]);
      RunEagerKept(run, WorldStep(run, w, prog[0]), prog[1..]);
    }
  }

  /** In a program that never turns graph mode on, no live parameter is ever a recipe. */
  lemma EagerParametersAreValues(run: Kernel, n: nat, prog: seq<Cmd>, x: nat)
    requires SetMode(true) !in prog
    requires var slots := RunProgram(run, Start(n), prog).e.slots; Live(slots, x) && slots[x].isParam
    ensures RunProgram(run, Start(n), prog).e.slots[x].kind == VALUE
  {
    RunEagerKept(run, Start(n), prog);
  }

  /** So its gradients stop at every parameter. */
  lemma EagerGradientStops(run: Kernel, n: nat, prog: seq<Cmd>, loss: nat, w: Walk)
    requires SetMode(true) !in prog && RunProgram(run, Start(n), prog).e.exact
    requires var slots := RunProgram(run, Start(n), prog).e.slots;
             Live(slots, loss) && ClosureOf(slots, loss, true) == Walked(w)
    ensures var slots := RunProgram(run, Start(n), prog).e.slots;
            forall i :: 0 <= i < |w.c.nodes| ==> w.c.nodes[i] < |slots| && !slots[w.c.nodes[i]].isParam
  {
    hide RunProgram;
    EngineRefinesReference(run, n, prog);
    var slots := RunProgram(run, Start(n), prog).e.slots;
    ClosureListed(slots, loss, true);
    forall i | 0 <= i < |w.c.nodes| ensures !slots[w.c.nodes[i]].isParam {
      if slots[w.c.nodes[i]].isParam { EagerParametersAreValues(run, n, prog, w.c.nodes[i]); }
    }
  }
}
