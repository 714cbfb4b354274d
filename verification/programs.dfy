/**
 Whole programs on the TensorFlow back end. A program names tensors, produces them, makes
 parameters, steps them, takes gradients, frees and reads, and may move the eager/graph switch
 at any point. Its reference meaning is a map from names to values. The theorem is that every
 run of the engine, in either mode or in any mixture, reads what the reference reads.

 A gradient's values are TensorFlow's answer: they come with the command, in both semantics.
 */
module Programs {
  import opened Wrappers
  import opened Slots
  import opened Meaning
  import opened Results
  import opened Engines

  type Name = nat

  datatype Cmd =
    | SetMode(graph: bool)
    | Data(x: Name, t: Tensor)
    | Made(x: Name, vals: seq<int>, scalar: bool)
    | Op(x: Name, sig: OpSig, ys: seq<Name>, refused: bool)
    | Parameter(x: Name, y: Name)
    | Step(x: Name, w: Name, g: Name, lr: Tensor)
    | Grad(loss: Name, ps: seq<Name>, xs: seq<Name>, answers: seq<Tensor>)
    | Release(x: Name)
    | Read(x: Name)

  const MUL := OpSig("Mul", 0, [("T", FLOAT)], [], [])
  const SUB := OpSig("Sub", 0, [("T", FLOAT)], [], [])

  function MadeTensor(vals: seq<int>, scalar: bool): Tensor {
    Tensor(INT32, if scalar then [] else [|vals|], vals)
  }

  // ---- the reference ---------------------------------------------------------------------------

  datatype Reference = Reference(env: map<Name, Tensor>, params: set<Name>, out: seq<Option<Tensor>>)

  function Known(env: map<Name, Tensor>, ys: seq<Name>): bool {
    forall k :: 0 <= k < |ys| ==> ys[k] in env
  }

  function ValuesIn(env: map<Name, Tensor>, ys: seq<Name>): seq<Tensor>
    requires Known(env, ys)
  {
    seq(|ys|, k requires 0 <= k < |ys| => env[ys[k]])
  }

  function RefBind(r: Reference, x: Name, t: Option<Tensor>, isParam: bool): Reference {
    match t
    case Some(v) => r.(env := r.env[x := v], params := if isParam then r.params + {x} else r.params - {x})
    case None => r.(env := r.env - {x})
  }

  function RefBindAll(r: Reference, xs: seq<Name>, ts: seq<Tensor>): Reference
    requires |xs| == |ts|
    decreases |xs|
  {
    if xs == [] then r else RefBindAll(RefBind(r, xs[0], Some(ts[0]), false), xs[1..], ts[1..])
  }

  /** A gradient is asked of a known loss, for at most 64 known parameters. */
  predicate RefGradAsked(r: Reference, c: Cmd)
    requires c.Grad?
  {
    && |c.ps| == |c.xs| == |c.answers| <= MAX_PARAM && c.loss in r.env
    && forall k :: 0 <= k < |c.ps| ==> c.ps[k] in r.env && c.ps[k] in r.params
  }

  function RefStep(run: Kernel, r: Reference, c: Cmd): Reference {
    match c
    case SetMode(_) => r
    case Data(x, t) => RefBind(r, x, Some(t), false)
    case Made(x, vals, scalar) => RefBind(r, x, Some(MadeTensor(vals, scalar)), false)
    case Op(x, sig, ys, refused) =>
      RefBind(r, x, if Known(r.env, ys) && !refused then Some(run(sig, ValuesIn(r.env, ys))) else None, false)
    case Parameter(x, y) => RefBind(r, x, if y in r.env then Some(r.env[y]) else None, true)
    case Step(x, w, g, lr) =>
      var next := if w in r.env && g in r.env then Some(run(SUB, [r.env[w], run(MUL, [r.env[g], lr])])) else None;
      RefBind(r, x, next, true)
    case Grad(_, _, xs, answers) => 
      if RefGradAsked(r, c) then RefBindAll(r, xs, answers) else r.(env := r.env - (set x | x in xs))
    case Release(x) => r.(env := r.env - {x})
    case Read(x) => r.(out := r.out + [if x in r.env then Some(r.env[x]) else None])
  }

  // ---- the engine, driven by the same commands ------------------------------------------------------

  datatype World = World(e: Engine, env: map<Name, nat>, graph: bool, out: seq<Option<Tensor>>)

  function Bind(w: World, x: Name, e: Engine, h: Option<nat>): World {
    match h
    case Some(i) => w.(e := e, env := w.env[x := i])
    case None => w.(e := e, env := w.env - {x})
  }

  function BindAll(w: World, xs: seq<Name>, ts: seq<Tensor>): (w': World)
    requires |xs| == |ts|
    ensures Follows(w.e, w'.e)
    decreases |xs|
  {
    if xs == [] then w
    else
      var (e1, h) := NewValue(w.e, ts[0], false, false);
      BindAll(Bind(w, xs[0], e1, h), xs[1..], ts[1..])
  }

  function Names(env: map<Name, nat>, ys: seq<Name>): Option<seq<nat>> {
    if forall k :: 0 <= k < |ys| ==> ys[k] in env then Some(seq(|ys|, k requires 0 <= k < |ys| => env[ys[k]])) else None
  }

  /** tfb_parameter */
  function MakeParameter(run: Kernel, e: Engine, a: nat): (r: (Engine, Option<nat>))
    ensures Follows(e, r.0)
  {
    var (e1, v) := ReadValue(run, e, a);
    if v.None? then (e1, None) else NewValue(e1, v.value, false, true)
  }

  /** An operation on `a` and a temporary, which goes again afterwards (with_free). */
  function RunWith(run: Kernel, e: Engine, graph: bool, sig: OpSig, a: nat, tmp: nat): (r: (Engine, Option<nat>))
    ensures Follows(e, r.0)
  {
    var (e1, h) := RunSpec(run, e, graph, OpSpec(sig, [a, tmp]), false);
    (FreeIn(e1, tmp), h)
  }

  function FreeIn(e: Engine, h: nat): (r: Engine)
    ensures Follows(e, r)
  {
    e.(slots := Free(e.slots, h))
  }

  /** tfb_step: W - lr G, made like any node, then marked a parameter: a boundary, not a history. */
  function MakeStep(run: Kernel, e: Engine, graph: bool, w: nat, g: nat, lr: Tensor): (r: (Engine, Option<nat>))
    ensures Follows(e, r.0)
  {
    var (e1, s) := NewValue(e, lr, false, false);
    if s.None? then (e1, None)
    else
      var (e2, scaled) := RunWith(run, e1, graph, MUL, g, s.value);
      if scaled.None? then (e2, None)
      else
        var (e3, next) := RunWith(run, e2, graph, SUB, w, scaled.value);
        if next.None? || next.value >= |e3.slots| then (e3, None)
        else (e3.(slots := MarkParam(e3.slots, next.value)), next)
  }

  predicate GradAsked(w: World, c: Cmd)
    requires c.Grad?
  {
    && |c.ps| == |c.xs| == |c.answers| <= MAX_PARAM
    && c.loss in w.env && Exists(w.e.slots, w.env[c.loss])
    && forall k :: 0 <= k < |c.ps| ==>
         c.ps[k] in w.env && Exists(w.e.slots, w.env[c.ps[k]]) && w.e.slots[w.env[c.ps[k]]].isParam
  }

  /** tfb_grad: the closure down to the parameters is run when a parameter is under the loss. */
  function MakeGrad(run: Kernel, w: World, c: Cmd): (w': World)
    requires c.Grad?
    ensures Follows(w.e, w'.e)
  {
    if !GradAsked(w, c) then w.(env := w.env - (set x | x in c.xs))
    else
      var loss := w.env[c.loss];
      if w.e.slots[loss].kind == NODE && w.e.slots[loss].underParam then
        var (e1, ok) := RunWalk(run, w.e, loss, Names(w.env, c.ps));
        if ok then BindAll(w.(e := e1), c.xs, c.answers) else w.(e := e1, env := w.env - (set x | x in c.xs))
      else BindAll(w, c.xs, c.answers)
  }

  function WorldStep(run: Kernel, w: World, c: Cmd): (w': World)
    ensures Follows(w.e, w'.e)
  {
    match c
    case SetMode(graph) => w.(graph := graph)
    case Data(x, t) => var (e1, h) := NewValue(w.e, t, false, false); Bind(w, x, e1, h)
    case Made(x, vals, scalar) => var (e1, h) := NewValue(w.e, MadeTensor(vals, scalar), true, false); Bind(w, x, e1, h)
    case Op(x, sig, ys, refused) =>
      (match Names(w.env, ys)
       case None => Bind(w, x, w.e, None)
       case Some(ins) => var (e1, h) := RunSpec(run, w.e, w.graph, OpSpec(sig, ins), refused); Bind(w, x, e1, h))
    case Parameter(x, y) =>
      if y !in w.env then Bind(w, x, w.e, None)
      else var (e1, h) := MakeParameter(run, w.e, w.env[y]); Bind(w, x, e1, h)
    case Step(x, p, g, lr) =>
      if p !in w.env || g !in w.env then Bind(w, x, w.e, None)
      else var (e1, h) := MakeStep(run, w.e, w.graph, w.env[p], w.env[g], lr); Bind(w, x, e1, h)
    case Grad(_, _, _, _) => MakeGrad(run, w, c)
    case Release(x) => if x !in w.env then w else w.(e := FreeIn(w.e, w.env[x]), env := w.env - {x})
    case Read(x) =>
      if x !in w.env then w.(out := w.out + [None])
      else var (e1, v) := ReadValue(run, w.e, w.env[x]); w.(e := e1, out := w.out + [v])
  }

  // ---- the simulation ------------------------------------------------------------------------------------

  /** The name `x` stands for the value the reference gives it. */
  ghost predicate Right(run: Kernel, w: World, r: Reference, x: Name)
    requires Inv(run, w.e) && x in w.env
  {
    && x in r.env && Exists(w.e.slots, w.env[x])
    && Den(run, w.e.slots, w.env[x]) == r.env[x]
    && (w.e.slots[w.env[x]].isParam <==> x in r.params)
  }

  /** The engine's answers agree, and nothing is missing unless some table was full. */
  ghost predicate OutAgrees(w: World, r: Reference) {
    && |w.out| == |r.out|
    && (forall i :: 0 <= i < |w.out| && w.out[i].Some? ==> w.out[i] == r.out[i])
    && (!w.e.full ==> w.out == r.out && w.env.Keys == r.env.Keys)
  }

  ghost predicate Simulates(run: Kernel, w: World, r: Reference) {
    && Inv(run, w.e)
    && (forall x :: x in w.env ==> Right(run, w, r, x))
    && (forall x, y :: x in w.env && y in w.env && w.env[x] == w.env[y] ==> x == y)
    && OutAgrees(w, r)
  }

  /** Nothing but the engine moved, and no name of it. */
  lemma SimMoves(run: Kernel, w: World, r: Reference, e: Engine)
    requires Simulates(run, w, r) && Moves(run, w.e, e, {}) && (w.e.full ==> e.full)
    ensures Simulates(run, w.(e := e), r)
  {
    forall x | x in w.env ensures Right(run, w.(e := e), r, x) {
      assert Right(run, w, r, x);
      assert Stands(run, w.e.slots, e.slots, w.env[x]);
    }
  }

  /** A new name for a new slot, or no name and a full table. */
  lemma SimBind(run: Kernel, w: World, r: Reference, x: Name, e: Engine, h: Option<nat>, t: Option<Tensor>,
                isParam: bool)
    requires Simulates(run, w, r) && Moves(run, w.e, e, {}) && (w.e.full ==> e.full)
    requires h.Some? ==> t.Some? && !Exists(w.e.slots, h.value) && Exists(e.slots, h.value)
                         && Den(run, e.slots, h.value) == t.value && e.slots[h.value].isParam == isParam
    requires h.None? ==> t.None? || e.full
    ensures Simulates(run, Bind(w, x, e, h), RefBind(r, x, t, isParam))
  {
    hide Inv, Den, OutAgrees, Moves;
    var w', r' := Bind(w, x, e, h), RefBind(r, x, t, isParam);
    SimMoves(run, w, r, e);
    MovesInv(run, w.e, e);
    BindAgrees(w, r, x, e, h, t, isParam);
    forall y | y in w'.env ensures Right(run, w', r', y) {
      if !(h.Some? && y == x) { OthersRight(run, w, r, x, e, h, t, isParam, y); }
    }
    forall o | o in w.env ensures h.Some? ==> w.env[o] != h.value {
      assert Right(run, w, r, o);
    }
  }

  lemma BindAgrees(w: World, r: Reference, x: Name, e: Engine, h: Option<nat>, t: Option<Tensor>, isParam: bool)
    requires OutAgrees(w.(e := e), r) && (h.Some? ==> t.Some?) && (h.None? ==> t.None? || e.full)
    ensures OutAgrees(Bind(w, x, e, h), RefBind(r, x, t, isParam))
  {
    var w', r' := Bind(w, x, e, h), RefBind(r, x, t, isParam);
    assert !w'.e.full ==> w'.env.Keys == r'.env.Keys;
  }

  lemma MovesInv(run: Kernel, a: Engine, b: Engine)
    requires Moves(run, a, b, {})
    ensures Inv(run, a) && Inv(run, b)
  {
  }

  /** A name other than the one bound stands for what it did. */
  lemma OthersRight(run: Kernel, w: World, r: Reference, x: Name, e: Engine, h: Option<nat>, t: Option<Tensor>,
                    isParam: bool, y: Name)
    requires Inv(run, e) && Simulates(run, w.(e := e), r) && (h.Some? ==> t.Some?) && y != x && y in w.env
    ensures Right(run, Bind(w, x, e, h), RefBind(r, x, t, isParam), y)
  {
    hide Inv, Den;
    assert Right(run, w.(e := e), r, y);
  }

  lemma SimNew(run: Kernel, w: World, r: Reference, x: Name, t: Tensor, made: bool)
    requires Simulates(run, w, r) && (made ==> IsMade(t))
    ensures var (e1, h) := NewValue(w.e, t, made, false);
            Simulates(run, Bind(w, x, e1, h), RefBind(r, x, Some(t), false))
  {
    NewValueMoves(run, w.e, t, made, false);
    var (e1, h) := NewValue(w.e, t, made, false);
    SimBind(run, w, r, x, e1, h, Some(t), false);
  }

  /** The handles of known names exist, and denote the reference's values. */
  lemma NamesRight(run: Kernel, w: World, r: Reference, ys: seq<Name>)
    requires Simulates(run, w, r) && Names(w.env, ys).Some?
    ensures var ins := Names(w.env, ys).value;
            AllExist(w.e.slots, ins) && Known(r.env, ys) && DensOf(run, w.e.slots, ins) == ValuesIn(r.env, ys)
  {
    var ins := Names(w.env, ys).value;
    forall k | 0 <= k < |ys|
      ensures Exists(w.e.slots, ins[k]) && ys[k] in r.env && Den(run, w.e.slots, ins[k]) == r.env[ys[k]]
    {
      assert Right(run, w, r, ys[k]);
    }
  }

  lemma SimOp(run: Kernel, w: World, r: Reference, c: Cmd)
    requires Simulates(run, w, r) && c.Op?
    ensures WorldStep(run, w, c).e.exact ==> Simulates(run, WorldStep(run, w, c), RefStep(run, r, c))
  {
    var t := if Known(r.env, c.ys) && !c.refused then Some(run(c.sig, ValuesIn(r.env, c.ys))) else None;
    match Names(w.env, c.ys)
    case None =>
      MovesNothing(run, w.e, w.e);
      SimBind(run, w, r, c.x, w.e, None, t, false);
    case Some(ins) =>
      NamesRight(run, w, r, c.ys);
      RunSpecMoves(run, w.e, w.graph, OpSpec(c.sig, ins), c.refused);
      var (e1, h) := RunSpec(run, w.e, w.graph, OpSpec(c.sig, ins), c.refused);
      if e1.exact {
        SimBind(run, w, r, c.x, e1, h, t, false);
      }
  }

  /** What a call that makes a parameter of value `t` promises. */
  ghost predicate ParamMade(run: Kernel, e: Engine, e1: Engine, h: Option<nat>, t: Tensor) {
    && Moves(run, e, e1, {}) && (h.None? ==> e1.full)
    && (h.Some? ==> !Exists(e.slots, h.value) && Exists(e1.slots, h.value)
                    && Den(run, e1.slots, h.value) == t && e1.slots[h.value].isParam)
  }

  lemma MakeParameterMoves(run: Kernel, e: Engine, a: nat)
    requires Inv(run, e) && Exists(e.slots, a)
    ensures var (e1, h) := MakeParameter(run, e, a);
            e1.exact ==> ParamMade(run, e, e1, h, Den(run, e.slots, a))
  {
    ReadMoves(run, e, a);
    var (e1, v) := ReadValue(run, e, a);
    if e1.exact && v.Some? {
      NewValueMoves(run, e1, v.value, false, true);
      var (e2, h) := NewValue(e1, v.value, false, true);
      MovesTrans(run, e, e1, e2, {});
      assert h.Some? && Exists(e.slots, h.value) ==> Stands(run, e.slots, e1.slots, h.value);
    }
  }

  /** A temporary that did not exist before and does not after leaves no trace. */
  lemma MovesDrop(run: Kernel, a: Engine, b: Engine, c: Engine, tmp: nat)
    requires Moves(run, a, b, {}) && Moves(run, b, c, {tmp}) && !Exists(a.slots, tmp)
    ensures Moves(run, a, c, {})
  {
    forall x: nat | Exists(a.slots, x) ensures Stands(run, a.slots, c.slots, x) {
      assert x != tmp;
      assert Stands(run, a.slots, b.slots, x) && Stands(run, b.slots, c.slots, x);
    }
  }

  lemma RunWithMoves(run: Kernel, e: Engine, graph: bool, sig: OpSig, a: nat, tmp: nat)
    requires Inv(run, e) && Exists(e.slots, a) && Exists(e.slots, tmp)
    ensures var (e1, h) := RunWith(run, e, graph, sig, a, tmp);
            e1.exact ==>
              && Moves(run, e, e1, {tmp}) && (h.None? ==> e1.full)
              && (h.Some? ==>
                    && !Exists(e.slots, h.value) && Exists(e1.slots, h.value) && !e1.slots[h.value].isParam
                    && Den(run, e1.slots, h.value) == run(sig, [Den(run, e.slots, a), Den(run, e.slots, tmp)]))
  {
    var spec := OpSpec(sig, [a, tmp]);
    RunSpecMoves(run, e, graph, spec, false);
    assert DensOf(run, e.slots, [a, tmp]) == [Den(run, e.slots, a), Den(run, e.slots, tmp)];
    var (e1, h) := RunSpec(run, e, graph, spec, false);
    if e1.exact {
      assert Stands(run, e.slots, e1.slots, tmp);
      FreeMoves(run, e1, tmp);
      MovesTrans(run, e, e1, FreeIn(e1, tmp), {tmp});
      if h.Some? {
        assert Stands(run, e1.slots, FreeIn(e1, tmp).slots, h.value);
      }
    }
  }

  lemma MarkParamMoves(run: Kernel, e: Engine, h: nat)
    requires Inv(run, e) && Exists(e.slots, h)
    ensures var e1 := e.(slots := MarkParam(e.slots, h));
            && Moves(run, e, e1, {h}) && Exists(e1.slots, h)
            && Den(run, e1.slots, h) == Den(run, e.slots, h) && e1.slots[h].isParam
  {
    MarkParamKeeps(run, e.slots, h);
  }

  lemma MakeStepMoves(run: Kernel, e: Engine, graph: bool, w: nat, g: nat, lr: Tensor)
    requires Inv(run, e) && Exists(e.slots, w) && Exists(e.slots, g)
    ensures var (e1, h) := MakeStep(run, e, graph, w, g, lr);
            e1.exact ==>
              ParamMade(run, e, e1, h, run(SUB, [Den(run, e.slots, w), run(MUL, [Den(run, e.slots, g), lr])]))
  {
    hide CacheRight, OlderThan, NewValue, RunWith;
    NewValueMoves(run, e, lr, false, false);
    var (e1, s) := NewValue(e, lr, false, false);
    if s.Some? {
      assert Stands(run, e.slots, e1.slots, g) && Stands(run, e.slots, e1.slots, w);
      RunWithMoves(run, e1, graph, MUL, g, s.value);
      var (e2, scaled) := RunWith(run, e1, graph, MUL, g, s.value);
      if e2.exact {
        MovesDrop(run, e, e1, e2, s.value);
        if scaled.Some? {
          assert Exists(e.slots, scaled.value) ==> Stands(run, e.slots, e1.slots, scaled.value);
          assert Stands(run, e.slots, e2.slots, w);
          FinishStep(run, e, e2, graph, w, scaled.value);
        }
      }
    }
  }

  /** The second half of a step: the difference is taken, the scaled gradient goes, the result is marked. */
  lemma FinishStep(run: Kernel, e: Engine, e2: Engine, graph: bool, w: nat, scaled: nat)
    requires Moves(run, e, e2, {}) && !Exists(e.slots, scaled) && Exists(e2.slots, scaled) && Exists(e2.slots, w)
    ensures var (e3, next) := RunWith(run, e2, graph, SUB, w, scaled);
            e3.exact ==>
              && Moves(run, e, e3, {}) && (next.None? ==> e3.full)
              && (next.Some? ==>
                    && next.value < |e3.slots|
                    && ParamMade(run, e, e3.(slots := MarkParam(e3.slots, next.value)), next,
                                 run(SUB, [Den(run, e2.slots, w), Den(run, e2.slots, scaled)])))
  {
    RunWithMoves(run, e2, graph, SUB, w, scaled);
    var (e3, next) := RunWith(run, e2, graph, SUB, w, scaled);
    if e3.exact {
      MovesDrop(run, e, e2, e3, scaled);
      if next.Some? {
        MarkParamMoves(run, e3, next.value);
        assert Exists(e.slots, next.value) ==> Stands(run, e.slots, e2.slots, next.value);
        MovesDrop(run, e, e3, e3.(slots := MarkParam(e3.slots, next.value)), next.value);
      }
    }
  }

  lemma SimParameter(run: Kernel, w: World, r: Reference, c: Cmd)
    requires Simulates(run, w, r) && c.Parameter?
    ensures WorldStep(run, w, c).e.exact ==> Simulates(run, WorldStep(run, w, c), RefStep(run, r, c))
  {
    var t := if c.y in r.env then Some(r.env[c.y]) else None;
    if c.y !in w.env {
      MovesNothing(run, w.e, w.e);
      SimBind(run, w, r, c.x, w.e, None, t, true);
    } else {
      assert Right(run, w, r, c.y);
      MakeParameterMoves(run, w.e, w.env[c.y]);
      var (e1, h) := MakeParameter(run, w.e, w.env[c.y]);
      if e1.exact {
        SimBind(run, w, r, c.x, e1, h, t, true);
      }
    }
  }

  lemma SimStep(run: Kernel, w: World, r: Reference, c: Cmd)
    requires Simulates(run, w, r) && c.Step?
    ensures WorldStep(run, w, c).e.exact ==> Simulates(run, WorldStep(run, w, c), RefStep(run, r, c))
  {
    hide CacheRight, OlderThan, MakeStep;
    var t := if c.w in r.env && c.g in r.env then Some(run(SUB, [r.env[c.w], run(MUL, [r.env[c.g], c.lr])])) else None;
    if c.w !in w.env || c.g !in w.env {
      MovesNothing(run, w.e, w.e);
      SimBind(run, w, r, c.x, w.e, None, t, true);
    } else {
      assert Right(run, w, r, c.w) && Right(run, w, r, c.g);
      MakeStepMoves(run, w.e, w.graph, w.env[c.w], w.env[c.g], c.lr);
      var (e1, h) := MakeStep(run, w.e, w.graph, w.env[c.w], w.env[c.g], c.lr);
      if e1.exact {
        SimBind(run, w, r, c.x, e1, h, t, true);
      }
    }
  }

  lemma {:induction false} SimBindAll(run: Kernel, w: World, r: Reference, xs: seq<Name>, ts: seq<Tensor>)
    requires Simulates(run, w, r) && |xs| == |ts|
    ensures Simulates(run, BindAll(w, xs, ts), RefBindAll(r, xs, ts))
    decreases |xs|
  {
    if xs != [] {
      SimNew(run, w, r, xs[0], ts[0], false);
      var (e1, h) := NewValue(w.e, ts[0], false, false);
      SimBindAll(run, Bind(w, xs[0], e1, h), RefBind(r, xs[0], Some(ts[0]), false), xs[1..], ts[1..]);
    }
  }

  /** Names dropped on both sides, or only by an engine whose tables were full. */
  lemma SimForget(run: Kernel, w: World, r: Reference, r': Reference, gone: set<Name>)
    requires Simulates(run, w, r) && r'.out == r.out
    requires forall x :: x in r.env && x !in gone ==>
      x in r'.env && r'.env[x] == r.env[x] && (x in r'.params <==> x in r.params)
    requires !w.e.full ==> r'.env.Keys == r.env.Keys - gone
    ensures Simulates(run, w.(env := w.env - gone), r')
  {
    forall x | x in w.env - gone ensures Right(run, w.(env := w.env - gone), r', x) {
      assert Right(run, w, r, x);
    }
  }

  lemma {:induction false} RefBindAllOthers(r: Reference, xs: seq<Name>, ts: seq<Tensor>, x: Name)
    requires |xs| == |ts| && x !in xs && x in r.env
    ensures var r' := RefBindAll(r, xs, ts);
            x in r'.env && r'.env[x] == r.env[x] && (x in r'.params <==> x in r.params) && r'.out == r.out
    decreases |xs|
  {
    if xs != [] {
      RefBindAllOthers(RefBind(r, xs[0], Some(ts[0]), false), xs[1..], ts[1..], x);
    }
  }

  lemma {:induction false} RefBindAllOut(r: Reference, xs: seq<Name>, ts: seq<Tensor>)
    requires |xs| == |ts|
    ensures RefBindAll(r, xs, ts).out == r.out
    decreases |xs|
  {
    if xs != [] {
      RefBindAllOut(RefBind(r, xs[0], Some(ts[0]), false), xs[1..], ts[1..]);
    }
  }

  lemma GradAskedAgree(run: Kernel, w: World, r: Reference, c: Cmd)
    requires Simulates(run, w, r) && c.Grad?
    ensures GradAsked(w, c) ==> RefGradAsked(r, c)
    ensures !w.e.full && RefGradAsked(r, c) ==> GradAsked(w, c)
  {
    if c.loss in w.env { assert Right(run, w, r, c.loss); }
    forall k | 0 <= k < |c.ps| && c.ps[k] in w.env ensures Right(run, w, r, c.ps[k]) {}
  }

  /** Nothing is bound when the engine could not run the gradient, or neither side asked for one. */
  lemma SimGradFails(run: Kernel, w: World, r: Reference, c: Cmd)
    requires Simulates(run, w, r) && c.Grad? && (w.e.full || !RefGradAsked(r, c))
    ensures Simulates(run, w.(env := w.env - (set x | x in c.xs)), RefStep(run, r, c))
  {
    var r' := RefStep(run, r, c);
    if RefGradAsked(r, c) {
      RefBindAllOut(r, c.xs, c.answers);
      forall x | x in r.env && x !in c.xs
        ensures x in r'.env && r'.env[x] == r.env[x] && (x in r'.params <==> x in r.params)
      {
        RefBindAllOthers(r, c.xs, c.answers, x);
      }
    }
    SimForget(run, w, r, r', set x | x in c.xs);
  }

  lemma SimGrad(run: Kernel, w: World, r: Reference, c: Cmd)
    requires Simulates(run, w, r) && c.Grad?
    ensures WorldStep(run, w, c).e.exact ==> Simulates(run, WorldStep(run, w, c), RefStep(run, r, c))
  {
    GradAskedAgree(run, w, r, c);
    if !GradAsked(w, c) {
      SimGradFails(run, w, r, c);
    } else {
      var loss := w.env[c.loss];
      if w.e.slots[loss].kind == NODE && w.e.slots[loss].underParam {
        var ps := Names(w.env, c.ps);
        RunWalkMoves(run, w.e, loss, ps);
        var (e1, ok) := RunWalk(run, w.e, loss, ps);
        if e1.exact {
          SimMoves(run, w, r, e1);
          if ok {
            SimBindAll(run, w.(e := e1), r, c.xs, c.answers);
          } else {
            SimGradFails(run, w.(e := e1), r, c);
          }
        }
      } else {
        SimBindAll(run, w, r, c.xs, c.answers);
      }
    }
  }

  /** One name and its slot go, on both sides. */
  lemma SimDrop(run: Kernel, w: World, r: Reference, x: Name, e: Engine)
    requires Simulates(run, w, r) && x in w.env && Moves(run, w.e, e, {w.env[x]}) && e.full == w.e.full
    ensures Simulates(run, w.(e := e, env := w.env - {x}), r.(env := r.env - {x}))
  {
    var w', r' := w.(e := e, env := w.env - {x}), r.(env := r.env - {x});
    forall y | y in w'.env ensures Right(run, w', r', y) {
      assert Right(run, w, r, y);
      assert Stands(run, w.e.slots, e.slots, w.env[y]);
    }
  }

  lemma SimRelease(run: Kernel, w: World, r: Reference, c: Cmd)
    requires Simulates(run, w, r) && c.Release?
    ensures Simulates(run, WorldStep(run, w, c), RefStep(run, r, c))
  {
    if c.x in w.env {
      assert Right(run, w, r, c.x);
      FreeMoves(run, w.e, w.env[c.x]);
      SimDrop(run, w, r, c.x, FreeIn(w.e, w.env[c.x]));
    } else {
      SimForget(run, w, r, RefStep(run, r, c), {c.x});
      assert w.env - {c.x} == w.env;
    }
  }

  lemma SimRead(run: Kernel, w: World, r: Reference, c: Cmd)
    requires Simulates(run, w, r) && c.Read?
    ensures WorldStep(run, w, c).e.exact ==> Simulates(run, WorldStep(run, w, c), RefStep(run, r, c))
  {
    hide Inv, Moves, ReadValue, Simulates, Den;
    if c.x in w.env {
      var (e1, v) := ReadValue(run, w.e, w.env[c.x]);
      if e1.exact {
        ReadNamed(run, w, r, c.x);
        SimMoves(run, w, r, e1);
        SimOut(run, w.(e := e1), r, v, if c.x in r.env then Some(r.env[c.x]) else None);
      }
    } else {
      NotThere(run, w, r, c.x);
      SimOut(run, w, r, None, if c.x in r.env then Some(r.env[c.x]) else None);
    }
  }

  lemma NotThere(run: Kernel, w: World, r: Reference, x: Name)
    requires Simulates(run, w, r) && x !in w.env
    ensures !w.e.full ==> x !in r.env
  {
  }

  /** A read of a name answers what the reference has for it. */
  lemma ReadNamed(run: Kernel, w: World, r: Reference, x: Name)
    requires Simulates(run, w, r) && x in w.env && ReadValue(run, w.e, w.env[x]).0.exact
    ensures var (e1, v) := ReadValue(run, w.e, w.env[x]);
            && Moves(run, w.e, e1, {}) && x in r.env && (v.None? ==> e1.full) && (v.Some? ==> v.value == r.env[x])
            && (w.e.full ==> e1.full)
  {
    hide Moves, ReadValue;
    assert Right(run, w, r, x);
    ReadMoves(run, w.e, w.env[x]);
  }

  lemma SimOut(run: Kernel, w: World, r: Reference, a: Option<Tensor>, b: Option<Tensor>)
    requires Simulates(run, w, r) && (a.Some? ==> a == b) && (!w.e.full ==> a == b)
    ensures Simulates(run, w.(out := w.out + [a]), r.(out := r.out + [b]))
  {
    var w', r' := w.(out := w.out + [a]), r.(out := r.out + [b]);
    forall x | x in w'.env ensures Right(run, w', r', x) {
      assert Right(run, w, r, x);
    }
  }

  lemma SimMode(run: Kernel, w: World, r: Reference, graph: bool)
    requires Simulates(run, w, r)
    ensures Simulates(run, w.(graph := graph), r)
  {
    forall x | x in w.env ensures Right(run, w.(graph := graph), r, x) {
      assert Right(run, w, r, x);
    }
  }

  /** Every command keeps the engine in step with the reference, as long as keys are exact. */
  lemma StepSimulates(run: Kernel, w: World, r: Reference, c: Cmd)
    requires Simulates(run, w, r)
    ensures WorldStep(run, w, c).e.exact ==> Simulates(run, WorldStep(run, w, c), RefStep(run, r, c))
  {
    match c
    case SetMode(graph) => SimMode(run, w, r, graph);
    case Data(x, t) => SimNew(run, w, r, x, t, false);
    case Made(x, vals, scalar) => SimNew(run, w, r, x, MadeTensor(vals, scalar), true);
    case Op(_, _, _, _) => SimOp(run, w, r, c);
    case Parameter(_, _) => SimParameter(run, w, r, c);
    case Step(_, _, _, _) => SimStep(run, w, r, c);
    case Grad(_, _, _, _) => SimGrad(run, w, r, c);
    case Release(_) => SimRelease(run, w, r, c);
    case Read(_) => SimRead(run, w, r, c);
  }

  // ---- whole runs ----------------------------------------------------------------------------------------

  /** An engine of `n` slots, all free; the first is never used. */
  function Start(n: nat): World {
    World(Engine(seq(n + 2, _ => EMPTY), 1, 0, [], true, false), map[], false, [])
  }

  function RunProgram(run: Kernel, w: World, prog: seq<Cmd>): (w': World)
    ensures Follows(w.e, w'.e)
    decreases |prog|
  {
    if prog == [] then w else RunProgram(run, WorldStep(run, w, prog[0]), prog[1..])
  }

  function RefProgram(run: Kernel, r: Reference, prog: seq<Cmd>): Reference
    decreases |prog|
  {
    if prog == [] then r else RefProgram(run, RefStep(run, r, prog[0]), prog[1..])
  }

  lemma StartSimulates(run: Kernel, n: nat)
    ensures Simulates(run, Start(n), Reference(map[], {}, []))
  {
    EdgesOfEmpty(Start(n).e.slots);
  }

  lemma {:induction false} RunSimulates(run: Kernel, w: World, r: Reference, prog: seq<Cmd>)
    requires Simulates(run, w, r)
    ensures var w' := RunProgram(run, w, prog); w'.e.exact ==> Simulates(run, w', RefProgram(run, r, prog))
    decreases |prog|
  {
    if prog != [] {
      StepSimulates(run, w, r, prog[0]);
      var w1 := WorldStep(run, w, prog[0]);
      if w1.e.exact {
        RunSimulates(run, w1, RefStep(run, r, prog[0]), prog[1..]);
      }
    }
  }

  /**
   For every program, kernel and table size: every value the engine reads is the reference's;
   and if no table was ever full, it reads them all.
   */
  lemma EngineRefinesReference(run: Kernel, n: nat, prog: seq<Cmd>)
    ensures var w := RunProgram(run, Start(n), prog);
            var r := RefProgram(run, Reference(map[], {}, []), prog);
            w.e.exact ==>
              && |w.out| == |r.out|
              && (forall i :: 0 <= i < |w.out| && w.out[i].Some? ==> w.out[i] == r.out[i])
              && (!w.e.full ==> w.out == r.out)
              && Sound(w.e.slots)
  {
    StartSimulates(run, n);
    RunSimulates(run, Start(n), Reference(map[], {}, []), prog);
  }

  /** The program with the mode switch taken out, and the same with it set once at the start. */
  function WithoutModes(prog: seq<Cmd>): seq<Cmd> {
    if prog == [] then []
    else (if prog[0].SetMode? then [] else [prog[0]]) + WithoutModes(prog[1..])
  }

  lemma {:induction false} RefIgnoresModes(run: Kernel, r: Reference, prog: seq<Cmd>)
    ensures RefProgram(run, r, prog) == RefProgram(run, r, WithoutModes(prog))
    decreases |prog|
  {
    if prog != [] {
      RefIgnoresModes(run, RefStep(run, r, prog[0]), prog[1..]);
      if !prog[0].SetMode? {
        assert WithoutModes(prog)[0] == prog[0] && WithoutModes(prog)[1..] == WithoutModes(prog[1..]);
      } else {
        assert WithoutModes(prog) == WithoutModes(prog[1..]);
      }
    }
  }

  /**
   A program is the same program on either path: two runs that differ only in where the mode
   switch is moved -- eager throughout, graph throughout, or any mixture -- read the same values.
   */
  lemma EagerAndGraphAgree(run: Kernel, n: nat, p: seq<Cmd>, q: seq<Cmd>)
    requires WithoutModes(p) == WithoutModes(q)
    ensures var a := RunProgram(run, Start(n), p);
            var b := RunProgram(run, Start(n), q);
            a.e.exact && b.e.exact ==>
              && |a.out| == |b.out|
              && (forall i :: 0 <= i < |a.out| && a.out[i].Some? && b.out[i].Some? ==> a.out[i] == b.out[i])
              && (!a.e.full && !b.e.full ==> a.out == b.out)
  {
    EngineRefinesReference(run, n, p);
    EngineRefinesReference(run, n, q);
    RefIgnoresModes(run, Reference(map[], {}, []), p);
    RefIgnoresModes(run, Reference(map[], {}, []), q);
  }
}
