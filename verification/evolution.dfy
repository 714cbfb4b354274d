/**
 What can become of one slot of the TensorFlow back end (modules/tensorflow/backend.c) while calls
 are made: it may go, take a value an operation answered, or drop a recipe no gradient wants, and
 nothing else. The engine's calls change the table slot by slot in this way, and add the slot they make.
 */
module Evolution {
  import opened Wrappers
  import opened Slots
  import opened Meaning
  import opened Closures
  import opened Results
  import opened Engines

  ghost predicate Answered(run: Kernel, t: Tensor) {
    exists sig, args :: t == run(sig, args)
  }

  /** `t` is what slot `s` may have become. */
  ghost predicate Later(run: Kernel, s: Slot, t: Slot) {
    && (s.kind == FREE ==> t.kind == FREE)
    && (t.kind != FREE ==>
          && t.isParam == s.isParam && t.host == s.host && t.born == s.born && t.underParam == s.underParam
          && (s.released ==> t.released)
          && (t.kind == VALUE || (t.kind == s.kind && t.spec == s.spec))
          && (s.kind == NODE && s.underParam && !s.isParam ==> t.kind == NODE)
          && (t.eh.None? || t.eh == s.eh || Answered(run, t.eh.value)))
  }

  ghost predicate Evolves(run: Kernel, a: seq<Slot>, b: seq<Slot>) {
    |a| == |b| && forall x: nat :: x < |a| ==> Later(run, a[x], b[x])
  }

  lemma EvolvesTrans(run: Kernel, a: seq<Slot>, b: seq<Slot>, c: seq<Slot>)
    requires Evolves(run, a, b) && Evolves(run, b, c)
    ensures Evolves(run, a, c)
  {
    forall x: nat | x < |a| ensures Later(run, a[x], c[x]) {
      assert Later(run, a[x], b[x]) && Later(run, b[x], c[x]);
    }
  }

  lemma OneEvolves(run: Kernel, a: seq<Slot>, h: nat, s: Slot)
    requires h < |a| && Later(run, a[h], s)
    ensures Evolves(run, a, a[h := s])
  {
  }

  // ---- the table ---------------------------------------------------------------------------------

  lemma {:induction false} UnrefEvolves(run: Kernel, slots: seq<Slot>, h: nat)
    ensures Evolves(run, slots, Unref(slots, h))
    decreases LiveSet(slots), 1, 0
  {
    if Live(slots, h) {
      var s1 := slots[h := Decremented(slots[h])];
      OneEvolves(run, slots, h, Decremented(slots[h]));
      assert LiveSet(s1) == LiveSet(slots);
      if s1[h].released && s1[h].refs == 0 {
        ReallyFreeEvolves(run, s1, h);
        EvolvesTrans(run, slots, s1, ReallyFree(s1, h));
      }
    }
  }

  lemma {:induction false} ReallyFreeEvolves(run: Kernel, slots: seq<Slot>, h: nat)
    requires Live(slots, h)
    ensures Evolves(run, slots, ReallyFree(slots, h))
    decreases LiveSet(slots), 0, 0
  {
    var s1 := slots[h := EMPTY];
    OneEvolves(run, slots, h, EMPTY);
    assert LiveSet(s1) <= LiveSet(slots) && h in LiveSet(slots) && h !in LiveSet(s1);
    if slots[h].kind == NODE {
      UnrefAllEvolves(run, s1, slots[h].spec.ins);
      EvolvesTrans(run, slots, s1, ReallyFree(slots, h));
    }
  }

  lemma {:induction false} UnrefAllEvolves(run: Kernel, slots: seq<Slot>, ins: seq<nat>)
    ensures Evolves(run, slots, UnrefAll(slots, ins))
    decreases LiveSet(slots), 2, |ins|
  {
    if ins != [] {
      UnrefEvolves(run, slots, ins[0]);
      UnrefAllEvolves(run, Unref(slots, ins[0]), ins[1..]);
      EvolvesTrans(run, slots, Unref(slots, ins[0]), UnrefAll(slots, ins));
    }
  }

  /** tfb_free */
  lemma FreeEvolves(run: Kernel, slots: seq<Slot>, h: nat)
    ensures Evolves(run, slots, Free(slots, h))
  {
    if Exists(slots, h) {
      var s1 := slots[h := slots[h].(released := true)];
      if s1[h].refs == 0 {
        ReallyFreeEvolves(run, s1, h);
        EvolvesTrans(run, slots, s1, ReallyFree(s1, h));
      }
    }
  }

  lemma DropEvolves(run: Kernel, slots: seq<Slot>, h: nat)
    requires h < |slots| && (slots[h].underParam ==> slots[h].isParam)
    ensures Evolves(run, slots, DropStructure(slots, h))
  {
    if slots[h].kind == NODE {
      var s1 := slots[h := slots[h].(kind := VALUE, spec := NO_SPEC)];
      UnrefAllEvolves(run, s1, slots[h].spec.ins);
      EvolvesTrans(run, slots, s1, DropStructure(slots, h));
    }
  }

  lemma StoreEvolves(run: Kernel, slots: seq<Slot>, h: nat, t: Tensor)
    requires h < |slots| && Answered(run, t)
    ensures Evolves(run, slots, Store(slots, h, t))
  {
    var s1 := slots[h := slots[h].(eh := Some(t))];
    OneEvolves(run, slots, h, s1[h]);
    if !s1[h].underParam || s1[h].isParam {
      DropEvolves(run, s1, h);
      EvolvesTrans(run, slots, s1, DropStructure(s1, h));
    }
  }

  lemma {:induction false} StoreAllEvolves(run: Kernel, slots: seq<Slot>, hs: seq<nat>, ret: seq<Tensor>)
    requires |hs| == |ret| && InRange(slots, hs) && forall k :: 0 <= k < |ret| ==> Answered(run, ret[k])
    ensures Evolves(run, slots, StoreAll(slots, hs, ret))
    decreases |hs|
  {
    hide Store;
    if hs != [] {
      StoreEvolves(run, slots, hs[0], ret[0]);
      var s1 := Store(slots, hs[0], ret[0]);
      StoreAllEvolves(run, s1, hs[1..], ret[1..]);
      EvolvesTrans(run, slots, s1, StoreAll(slots, hs, ret));
    }
  }

  lemma {:induction false} NodeValsAnswered(run: Kernel, st: Structure, leafVals: seq<Tensor>, n: nat, k: nat)
    requires Runnable(st) && |leafVals| == |st.leaves| && k < n <= |st.nodes|
    ensures Answered(run, NodeVals(run, st, leafVals, n)[k])
  {
    if k < n - 1 {
      NodeValsAnswered(run, st, leafVals, n - 1, k);
    }
  }

  lemma CallAnswered(run: Kernel, st: Structure, args: seq<Tensor>)
    requires Runnable(st) && |args| == |Fed(st.leaves, 0)|
    ensures forall k :: 0 <= k < |Call(run, st, args)| ==> Answered(run, Call(run, st, args)[k])
  {
    forall k | 0 <= k < |Call(run, st, args)| ensures Answered(run, Call(run, st, args)[k]) {
      NodeValsAnswered(run, st, LeafVals(st, args), |st.nodes|, Wanted(st.nodes, 0)[k]);
    }
  }

  /** A node recorded in a free slot: that slot, and counts. */
  lemma RecordEvolves(run: Kernel, slots: seq<Slot>, h: nat, spec: OpSpec, eh: Option<Tensor>, up: bool, born: nat)
    requires h < |slots| && InRange(slots, spec.ins)
    ensures Evolves(run, slots[h := NodeSlot(spec, eh, up, born)], Record(slots, h, spec, eh, up, born))
  {
    hide AddRefs;
    var mid := slots[h := NodeSlot(spec, eh, up, born)];
    forall x: nat | x < |mid| ensures Later(run, mid[x], AddRefs(mid, spec.ins)[x]) {
      AddRefsAt(mid, spec.ins, x);
    }
  }

  /** A record undone leaves no new slot. */
  lemma UndoEvolves(run: Kernel, slots: seq<Slot>, h: nat, spec: OpSpec, up: bool, born: nat)
    requires h < |slots| && slots[h].kind == FREE && InRange(slots, spec.ins)
    ensures Evolves(run, slots, Undo(Record(slots, h, spec, None, up, born), h, spec.ins))
  {
    hide Record;
    var mid, rec := slots[h := NodeSlot(spec, None, up, born)], Record(slots, h, spec, None, up, born);
    RecordEvolves(run, slots, h, spec, None, up, born);
    UnrefAllEvolves(run, rec, spec.ins);
    EvolvesTrans(run, mid, rec, UnrefAll(rec, spec.ins));
    var r := Undo(rec, h, spec.ins);
    forall x: nat | x < |slots| ensures Later(run, slots[x], r[x]) {
      assert Later(run, mid[x], UnrefAll(rec, spec.ins)[x]);
    }
  }

  // ---- the engine -----------------------------------------------------------------------------------

  /** No slot is made; at most `runs` closures are compiled. */
  ghost predicate Runs(run: Kernel, e: Engine, e1: Engine, runs: nat) {
    && Evolves(run, e.slots, e1.slots) && e1.clock == e.clock && e1.cursor == e.cursor
    && |e1.entries| <= |e.entries| + runs
  }

  lemma RunsTrans(run: Kernel, a: Engine, b: Engine, c: Engine, m: nat, n: nat)
    requires Runs(run, a, b, m) && Runs(run, b, c, n)
    ensures Runs(run, a, c, m + n)
  {
    EvolvesTrans(run, a.slots, b.slots, c.slots);
  }

  lemma SameEvolves(run: Kernel, slots: seq<Slot>)
    ensures Evolves(run, slots, slots)
  {
  }

  lemma ExecuteEvolves(run: Kernel, e: Engine, c: Closure, entry: Entry)
    requires Bounded(e.slots, c)
    ensures Runs(run, e, Execute(run, e, c, entry).0, 0)
  {
    hide Evolves, StoreAll, Call, ArgsOf;
    if Matches(entry.st, c) {
      var st := entry.st;
      OutInRange(e.slots, c, st);
      CallAnswered(run, st, ArgsOf(e.slots, c, st));
      StoreAllEvolves(run, e.slots, OutHandles(c, st), Call(run, st, ArgsOf(e.slots, c, st)));
    } else {
      SameEvolves(run, e.slots);
    }
  }

  lemma RunWalkEvolves(run: Kernel, e: Engine, h: nat, ps: Option<seq<nat>>)
    ensures Runs(run, e, RunWalk(run, e, h, ps).0, 1)
  {
    hide Evolves, Execute, StructureOf;
    SameEvolves(run, e.slots);
    match ClosureOf(e.slots, h, ps.Some?)
    case Walked(w) =>
      if w.c.nodes != [] {
        var (e1, entry) := EntryFor(e, StructureOf(e.slots, w.c, h, ps));
        if entry.Some? {
          ExecuteEvolves(run, e1, w.c, entry.value);
          RunsTrans(run, e, e1, Execute(run, e1, w.c, entry.value).0, 1, 0);
        }
      }
    case _ =>
  }

  /** A name without its value is a closure to run. */
  function Lacks(slots: seq<Slot>, h: nat): nat {
    if Exists(slots, h) && slots[h].eh.None? then 1 else 0
  }

  function AllLacks(slots: seq<Slot>, ins: seq<nat>): nat {
    if ins == [] then 0 else Lacks(slots, ins[0]) + AllLacks(slots, ins[1..])
  }

  lemma ForceEvolves(run: Kernel, e: Engine, h: nat)
    ensures Runs(run, e, Force(run, e, h).0, Lacks(e.slots, h))
  {
    hide RunWalk;
    SameEvolves(run, e.slots);
    RunWalkEvolves(run, e, h, None);
  }

  /** Whatever else is run, a name lacks no more than it did. */
  lemma {:induction false} LacksFewer(run: Kernel, a: seq<Slot>, b: seq<Slot>, ins: seq<nat>)
    requires Evolves(run, a, b) && NamesKept(a, b)
    ensures AllLacks(b, ins) <= AllLacks(a, ins)
  {
    if ins != [] {
      LacksFewer(run, a, b, ins[1..]);
      if ins[0] < |a| { assert Later(run, a[ins[0]], b[ins[0]]); }
    }
  }

  lemma {:induction false} ForceAllEvolves(run: Kernel, e: Engine, ins: seq<nat>)
    ensures Runs(run, e, ForceAll(run, e, ins).0, AllLacks(e.slots, ins))
    decreases |ins|
  {
    hide Evolves, Force, NamesKept, Lacks;
    SameEvolves(run, e.slots);
    if ins != [] {
      ForceEvolves(run, e, ins[0]);
      var (e1, ok) := Force(run, e, ins[0]);
      if ok {
        ForceAllEvolves(run, e1, ins[1..]);
        ForceKeepsNames(run, e, ins[0]);
        LacksFewer(run, e.slots, e1.slots, ins[1..]);
        RunsTrans(run, e, e1, ForceAll(run, e1, ins[1..]).0, Lacks(e.slots, ins[0]), AllLacks(e1.slots, ins[1..]));
      }
    }
  }

  /** At most one slot is made, free before: `s` as it was made, in a table that only evolved. */
  ghost predicate Makes(run: Kernel, e: Engine, e1: Engine, h: Option<nat>, s: Slot, runs: nat) {
    && |e1.entries| <= |e.entries| + runs && |e1.slots| == |e.slots| && e.clock <= e1.clock
    && (0 < e.cursor < |e.slots| ==> 0 < e1.cursor < |e1.slots|)
    && (h.None? ==> Evolves(run, e.slots, e1.slots) && e1.clock == e.clock)
    && (h.Some? ==> h.value < |e.slots| && e1.clock == e.clock + 1 && EvolvesBut(run, e.slots, e1.slots, h.value, s))
  }

  /** The same of every slot but `h`, which is what `s` may have become. */
  ghost predicate EvolvesBut(run: Kernel, a: seq<Slot>, b: seq<Slot>, h: nat, s: Slot) {
    && |a| == |b| && h < |a| && Later(run, s, b[h])
    && forall x: nat :: x < |a| && x != h ==> Later(run, a[x], b[x])
  }

  lemma ButEvolves(run: Kernel, a: seq<Slot>, b: seq<Slot>, c: seq<Slot>, h: nat, s: Slot)
    requires Evolves(run, a, b) && h < |b| && Evolves(run, b[h := s], c)
    ensures EvolvesBut(run, a, c, h, s)
  {
    forall x: nat | x < |a| && x != h ensures Later(run, a[x], c[x]) {
      assert Later(run, a[x], b[x]) && Later(run, b[h := s][x], c[x]);
    }
    assert Later(run, b[h := s][h], c[h]);
  }

  lemma NewValueMakes(run: Kernel, e: Engine, t: Tensor, made: bool, isParam: bool)
    ensures var (e1, h) := NewValue(e, t, made, isParam);
            Makes(run, e, e1, h, ValueSlot(t, made, isParam, e.clock), 0)
  {
    hide Scan;
    var (e1, h) := NewValue(e, t, made, isParam);
    SameEvolves(run, e.slots);
    if h.Some? {
      SameEvolves(run, e1.slots);
      ButEvolves(run, e.slots, e.slots, e1.slots, h.value, ValueSlot(t, made, isParam, e.clock));
    }
  }

  lemma RunGraphMakes(run: Kernel, e: Engine, spec: OpSpec, refused: bool)
    ensures var (e1, h) := RunGraph(e, spec, refused);
            Makes(run, e, e1, h, NodeSlot(spec, None, AnyUnderParam(e.slots, spec.ins), e.clock), 0)
  {
    hide Scan, Record, Undo, AnyUnderParam;
    var (e1, h) := SlotNew(e);
    SameEvolves(run, e.slots);
    if h.Some? && InRange(e.slots, spec.ins) {
      var up := AnyUnderParam(e.slots, spec.ins);
      UndoEvolves(run, e.slots, h.value, spec, up, e.clock);
      RecordEvolves(run, e.slots, h.value, spec, None, up, e.clock);
      var node := NodeSlot(spec, None, up, e.clock);
      ButEvolves(run, e.slots, e.slots, Record(e.slots, h.value, spec, None, up, e.clock), h.value, node);
    }
  }

  /** The slot an operation run at once makes: taped under a parameter, a plain value otherwise. */
  ghost function EagerSlot(run: Kernel, e: Engine, spec: OpSpec): Slot {
    var e1 := ForceAll(run, e, spec.ins).0;
    var t := run(spec.sig, ValuesOf(e1.slots, spec.ins));
    if AnyUnderParam(e.slots, spec.ins) then NodeSlot(spec, Some(t), true, e1.clock)
    else ValueSlot(t, false, false, e1.clock)
  }

  lemma RunEagerMakes(run: Kernel, e: Engine, spec: OpSpec, refused: bool)
    ensures var (e1, h) := RunEager(run, e, spec, refused);
            Makes(run, e, e1, h, EagerSlot(run, e, spec), AllLacks(e.slots, spec.ins))
  {
    hide Scan, Record, AnyUnderParam, ForceAll, ValuesOf, Evolves, EvolvesBut;
    ForceAllEvolves(run, e, spec.ins);
    var (e1, ok) := ForceAll(run, e, spec.ins);
    if ok && !refused && InRange(e1.slots, spec.ins) {
      var t := run(spec.sig, ValuesOf(e1.slots, spec.ins));
      var (e2, h) := SlotNew(e1);
      if h.Some? {
        EagerBut(run, e, e1, spec, t, h.value);
      }
    }
  }

  lemma EagerBut(run: Kernel, e: Engine, e1: Engine, spec: OpSpec, t: Tensor, h: nat)
    requires Evolves(run, e.slots, e1.slots) && h < |e1.slots| && InRange(e1.slots, spec.ins)
    ensures var node := NodeSlot(spec, Some(t), true, e1.clock);
            EvolvesBut(run, e.slots, Record(e1.slots, h, spec, Some(t), true, e1.clock), h, node)
    ensures var value := ValueSlot(t, false, false, e1.clock); EvolvesBut(run, e.slots, e1.slots[h := value], h, value)
  {
    hide Record;
    var node, value := NodeSlot(spec, Some(t), true, e1.clock), ValueSlot(t, false, false, e1.clock);
    RecordEvolves(run, e1.slots, h, spec, Some(t), true, e1.clock);
    ButEvolves(run, e.slots, e1.slots, Record(e1.slots, h, spec, Some(t), true, e1.clock), h, node);
    SameEvolves(run, e1.slots[h := value]);
    ButEvolves(run, e.slots, e1.slots, e1.slots[h := value], h, value);
  }

  ghost function SpecSlot(run: Kernel, e: Engine, graph: bool, spec: OpSpec): Slot {
    if graph then NodeSlot(spec, None, AnyUnderParam(e.slots, spec.ins), e.clock) else EagerSlot(run, e, spec)
  }

  /** The closures that have to be run for an operation: none when it is only recorded. */
  function SpecLacks(e: Engine, graph: bool, spec: OpSpec): nat {
    if graph then 0 else AllLacks(e.slots, spec.ins)
  }

  /** run_spec_ in either mode. */
  lemma RunSpecMakes(run: Kernel, e: Engine, graph: bool, spec: OpSpec, refused: bool)
    ensures var (e1, h) := RunSpec(run, e, graph, spec, refused);
            Makes(run, e, e1, h, SpecSlot(run, e, graph, spec), SpecLacks(e, graph, spec))
  {
    hide Evolves, EvolvesBut, RunGraph, RunEager, EagerSlot;
    if !AllExist(e.slots, spec.ins) {
      SameEvolves(run, e.slots);
    } else if graph {
      RunGraphMakes(run, e, spec, refused);
    } else {
      RunEagerMakes(run, e, spec, refused);
    }
  }

  // ---- names ------------------------------------------------------------------------------------------

  /** Every slot the program names stays named, and keeps having a value if it had one. */
  ghost predicate NamesKept(a: seq<Slot>, b: seq<Slot>) {
    |a| == |b| && forall x: nat :: Exists(a, x) ==> Exists(b, x) && (a[x].eh.Some? ==> b[x].eh.Some?)
  }

  lemma NamesKeptTrans(a: seq<Slot>, b: seq<Slot>, c: seq<Slot>)
    requires NamesKept(a, b) && NamesKept(b, c)
    ensures NamesKept(a, c)
  {
  }

  lemma {:induction false} UnrefKeepsNames(slots: seq<Slot>, h: nat)
    ensures NamesKept(slots, Unref(slots, h))
    decreases LiveSet(slots), 1, 0
  {
    if Live(slots, h) {
      var s1 := slots[h := Decremented(slots[h])];
      assert LiveSet(s1) == LiveSet(slots);
      if s1[h].released && s1[h].refs == 0 {
        ReallyFreeKeepsNames(s1, h);
        NamesKeptTrans(slots, s1, ReallyFree(s1, h));
      }
    }
  }

  lemma {:induction false} ReallyFreeKeepsNames(slots: seq<Slot>, h: nat)
    requires Live(slots, h) && slots[h].released
    ensures NamesKept(slots, ReallyFree(slots, h))
    decreases LiveSet(slots), 0, 0
  {
    var s1 := slots[h := EMPTY];
    assert LiveSet(s1) <= LiveSet(slots) && h in LiveSet(slots) && h !in LiveSet(s1);
    if slots[h].kind == NODE {
      UnrefAllKeepsNames(s1, slots[h].spec.ins);
      NamesKeptTrans(slots, s1, ReallyFree(slots, h));
    }
  }

  lemma {:induction false} UnrefAllKeepsNames(slots: seq<Slot>, ins: seq<nat>)
    ensures NamesKept(slots, UnrefAll(slots, ins))
    decreases LiveSet(slots), 2, |ins|
  {
    if ins != [] {
      UnrefKeepsNames(slots, ins[0]);
      UnrefAllKeepsNames(Unref(slots, ins[0]), ins[1..]);
      NamesKeptTrans(slots, Unref(slots, ins[0]), UnrefAll(slots, ins));
    }
  }

  lemma DropKeepsNames(slots: seq<Slot>, h: nat)
    requires h < |slots|
    ensures NamesKept(slots, DropStructure(slots, h))
  {
    if slots[h].kind == NODE {
      var s1 := slots[h := slots[h].(kind := VALUE, spec := NO_SPEC)];
      UnrefAllKeepsNames(s1, slots[h].spec.ins);
      NamesKeptTrans(slots, s1, DropStructure(slots, h));
    }
  }

  /** Freeing a name keeps the others. */
  lemma FreeKeepsNames(slots: seq<Slot>, h: nat, x: nat)
    requires Exists(slots, x) && x != h
    ensures Exists(Free(slots, h), x) && (slots[x].eh.Some? ==> Free(slots, h)[x].eh.Some?)
  {
    if Exists(slots, h) {
      var s1 := slots[h := slots[h].(released := true)];
      assert Exists(s1, x);
      if s1[h].refs == 0 { ReallyFreeKeepsNames(s1, h); }
    }
  }

  lemma {:induction false} StoreAllKeepsNames(slots: seq<Slot>, hs: seq<nat>, ret: seq<Tensor>)
    requires |hs| == |ret| && InRange(slots, hs)
    ensures NamesKept(slots, StoreAll(slots, hs, ret))
    decreases |hs|
  {
    if hs != [] {
      var s1 := slots[hs[0] := slots[hs[0]].(eh := Some(ret[0]))];
      DropKeepsNames(s1, hs[0]);
      var s2 := Store(slots, hs[0], ret[0]);
      NamesKeptTrans(slots, s1, s2);
      StoreAllKeepsNames(s2, hs[1..], ret[1..]);
      NamesKeptTrans(slots, s2, StoreAll(slots, hs, ret));
    }
  }

  lemma RunWalkKeepsNames(run: Kernel, e: Engine, h: nat, ps: Option<seq<nat>>)
    ensures NamesKept(e.slots, RunWalk(run, e, h, ps).0.slots)
  {
    hide NamesKept, StructureOf, StoreAll, Call, ArgsOf;
    assert NamesKept(e.slots, e.slots) by { SameNames(e.slots); }
    match ClosureOf(e.slots, h, ps.Some?)
    case Walked(w) =>
      if w.c.nodes != [] {
        var (e1, entry) := EntryFor(e, StructureOf(e.slots, w.c, h, ps));
        if entry.Some? && Matches(entry.value.st, w.c) {
          var st := entry.value.st;
          OutInRange(e.slots, w.c, st);
          StoreAllKeepsNames(e.slots, OutHandles(w.c, st), Call(run, st, ArgsOf(e.slots, w.c, st)));
        }
      }
    case _ =>
  }

  lemma SameNames(slots: seq<Slot>)
    ensures NamesKept(slots, slots)
  {
  }

  lemma ForceKeepsNames(run: Kernel, e: Engine, h: nat)
    ensures NamesKept(e.slots, Force(run, e, h).0.slots)
  {
    hide RunWalk;
    SameNames(e.slots);
    RunWalkKeepsNames(run, e, h, None);
  }

  lemma {:induction false} ForceAllKeepsNames(run: Kernel, e: Engine, ins: seq<nat>)
    ensures NamesKept(e.slots, ForceAll(run, e, ins).0.slots)
    decreases |ins|
  {
    hide NamesKept, Force;
    SameNames(e.slots);
    if ins != [] {
      ForceKeepsNames(run, e, ins[0]);
      var (e1, ok) := Force(run, e, ins[0]);
      if ok {
        ForceAllKeepsNames(run, e1, ins[1..]);
        NamesKeptTrans(e.slots, e1.slots, ForceAll(run, e1, ins[1..]).0.slots);
      }
    }
  }

  /** A slot taken that was free is no name's. */
  lemma FreshKeepsNames(slots: seq<Slot>, h: nat, s: Slot)
    requires h < |slots| && slots[h].kind == FREE
    ensures NamesKept(slots, slots[h := s])
  {
  }

  lemma RecordKeepsNames(slots: seq<Slot>, h: nat, spec: OpSpec, eh: Option<Tensor>, up: bool, born: nat)
    requires h < |slots| && slots[h].kind == FREE && InRange(slots, spec.ins)
    ensures NamesKept(slots, Record(slots, h, spec, eh, up, born))
    ensures Record(slots, h, spec, eh, up, born)[h].(refs := 0) == NodeSlot(spec, eh, up, born)
  {
    hide AddRefs;
    var mid := slots[h := NodeSlot(spec, eh, up, born)];
    forall x: nat | x < |slots| ensures AddRefs(mid, spec.ins)[x].(refs := 0) == mid[x].(refs := 0) {
      AddRefsAt(mid, spec.ins, x);
    }
    assert AddRefs(mid, spec.ins)[h].(refs := 0) == mid[h].(refs := 0);
    forall x: nat | Exists(slots, x)
      ensures Exists(AddRefs(mid, spec.ins), x) && AddRefs(mid, spec.ins)[x].eh == slots[x].eh
    {
      assert AddRefs(mid, spec.ins)[x].(refs := 0) == mid[x].(refs := 0) && x != h;
      SameButRefs(AddRefs(mid, spec.ins)[x], slots[x]);
    }
  }

  lemma SameButRefs(s: Slot, t: Slot)
    requires s.(refs := 0) == t.(refs := 0)
    ensures s == t.(refs := s.refs)
  {
    assert s == s.(refs := 0).(refs := s.refs);
  }

  lemma UndoKeepsNames(slots: seq<Slot>, h: nat, spec: OpSpec, up: bool, born: nat)
    requires h < |slots| && slots[h].kind == FREE && InRange(slots, spec.ins)
    ensures NamesKept(slots, Undo(Record(slots, h, spec, None, up, born), h, spec.ins))
  {
    hide Record, UnrefAll;
    var rec := Record(slots, h, spec, None, up, born);
    RecordKeepsNames(slots, h, spec, None, up, born);
    UnrefAllKeepsNames(rec, spec.ins);
    NamesKeptTrans(slots, rec, UnrefAll(rec, spec.ins));
  }

  lemma NewValueKeepsNames(e: Engine, t: Tensor, made: bool, isParam: bool)
    ensures NamesKept(e.slots, NewValue(e, t, made, isParam).0.slots)
  {
    hide SlotNew;
    var h := SlotNew(e).1;
    SameNames(e.slots);
    if h.Some? { FreshKeepsNames(e.slots, h.value, ValueSlot(t, made, isParam, e.clock)); }
  }

  /** A name for a slot that no name had. */
  ghost predicate NewName(a: seq<Slot>, b: seq<Slot>, h: nat) {
    !Exists(a, h) && Exists(b, h) && !b[h].isParam
  }

  lemma RunGraphKeepsNames(e: Engine, spec: OpSpec, refused: bool)
    ensures var (e1, h) := RunGraph(e, spec, refused);
            NamesKept(e.slots, e1.slots) && (h.Some? ==> NewName(e.slots, e1.slots, h.value))
  {
    hide SlotNew, Record, Undo, NamesKept, AnyUnderParam;
    SameNames(e.slots);
    var h := SlotNew(e).1;
    if h.Some? && InRange(e.slots, spec.ins) {
      RecordKeepsNames(e.slots, h.value, spec, None, AnyUnderParam(e.slots, spec.ins), e.clock);
      UndoKeepsNames(e.slots, h.value, spec, AnyUnderParam(e.slots, spec.ins), e.clock);
    }
  }

  lemma NotNamed(a: seq<Slot>, b: seq<Slot>, h: nat)
    requires NamesKept(a, b) && h < |b| && b[h].kind == FREE
    ensures !Exists(a, h)
  {
  }

  lemma RunEagerKeepsNames(run: Kernel, e: Engine, spec: OpSpec, refused: bool)
    ensures var (e1, h) := RunEager(run, e, spec, refused);
            NamesKept(e.slots, e1.slots)
            && (h.Some? ==> NewName(e.slots, e1.slots, h.value) && e1.slots[h.value].eh.Some?)
  {
    hide SlotNew, Record, NamesKept, AnyUnderParam, ForceAll, ValuesOf;
    ForceAllKeepsNames(run, e, spec.ins);
    var (e1, ok) := ForceAll(run, e, spec.ins);
    if ok && !refused && InRange(e1.slots, spec.ins) {
      var h, t := SlotNew(e1).1, run(spec.sig, ValuesOf(e1.slots, spec.ins));
      if h.Some? {
        NotNamed(e.slots, e1.slots, h.value);
        RecordKeepsNames(e1.slots, h.value, spec, Some(t), true, e1.clock);
        FreshKeepsNames(e1.slots, h.value, ValueSlot(t, false, false, e1.clock));
        NamesKeptTrans(e.slots, e1.slots, Record(e1.slots, h.value, spec, Some(t), true, e1.clock));
        NamesKeptTrans(e.slots, e1.slots, e1.slots[h.value := ValueSlot(t, false, false, e1.clock)]);
      }
    }
  }

  /** An operation takes no name's value, and run at once it has its own. */
  lemma RunSpecKeepsNames(run: Kernel, e: Engine, graph: bool, spec: OpSpec, refused: bool)
    ensures var (e1, h) := RunSpec(run, e, graph, spec, refused);
            && NamesKept(e.slots, e1.slots)
            && (h.Some? ==> NewName(e.slots, e1.slots, h.value) && (!graph ==> e1.slots[h.value].eh.Some?))
  {
    hide RunGraph, RunEager, NamesKept;
    SameNames(e.slots);
    if graph { RunGraphKeepsNames(e, spec, refused); } else { RunEagerKeepsNames(run, e, spec, refused); }
  }
}
