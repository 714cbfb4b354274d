/**
 The two-mode engine of the TensorFlow back end (modules/tensorflow/backend.c): the slot table,
 the compile cache, and the operations a program calls, as one state.

 Two history flags that the C code does not have say when a capacity of the code was met:
 `full`, a table or buffer had no room and an operation failed; `exact`, cleared once a key no
 longer says everything (it was cut to its buffer, or a constant of more than 32 values was cut).
 */
module Engines {
  import opened Collections
  import opened Wrappers
  import opened Slots
  import opened Meaning
  import opened Closures
  import opened Results
  import opened Keys

  const MAX_ENTRY := 4096
  const MAX_PARAM := 64

  /** A compiled closure: its key, and the graph it was made from. */
  datatype Entry = Entry(key: string, st: Structure)

  datatype Engine = Engine(slots: seq<Slot>, cursor: nat, clock: nat, entries: seq<Entry>, exact: bool, full: bool)

  /** History only moves one way. */
  predicate Follows(a: Engine, b: Engine) {
    |b.slots| == |a.slots| && (b.exact ==> a.exact) && (a.full ==> b.full)
  }

  // ---- slot_new -----------------------------------------------------------------------------

  function After(slots: seq<Slot>, i: nat): nat {
    if i + 1 < |slots| then i + 1 else 1
  }

  /** The first free slot at or after the cursor, in at most `tries` looks, and the cursor past it. */
  function Scan(slots: seq<Slot>, i: nat, tries: nat): (r: (Option<nat>, nat))
    requires 0 < i < |slots|
    ensures r.0.Some? ==> 0 < r.0.value < |slots| && slots[r.0.value].kind == FREE
    ensures 0 < r.1 < |slots|
    decreases tries
  {
    if tries == 0 then (None, i)
    else if slots[i].kind == FREE then (Some(i), After(slots, i))
    else Scan(slots, After(slots, i), tries - 1)
  }

  function Around(slots: seq<Slot>, i: nat, d: nat): nat {
    if i + d < |slots| then i + d else i + d - |slots| + 1
  }

  lemma {:induction false} ScanMisses(slots: seq<Slot>, i: nat, tries: nat, d: nat)
    requires 0 < i < |slots| && tries < |slots| && d < tries && Scan(slots, i, tries).0.None?
    ensures slots[Around(slots, i, d)].kind != FREE
    decreases tries
  {
    if d > 0 {
      ScanMisses(slots, After(slots, i), tries - 1, d - 1);
      assert Around(slots, After(slots, i), d - 1) == Around(slots, i, d);
    }
  }

  /** slot_new fails only when every slot but the unused first is taken. */
  lemma TableFull(slots: seq<Slot>, i: nat)
    requires 0 < i < |slots|
    ensures Scan(slots, i, |slots| - 1).0.None? <==> forall h :: 0 < h < |slots| ==> slots[h].kind != FREE
  {
    if Scan(slots, i, |slots| - 1).0.None? {
      forall h | 0 < h < |slots| ensures slots[h].kind != FREE {
        var d := if h >= i then h - i else h + |slots| - 1 - i;
        ScanMisses(slots, i, |slots| - 1, d);
        assert Around(slots, i, d) == h;
      }
    }
  }

  function SlotNew(e: Engine): (r: (Engine, Option<nat>))
    ensures Follows(e, r.0) && r.0.slots == e.slots && r.0.entries == e.entries && r.0.clock == e.clock
    ensures r.0.exact == e.exact
    ensures r.1.Some? ==> 0 < r.1.value < |e.slots| && e.slots[r.1.value].kind == FREE && r.0.full == e.full
    ensures r.1.None? ==> r.0.full
    ensures 0 < e.cursor < |e.slots| ==> 0 < r.0.cursor < |e.slots|
  {
    if !(0 < e.cursor < |e.slots|) then (e.(full := true), None)
    else
      var (h, cursor) := Scan(e.slots, e.cursor, |e.slots| - 1);
      (e.(cursor := cursor, full := e.full || h.None?), h)
  }

  /** A slot with a value: data, a made constant, a parameter, a gradient. */
  function NewValue(e: Engine, t: Tensor, made: bool, isParam: bool): (r: (Engine, Option<nat>))
    ensures Follows(e, r.0)
  {
    var (e1, h) := SlotNew(e);
    if h.None? then (e1, None)
    else (e1.(slots := e.slots[h.value := ValueSlot(t, made, isParam, e.clock)], clock := e.clock + 1), h)
  }

  // ---- the compile cache ----------------------------------------------------------------------

  /** entry_find: the first entry with this key. */
  function EntryFind(entries: seq<Entry>, key: string): (r: Option<Entry>)
    ensures r.Some? ==> r.value in entries && r.value.key == key
  {
    if entries == [] then None
    else if entries[0].key == key then Some(entries[0])
    else EntryFind(entries[1..], key)
  }

  function EntryFor(e: Engine, st: Structure): (r: (Engine, Option<Entry>))
    ensures Follows(e, r.0) && r.0.slots == e.slots && r.0.cursor == e.cursor && r.0.clock == e.clock
    ensures r.1.None? ==> r.0.full
    ensures r.0.exact ==> Exact(st)
  {
    var e1 := e.(exact := e.exact && Exact(st));
    match EntryFind(e.entries, Key(st))
    case Some(entry) => (e1, Some(entry))
    case None =>
      if |e.entries| >= MAX_ENTRY then (e1.(full := true), None)
      else (e1.(entries := e.entries + [Entry(Key(st), st)]), Some(Entry(Key(st), st)))
  }

  /** While keys are exact, every entry is the compilation of the structure its key spells. */
  ghost predicate CacheRight(entries: seq<Entry>) {
    forall k :: 0 <= k < |entries| ==> Exact(entries[k].st) && entries[k].key == Key(entries[k].st)
  }

  /** A hit is as good as compiling afresh. */
  lemma EntryForRight(e: Engine, st: Structure)
    requires CacheRight(e.entries)
    ensures var (e1, entry) := EntryFor(e, st);
            e1.exact ==> CacheRight(e1.entries) && (entry.Some? ==> entry.value.st == st)
  {
    hide Exact, Key, EntryFind;
    if Exact(st) {
      CacheMore(e.entries, st);
      if EntryFind(e.entries, Key(st)).Some? { HitRight(e.entries, st); }
    }
  }

  lemma CacheMore(entries: seq<Entry>, st: Structure)
    requires CacheRight(entries) && Exact(st)
    ensures CacheRight(entries + [Entry(Key(st), st)])
  {
    hide Exact, Key;
  }

  lemma HitRight(entries: seq<Entry>, st: Structure)
    requires CacheRight(entries) && Exact(st) && EntryFind(entries, Key(st)).Some?
    ensures EntryFind(entries, Key(st)).value.st == st
  {
    hide Exact, Key, EntryFind;
    var found := EntryFind(entries, Key(st)).value;
    var k :| 0 <= k < |entries| && entries[k] == found;
    KeyInjective(entries[k].st, st);
  }

  // ---- running a closure ------------------------------------------------------------------------

  /** The entry can be called on this closure at all. */
  predicate Matches(st: Structure, c: Closure) {
    Runnable(st) && |st.leaves| == |c.leaves| && |st.nodes| == |c.nodes|
  }

  function OutHandles(c: Closure, st: Structure): (hs: seq<nat>)
    requires |st.nodes| == |c.nodes|
    ensures |hs| == |Wanted(st.nodes, 0)|
    ensures forall k :: 0 <= k < |hs| ==> Wanted(st.nodes, 0)[k] < |c.nodes| && hs[k] == c.nodes[Wanted(st.nodes, 0)[k]]
  {
    var out := Wanted(st.nodes, 0);
    seq(|out|, k requires 0 <= k < |out| => c.nodes[out[k]])
  }

  /** execute_: the leaves in, the wanted nodes out, each stored where it belongs. */
  function Execute(run: Kernel, e: Engine, c: Closure, entry: Entry): (r: (Engine, bool))
    requires Bounded(e.slots, c)
    ensures Follows(e, r.0)
  {
    if !Matches(entry.st, c) then (e.(exact := false), false)
    else
      (e.(slots := Called(run, e.slots, c, entry.st)), true)
  }

  /** The table after the entry is called on the closure and its results stored. */
  function Called(run: Kernel, slots: seq<Slot>, c: Closure, st: Structure): (r: seq<Slot>)
    requires Bounded(slots, c) && Matches(st, c)
    ensures |r| == |slots|
  {
    OutInRange(slots, c, st);
    StoreAll(slots, OutHandles(c, st), Call(run, st, ArgsOf(slots, c, st)))
  }

  /** The closure of `h`, compiled or found, and called; `ps` when a gradient is wanted. */
  function RunWalk(run: Kernel, e: Engine, h: nat, ps: Option<seq<nat>>): (r: (Engine, bool))
    ensures Follows(e, r.0)
  {
    match ClosureOf(e.slots, h, ps.Some?)
    case Dangling => (e, false)
    case TooMany => (e.(full := true), false)
    case Walked(w) =>
      if w.c.nodes == [] then (e, true) else RunListed(run, e, w.c, h, ps)
  }

  function RunListed(run: Kernel, e: Engine, c: Closure, h: nat, ps: Option<seq<nat>>): (r: (Engine, bool))
    requires Bounded(e.slots, c)
    ensures Follows(e, r.0)
  {
    var (e1, entry) := EntryFor(e, StructureOf(e.slots, c, h, ps));
    match entry
    case None => (e1, false)
    case Some(en) => Execute(run, e1, c, en)
  }

  /** run_closure */
  function RunClosure(run: Kernel, e: Engine, h: nat): (r: (Engine, bool))
    ensures Follows(e, r.0)
  {
    RunWalk(run, e, h, None)
  }

  /** tfb_force */
  function Force(run: Kernel, e: Engine, h: nat): (r: (Engine, bool))
    ensures Follows(e, r.0)
  {
    if !Exists(e.slots, h) then (e, false)
    else if e.slots[h].eh.None? then RunClosure(run, e, h)
    else (e, true)
  }

  /** tfb_values */
  function ReadValue(run: Kernel, e: Engine, h: nat): (r: (Engine, Option<Tensor>))
    ensures Follows(e, r.0)
  {
    var (e1, ok) := Force(run, e, h);
    (e1, if ok && h < |e1.slots| then e1.slots[h].eh else None)
  }

  // ---- the invariant of the engine, and what every operation does ---------------------------------

  ghost predicate Inv(run: Kernel, e: Engine) {
    && Meaningful(run, e.slots)
    && OlderThan(e.slots, e.clock)
    && 0 < e.cursor < |e.slots|
    && CacheRight(e.entries)
  }

  /** Every name but those in `gone` still stands, denotes what it did, and is a parameter if it was one. */
  ghost predicate Moves(run: Kernel, a: Engine, b: Engine, gone: set<nat>) {
    && Inv(run, a) && Inv(run, b) && |a.slots| == |b.slots|
    && forall x: nat :: Exists(a.slots, x) && x !in gone ==> Stands(run, a.slots, b.slots, x)
  }

  /** No name moves, every slot keeps its meaning, and failure means want of room. */
  ghost predicate Ran(run: Kernel, a: Engine, b: Engine, ok: bool) {
    Moves(run, a, b, {}) && Keeps(run, a.slots, b.slots) && (if ok then b.full == a.full else b.full)
  }

  lemma MovesTrans(run: Kernel, a: Engine, b: Engine, c: Engine, gone: set<nat>)
    requires Moves(run, a, b, {}) && Moves(run, b, c, gone)
    ensures Moves(run, a, c, gone)
  {
    forall x: nat | Exists(a.slots, x) && x !in gone ensures Stands(run, a.slots, c.slots, x) {
      assert Stands(run, a.slots, b.slots, x) && Stands(run, b.slots, c.slots, x);
    }
  }

  /** What a closure's run keeps, the engine keeps. */
  lemma KeepsMoves(run: Kernel, a: Engine, b: Engine)
    requires Inv(run, a) && Keeps(run, a.slots, b.slots) && CacheRight(b.entries)
    requires b.cursor == a.cursor && b.clock == a.clock
    ensures Moves(run, a, b, {})
  {
    forall x: nat | Live(b.slots, x) ensures b.slots[x].born < b.clock {
      assert Stays(run, a.slots, b.slots, x);
    }
  }

  lemma NewValueMoves(run: Kernel, e: Engine, t: Tensor, made: bool, isParam: bool)
    requires Inv(run, e) && (made ==> IsMade(t))
    ensures var (e1, h) := NewValue(e, t, made, isParam);
            && Moves(run, e, e1, {}) && (h.None? ==> e1.full)
            && (h.Some? ==> !Exists(e.slots, h.value) && Exists(e1.slots, h.value) && e1.full == e.full
                            && Den(run, e1.slots, h.value) == t && e1.slots[h.value].isParam == isParam)
  {
    var (_, h) := SlotNew(e);
    if h.Some? {
      NewValueKeeps(run, e.slots, h.value, t, made, isParam, e.clock);
    }
  }

  lemma FreeMoves(run: Kernel, e: Engine, h: nat)
    requires Inv(run, e) && Exists(e.slots, h)
    ensures var e1 := e.(slots := Free(e.slots, h));
            Moves(run, e, e1, {h}) && !Exists(e1.slots, h)
  {
    FreeKeeps(run, e.slots, h);
    var r := Free(e.slots, h);
    forall x: nat | Live(r, x) ensures r[x].born < e.clock {
      assert x in LiveSet(r);
      FreeBorn(e.slots, h, x);
    }
  }

  lemma FreeBorn(slots: seq<Slot>, h: nat, x: nat)
    requires Sound(slots) && Exists(slots, h) && Live(Free(slots, h), x)
    ensures Live(slots, x) && Free(slots, h)[x].born == slots[x].born
  {
    hide Edges;
    var s1 := slots[h := slots[h].(released := true)];
    if s1[h].refs == 0 {
      OneSlotOrdered(slots, h, s1[h]);
      SameEdgesTidy(slots, h, s1[h], NONE_DUE);
      LiveClosed(s1);
      ReallyFreeKeeps(s1, h, NONE_DUE, LiveSet(s1));
    }
  }

  /** A call on the closure's own structure answers what its wanted nodes denote. */
  lemma CallAnswers(run: Kernel, slots: seq<Slot>, c: Closure, root: nat, ps: Option<seq<nat>>)
    requires Meaningful(run, slots) && Listed(slots, c, ps.Some?) && Bounded(slots, c)
    ensures var st := StructureOf(slots, c, root, ps);
            && Matches(st, c)
            && Answers(run, slots, c, Wanted(st.nodes, 0), OutHandles(c, st), Call(run, st, ArgsOf(slots, c, st)))
  {
    ListedRunnable(slots, c, ps.Some?, root, ps);
    NodeValsDen(run, slots, c, ps.Some?, root, ps, |c.nodes|);
  }

  lemma WantedReady(slots: seq<Slot>, c: Closure, root: nat, ps: Option<seq<nat>>)
    requires Formed(slots) && Listed(slots, c, ps.Some?) && Bounded(slots, c) && Exists(slots, root)
    ensures AllReady(slots, c, Wanted(StructureOf(slots, c, root, ps).nodes, 0))
  {
    var st := StructureOf(slots, c, root, ps);
    var out := Wanted(st.nodes, 0);
    forall k | 0 <= k < |out| ensures Ready(slots, c, out[k]) {
      assert st.nodes[out[k]].want;
      ListedReady(slots, c, ps.Some?, root, out[k]);
    }
  }

  /** The results of a call, stored: no name moves, and what was asked for has its value. */
  lemma StoreCallKeeps(run: Kernel, slots: seq<Slot>, c: Closure, root: nat, ps: Option<seq<nat>>)
    requires Meaningful(run, slots) && Listed(slots, c, ps.Some?) && Bounded(slots, c)
    requires Exists(slots, root) && c.nodes != [] && c.nodes[|c.nodes| - 1] == root
    ensures var st := StructureOf(slots, c, root, ps);
            && Matches(st, c) && Keeps(run, slots, Called(run, slots, c, st))
            && (slots[root].eh.None? ==>
              Live(Called(run, slots, c, st), root) && Called(run, slots, c, st)[root].eh.Some?)
  {
    hide Listed, Answers, AllReady, Keeps, Call, ArgsOf, StoreAll, AllDistinct, StructureOf, Wanted, Runnable;
    hide Meaningful, OutHandles;
    var st := StructureOf(slots, c, root, ps);
    CallAnswers(run, slots, c, root, ps);
    MeaningfulFormed(run, slots);
    WantedReady(slots, c, root, ps);
    OutInRange(slots, c, st);
    ListedFacts(slots, c, ps.Some?);
    StoreAllKeeps(run, slots, c, Wanted(st.nodes, 0), OutHandles(c, st), Call(run, st, ArgsOf(slots, c, st)));
    if slots[root].eh.None? {
      RootWanted(slots, c, root, ps);
      LastWanted(st.nodes);
      LastHandle(c, st);
    }
  }

  lemma MeaningfulFormed(run: Kernel, slots: seq<Slot>)
    requires Meaningful(run, slots)
    ensures Formed(slots)
  {
  }

  lemma LastHandle(c: Closure, st: Structure)
    requires |st.nodes| == |c.nodes| && c.nodes != [] && Wanted(st.nodes, 0) != []
    requires Wanted(st.nodes, 0)[|Wanted(st.nodes, 0)| - 1] == |st.nodes| - 1
    ensures var hs := OutHandles(c, st); hs != [] && hs[|hs| - 1] == c.nodes[|c.nodes| - 1]
  {
    hide Wanted, OutHandles;
  }

  lemma RootWanted(slots: seq<Slot>, c: Closure, root: nat, ps: Option<seq<nat>>)
    requires Bounded(slots, c) && root < |slots| && slots[root].eh.None? && c.nodes != []
    requires c.nodes[|c.nodes| - 1] == root
    ensures var nodes := StructureOf(slots, c, root, ps).nodes; nodes != [] && nodes[|nodes| - 1].want
  {
  }

  lemma OutInRange(slots: seq<Slot>, c: Closure, st: Structure)
    requires |st.nodes| == |c.nodes| && Bounded(slots, c)
    ensures InRange(slots, OutHandles(c, st))
  {
  }

  lemma ListedFacts(slots: seq<Slot>, c: Closure, grad: bool)
    requires Listed(slots, c, grad)
    ensures AllDistinct(c.nodes)
  {
  }

  lemma LastWanted(nodes: seq<NodeSig>)
    requires nodes != [] && nodes[|nodes| - 1].want
    ensures var out := Wanted(nodes, 0); out != [] && out[|out| - 1] == |nodes| - 1
  {
    var out := Wanted(nodes, 0);
    assert |nodes| - 1 in out;
    assert out[|out| - 1] <= |nodes| - 1;
  }

  /**
   Running a closure, for a read or for a gradient, never changes what a live name denotes; it
   fails only for want of room.
   */
  lemma RunWalkMoves(run: Kernel, e: Engine, h: nat, ps: Option<seq<nat>>)
    requires Inv(run, e) && Exists(e.slots, h)
    ensures var (e1, ok) := RunWalk(run, e, h, ps);
            e1.exact ==>
              Ran(run, e, e1, ok) && (ok && ps.None? ==> e1.slots[h].eh.Some?)
  {
    ClosureListed(e.slots, h, ps.Some?);
    match ClosureOf(e.slots, h, ps.Some?)
    case TooMany =>
    case Walked(w) =>
      if w.c.nodes == [] {
        assert WellFormed(e.slots[h]);
      } else {
        RunListedMoves(run, e, w.c, h, ps);
      }
  }

  lemma RunListedMoves(run: Kernel, e: Engine, c: Closure, h: nat, ps: Option<seq<nat>>)
    requires Inv(run, e) && Listed(e.slots, c, ps.Some?) && Bounded(e.slots, c)
    requires Exists(e.slots, h) && c.nodes != [] && c.nodes[|c.nodes| - 1] == h
    ensures var (e1, ok) := RunListed(run, e, c, h, ps);
            e1.exact ==> Ran(run, e, e1, ok) && (ok && ps.None? ==> e1.slots[h].eh.Some?)
  {
    hide StructureOf, Listed, Bounded, Meaningful, OlderThan, Execute, Moves;
    var st := StructureOf(e.slots, c, h, ps);
    EntryForRight(e, st);
    var (e1, entry) := EntryFor(e, st);
    if e1.exact {
      if entry.Some? {
        ExecuteMoves(run, e, e1, c, h, ps, entry.value);
      } else {
        MovesNothing(run, e, e1);
      }
    }
  }

  lemma ExecuteMoves(run: Kernel, e: Engine, e1: Engine, c: Closure, h: nat, ps: Option<seq<nat>>, entry: Entry)
    requires Inv(run, e) && Listed(e.slots, c, ps.Some?) && Bounded(e.slots, c)
    requires Exists(e.slots, h) && c.nodes != [] && c.nodes[|c.nodes| - 1] == h
    requires e1.slots == e.slots && e1.cursor == e.cursor && e1.clock == e.clock && e1.full == e.full
    requires CacheRight(e1.entries)
    requires entry.st == StructureOf(e.slots, c, h, ps)
    ensures var (e2, ok) := Execute(run, e1, c, entry);
            ok && Ran(run, e, e2, ok) && (ps.None? ==> e2.slots[h].eh.Some?)
  {
    StoreCallKeeps(run, e.slots, c, h, ps);
    KeepsMoves(run, e, Execute(run, e1, c, entry).0);
    assert !IsLeaf(e.slots[h], ps.Some?) by {
      assert !IsLeaf(e.slots[c.nodes[|c.nodes| - 1]], ps.Some?);
    }
  }

  lemma MovesNothing(run: Kernel, a: Engine, b: Engine)
    requires Inv(run, a) && b.slots == a.slots && b.clock == a.clock && 0 < b.cursor < |b.slots|
    requires CacheRight(b.entries)
    ensures Moves(run, a, b, {})
  {
  }

  lemma ForceMoves(run: Kernel, e: Engine, h: nat)
    requires Inv(run, e) && Exists(e.slots, h)
    ensures var (e1, ok) := Force(run, e, h);
            e1.exact ==> Ran(run, e, e1, ok) && (ok ==> e1.slots[h].eh.Some?)
  {
    if e.slots[h].eh.None? {
      RunWalkMoves(run, e, h, None);
    }
  }

  /** A read answers what the name denotes. */
  lemma ReadMoves(run: Kernel, e: Engine, h: nat)
    requires Inv(run, e) && Exists(e.slots, h)
    ensures var (e1, v) := ReadValue(run, e, h);
            e1.exact ==> Moves(run, e, e1, {}) && (v.None? ==> e1.full)
                         && (v.Some? ==> v.value == Den(run, e.slots, h) && e1.full == e.full)
  {
    ForceMoves(run, e, h);
  }

  // ---- producers ------------------------------------------------------------------------------------

  predicate AnyUnderParam(slots: seq<Slot>, ins: seq<nat>) {
    exists k :: 0 <= k < |ins| && ins[k] < |slots| &&
      (slots[ins[k]].isParam || (slots[ins[k]].kind == NODE && slots[ins[k]].underParam))
  }

  /** Eager mode first runs inputs recorded before the switch was moved. */
  function ForceAll(run: Kernel, e: Engine, ins: seq<nat>): (r: (Engine, bool))
    ensures Follows(e, r.0)
    decreases |ins|
  {
    if ins == [] then (e, true)
    else
      var (e1, ok) := Force(run, e, ins[0]);
      if ok then ForceAll(run, e1, ins[1..]) else (e1, false)
  }

  function ValuesOf(slots: seq<Slot>, ins: seq<nat>): seq<Tensor> {
    seq(|ins|, k requires 0 <= k < |ins| =>
      if ins[k] < |slots| && slots[ins[k]].eh.Some? then slots[ins[k]].eh.value else Tensor(FLOAT, [], []))
  }

  /** run_spec_ under eager: executed now, and taped when a parameter reaches it. */
  function RunEager(run: Kernel, e: Engine, spec: OpSpec, refused: bool): (r: (Engine, Option<nat>))
    ensures Follows(e, r.0)
  {
    var up := AnyUnderParam(e.slots, spec.ins);
    var (e1, ok) := ForceAll(run, e, spec.ins);
    if !ok || refused || !InRange(e1.slots, spec.ins) then (e1, None)
    else
      var t := run(spec.sig, ValuesOf(e1.slots, spec.ins));
      var (e2, h) := SlotNew(e1);
      if h.None? then (e2, None)
      else if up then
        (e2.(slots := Record(e1.slots, h.value, spec, Some(t), true, e1.clock), clock := e1.clock + 1), h)
      else
        (e2.(slots := e1.slots[h.value := ValueSlot(t, false, false, e1.clock)], clock := e1.clock + 1), h)
  }

  /** run_spec_ under graph: only recorded; a shape that cannot be is refused here and undone. */
  function RunGraph(e: Engine, spec: OpSpec, refused: bool): (r: (Engine, Option<nat>))
    ensures Follows(e, r.0)
  {
    var (e1, h) := SlotNew(e);
    if h.None? || !InRange(e.slots, spec.ins) then (e1, None)
    else
      var recorded := Record(e.slots, h.value, spec, None, AnyUnderParam(e.slots, spec.ins), e.clock);
      if refused then (e1.(slots := Undo(recorded, h.value, spec.ins)), None)
      else (e1.(slots := recorded, clock := e.clock + 1), h)
  }

  function RunSpec(run: Kernel, e: Engine, graph: bool, spec: OpSpec, refused: bool): (r: (Engine, Option<nat>))
    ensures Follows(e, r.0)
  {
    if !AllExist(e.slots, spec.ins) then (e, None)
    else if graph then RunGraph(e, spec, refused)
    else RunEager(run, e, spec, refused)
  }

  lemma {:induction false} ForceAllMoves(run: Kernel, e: Engine, ins: seq<nat>)
    requires Inv(run, e) && AllExist(e.slots, ins)
    ensures var (e1, ok) := ForceAll(run, e, ins);
            e1.exact ==>
              && Ran(run, e, e1, ok)
              && AllExist(e1.slots, ins) && (ok ==> forall k :: 0 <= k < |ins| ==> e1.slots[ins[k]].eh.Some?)
    decreases |ins|
  {
    hide CacheRight, OlderThan, Force;
    if ins != [] {
      ForceMoves(run, e, ins[0]);
      var (e1, ok) := Force(run, e, ins[0]);
      if e1.exact && ok {
        MovesAllExist(run, e, e1, ins);
        assert AllExist(e1.slots, ins[1..]);
        ForceAllMoves(run, e1, ins[1..]);
        var e2 := ForceAll(run, e1, ins[1..]).0;
        if e2.exact {
          MovesTrans(run, e, e1, e2, {});
          MovesAllExist(run, e1, e2, ins);
          assert Stands(run, e1.slots, e2.slots, ins[0]);
          assert ins == [ins[0]] + ins[1..];
        }
      } else if e1.exact {
        MovesAllExist(run, e, e1, ins);
      }
    }
  }

  lemma MovesAllExist(run: Kernel, a: Engine, b: Engine, ins: seq<nat>)
    requires Moves(run, a, b, {}) && AllExist(a.slots, ins)
    ensures AllExist(b.slots, ins)
  {
    forall k | 0 <= k < |ins| ensures Exists(b.slots, ins[k]) {
      assert Stands(run, a.slots, b.slots, ins[k]);
    }
  }

  /** A name's meaning, and so the meaning of an operation on names, moves with the engine. */
  lemma DensMove(run: Kernel, a: Engine, b: Engine, ins: seq<nat>)
    requires Moves(run, a, b, {}) && AllExist(a.slots, ins) && AllExist(b.slots, ins)
    ensures DensOf(run, b.slots, ins) == DensOf(run, a.slots, ins)
  {
    forall k | 0 <= k < |ins| ensures DensOf(run, b.slots, ins)[k] == DensOf(run, a.slots, ins)[k] {
      assert Stands(run, a.slots, b.slots, ins[k]);
    }
  }

  /** What a producer promises: a new name for the operation on its inputs, and nothing else moved. */
  ghost predicate Produced(run: Kernel, e: Engine, e1: Engine, h: Option<nat>, t: Tensor, refused: bool) {
    && Moves(run, e, e1, {})
    && (h.None? ==> refused || e1.full)
    && (h.Some? ==> !refused && e1.full == e.full && !Exists(e.slots, h.value) && Exists(e1.slots, h.value)
                    && Den(run, e1.slots, h.value) == t && !e1.slots[h.value].isParam)
  }

  /** One more slot, in a place that was free. */
  lemma GrownMoves(run: Kernel, e: Engine, e1: Engine, h: nat)
    requires Inv(run, e) && 0 < h < |e.slots| && e.slots[h].kind == FREE
    requires Meaningful(run, e1.slots) && |e1.slots| == |e.slots| && Preserves(run, e.slots, e1.slots)
    requires Exists(e1.slots, h) && Spares(e.slots, e1.slots, h)
    requires e1.clock == e.clock + 1 && 0 < e1.cursor < |e1.slots| && e1.entries == e.entries
    requires forall x: nat :: Live(e1.slots, x) ==> e1.slots[x].born <= e.clock
    ensures Moves(run, e, e1, {})
  {
    forall x: nat | Exists(e.slots, x) ensures Stands(run, e.slots, e1.slots, x) {
      assert x != h;
    }
  }

  lemma RecordMoves(run: Kernel, e: Engine, e1: Engine, h: nat, spec: OpSpec, eh: Option<Tensor>, up: bool)
    requires Inv(run, e) && 0 < h < |e.slots| && e.slots[h].kind == FREE && AllExist(e.slots, spec.ins)
    requires eh.Some? ==> up && eh.value == run(spec.sig, DensOf(run, e.slots, spec.ins))
    requires e1.slots == Record(e.slots, h, spec, eh, up, e.clock)
    requires e1.clock == e.clock + 1 && 0 < e1.cursor < |e1.slots| && e1.entries == e.entries
    ensures Moves(run, e, e1, {}) && Exists(e1.slots, h) && !e1.slots[h].isParam
    ensures Den(run, e1.slots, h) == run(spec.sig, DensOf(run, e.slots, spec.ins))
  {
    RecordKeeps(run, e.slots, h, spec, eh, up, e.clock);
    RecordAt(e.slots, h, spec, eh, up, e.clock);
    GrownMoves(run, e, e1, h);
  }

  lemma FreeSlotSound(a: seq<Slot>, h: nat, s: Slot)
    requires Sound(a) && 0 < h < |a| && a[h].kind == FREE && s.kind == FREE
    ensures Sound(a[h := s])
  {
    FilledOrdered(a, h, s);
    FilledTidy(a, h, s);
  }

  /** Whatever is left in a free slot, the table means the same. */
  lemma FreeSlotAny(run: Kernel, a: seq<Slot>, b: seq<Slot>, h: nat)
    requires Meaningful(run, a) && |a| == |b| && 0 < h < |a| && a[h].kind == FREE && b[h].kind == FREE
    requires forall x: nat :: x < |a| && x != h ==> b[x] == a[x]
    ensures Meaningful(run, b) && Preserves(run, a, b)
  {
    assert b == a[h := b[h]];
    FreeSlotSound(a, h, b[h]);
    forall x: nat | Live(b, x) ensures Taped(run, a, x) {}
    Settled(run, a, b);
  }

  lemma UndoMoves(run: Kernel, e: Engine, e1: Engine, h: nat, spec: OpSpec, up: bool)
    requires Inv(run, e) && 0 < h < |e.slots| && e.slots[h].kind == FREE && AllExist(e.slots, spec.ins)
    requires e1.slots == Undo(Record(e.slots, h, spec, None, up, e.clock), h, spec.ins)
    requires e1.clock == e.clock && 0 < e1.cursor < |e1.slots| && e1.entries == e.entries
    ensures Moves(run, e, e1, {})
  {
    UndoRestores(e.slots, h, spec, up, e.clock);
    FreeSlotAny(run, e.slots, e1.slots, h);
  }

  lemma RunGraphMoves(run: Kernel, e: Engine, spec: OpSpec, refused: bool)
    requires Inv(run, e) && AllExist(e.slots, spec.ins)
    ensures var (e1, h) := RunGraph(e, spec, refused);
            Produced(run, e, e1, h, run(spec.sig, DensOf(run, e.slots, spec.ins)), refused)
  {
    var (e0, h) := SlotNew(e);
    var e1 := RunGraph(e, spec, refused).0;
    if h.None? {
      MovesNothing(run, e, e1);
    } else if refused {
      UndoMoves(run, e, e1, h.value, spec, AnyUnderParam(e.slots, spec.ins));
    } else {
      RecordMoves(run, e, e1, h.value, spec, None, AnyUnderParam(e.slots, spec.ins));
    }
  }

  lemma ValuesAreDens(run: Kernel, slots: seq<Slot>, ins: seq<nat>)
    requires Formed(slots) && Ordered(slots) && AllExist(slots, ins)
    requires forall k :: 0 <= k < |ins| ==> slots[ins[k]].eh.Some?
    ensures ValuesOf(slots, ins) == DensOf(run, slots, ins)
  {
  }

  lemma RunEagerMoves(run: Kernel, e: Engine, spec: OpSpec, refused: bool)
    requires Inv(run, e) && AllExist(e.slots, spec.ins)
    ensures var (e1, h) := RunEager(run, e, spec, refused);
            e1.exact ==> Produced(run, e, e1, h, run(spec.sig, DensOf(run, e.slots, spec.ins)), refused)
  {
    ForceAllMoves(run, e, spec.ins);
    var (e1, ok) := ForceAll(run, e, spec.ins);
    if e1.exact && ok && !refused {
      ValuesAreDens(run, e1.slots, spec.ins);
      DensMove(run, e, e1, spec.ins);
      var t := run(spec.sig, DensOf(run, e.slots, spec.ins));
      var (_, h) := SlotNew(e1);
      var e2 := RunEager(run, e, spec, refused).0;
      if h.None? {
        MovesNothing(run, e1, e2);
      } else if AnyUnderParam(e.slots, spec.ins) {
        RecordMoves(run, e1, e2, h.value, spec, Some(t), true);
      } else {
        NewValueMoves(run, e1, t, false, false);
      }
      MovesTrans(run, e, e1, e2, {});
      assert h.Some? && Exists(e.slots, h.value) ==> Stands(run, e.slots, e1.slots, h.value);
    }
  }

  /** A producer does the same thing in either mode. */
  lemma RunSpecMoves(run: Kernel, e: Engine, graph: bool, spec: OpSpec, refused: bool)
    requires Inv(run, e) && AllExist(e.slots, spec.ins)
    ensures var (e1, h) := RunSpec(run, e, graph, spec, refused);
            e1.exact ==> Produced(run, e, e1, h, run(spec.sig, DensOf(run, e.slots, spec.ins)), refused)
  {
    if graph {
      RunGraphMoves(run, e, spec, refused);
    } else {
      RunEagerMoves(run, e, spec, refused);
    }
  }
}
