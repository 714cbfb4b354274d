/**
 The back end as the C code runs it (modules/tensorflow/backend.c): one table updated in place,
 recursive frees, a closure's buffers filled by a recursive walk, and loops over results and
 entries. Each method is proved to take the table to the state its specification function gives.
 */
module Backends {
  import opened Wrappers
  import opened Slots
  import opened Meaning
  import opened Closures
  import opened Results
  import opened Keys
  import opened Engines

  /** A Closure's two buffers, with their lengths. */
  class Buffers {
    const leaves: array<nat>
    const nodes: array<nat>
    var nleaves: nat
    var nnodes: nat

    constructor ()
      ensures leaves.Length == MAX_LEAF && nodes.Length == MAX_NODE && nleaves == nnodes == 0
      ensures fresh(leaves) && fresh(nodes) && leaves != nodes
    {
      leaves := new nat[MAX_LEAF];
      nodes := new nat[MAX_NODE];
      nleaves, nnodes := 0, 0;
    }

    ghost predicate Valid()
      reads this
    {
      && leaves != nodes && leaves.Length == MAX_LEAF && nodes.Length == MAX_NODE
      && nleaves <= MAX_LEAF && nnodes <= MAX_NODE
    }

    function View(): Closure
      requires Valid()
      reads this, leaves, nodes
    {
      Closure(leaves[..nleaves], nodes[..nnodes])
    }
  }

  /** The slots marked seen by a walk. */
  ghost function Marked(seen: seq<bool>): set<nat> {
    set h: nat | h < |seen| && seen[h]
  }

  datatype Outcome = Ok | Freed | Overflow

  /** How a walk's return code reads. */
  ghost predicate Reports(r: WalkResult, o: Outcome, c: Closure, seen: set<nat>) {
    match r
    case Walked(w) => o == Ok && w == Walk(c, seen)
    case Dangling => o == Freed
    case TooMany => o == Overflow
  }

  class Backend {
    const slots: array<Slot>
    var cursor: nat
    var clock: nat
    var entries: seq<Entry>
    ghost var exact: bool
    ghost var full: bool

    ghost function State(): Engine
      reads this, slots
    {
      Engine(slots[..], cursor, clock, entries, exact, full)
    }

    constructor (n: nat)
      ensures State() == Engine(seq(n + 2, _ => EMPTY), 1, 0, [], true, false)
      ensures fresh(slots)
    {
      slots := new Slot[n + 2](_ => EMPTY);
      cursor, clock, entries, exact, full := 1, 0, [], true, false;
      new;
      assert slots[..] == seq(n + 2, _ => EMPTY);
    }

    /** slot_new: at most one look at each slot, from the cursor on. */
    method SlotNew() returns (h: Option<nat>)
      requires 0 < cursor < slots.Length
      modifies this`cursor, this`full
      ensures (State(), h) == Engines.SlotNew(old(State()))
    {
      var tries := slots.Length - 1;
      while tries > 0
        invariant 0 < cursor < slots.Length && 0 <= tries < slots.Length
        invariant full == old(full)
        invariant Scan(slots[..], cursor, tries) == Scan(slots[..], old(cursor), slots.Length - 1)
      {
        var i := cursor;
        cursor := if i + 1 < slots.Length then i + 1 else 1;
        if slots[i].kind == FREE {
          return Some(i);
        }
        tries := tries - 1;
      }
      full := true;
      return None;
    }

    method Unref(h: nat)
      modifies slots
      ensures slots[..] == Slots.Unref(old(slots[..]), h)
      decreases LiveSet(slots[..]), 1, 0
    {
      if h == 0 || h >= slots.Length || slots[h].kind == FREE { return; }
      ghost var was := slots[..];
      if slots[h].refs > 0 {
        slots[h] := slots[h].(refs := slots[h].refs - 1);
      }
      assert slots[..] == was[h := Decremented(was[h])];
      assert LiveSet(slots[..]) == LiveSet(was);
      if slots[h].released && slots[h].refs == 0 {
        ReallyFree(h);
      }
    }

    method ReallyFree(h: nat)
      requires Live(slots[..], h)
      modifies slots
      ensures slots[..] == Slots.ReallyFree(old(slots[..]), h)
      decreases LiveSet(slots[..]), 0, 0
    {
      ghost var was := slots[..];
      var s := slots[h];
      slots[h] := EMPTY;
      assert slots[..] == was[h := EMPTY];
      assert LiveSet(slots[..]) <= LiveSet(was) && h in LiveSet(was) && h !in LiveSet(slots[..]);
      if s.kind == NODE {
        UnrefEach(s.spec.ins);
      }
    }

    /** The loop of really_free and drop_structure over a recipe's inputs. */
    method UnrefEach(ins: seq<nat>)
      modifies slots
      ensures slots[..] == UnrefAll(old(slots[..]), ins)
      decreases LiveSet(slots[..]), 2, 0
    {
      var i := 0;
      while i < |ins|
        invariant i <= |ins|
        invariant UnrefAll(slots[..], ins[i..]) == UnrefAll(old(slots[..]), ins)
        invariant LiveSet(slots[..]) <= LiveSet(old(slots[..]))
      {
        assert ins[i..][0] == ins[i] && ins[i..][1..] == ins[i + 1..];
        Unref(ins[i]);
        i := i + 1;
      }
    }

    /** tfb_free */
    method Free(h: nat) returns (ok: bool)
      modifies slots
      ensures slots[..] == Meaning.Free(old(slots[..]), h)
      ensures ok == Exists(old(slots[..]), h)
    {
      if h == 0 || h >= slots.Length || slots[h].kind == FREE || slots[h].released { return false; }
      ghost var was := slots[..];
      slots[h] := slots[h].(released := true);
      assert slots[..] == was[h := was[h].(released := true)];
      if slots[h].refs == 0 {
        ReallyFree(h);
      } else if slots[h].kind == NODE && slots[h].eh.Some? {
        slots[h] := slots[h].(eh := None);
        assert slots[..] == was[h := was[h].(released := true)][h := was[h].(released := true, eh := None)];
      } else {
        assert slots[h].kind == NODE ==> slots[..] == slots[..][h := slots[h].(eh := None)];
      }
      return true;
    }

    /** drop_structure */
    method DropStructure(h: nat)
      requires h < slots.Length
      modifies slots
      ensures slots[..] == Meaning.DropStructure(old(slots[..]), h)
    {
      if slots[h].kind != NODE { return; }
      ghost var was := slots[..];
      var ins := slots[h].spec.ins;
      slots[h] := slots[h].(kind := VALUE, spec := NO_SPEC);
      assert slots[..] == was[h := was[h].(kind := VALUE, spec := NO_SPEC)];
      UnrefEach(ins);
    }

    /** The loop of execute_: each result is taken, and its recipe dropped unless a gradient may want it. */
    method StoreResults(hs: seq<nat>, ret: seq<Tensor>)
      requires |hs| == |ret| && InRange(slots[..], hs)
      modifies slots
      ensures slots[..] == StoreAll(old(slots[..]), hs, ret)
    {
      var k := 0;
      while k < |hs|
        invariant k <= |hs|
        invariant InRange(slots[..], hs[k..])
        invariant StoreAll(slots[..], hs[k..], ret[k..]) == StoreAll(old(slots[..]), hs, ret)
      {
        var h := hs[k];
        assert hs[k..][0] == h && hs[k..][1..] == hs[k + 1..] && ret[k..][1..] == ret[k + 1..];
        ghost var was := slots[..];
        slots[h] := slots[h].(eh := Some(ret[k]));
        assert slots[..] == was[h := was[h].(eh := Some(ret[k]))];
        if !slots[h].underParam || slots[h].isParam {
          DropStructure(h);
        }
        assert slots[..] == Store(was, h, ret[k]);
        k := k + 1;
      }
    }

    /** entry_find: the first entry with the key, by a scan. */
    method EntryFind(key: string) returns (r: Option<Entry>)
      ensures r == Engines.EntryFind(entries, key)
    {
      var i := 0;
      while i < |entries|
        invariant i <= |entries|
        invariant Engines.EntryFind(entries[i..], key) == Engines.EntryFind(entries, key)
      {
        if entries[i].key == key {
          return Some(entries[i]);
        }
        i := i + 1;
      }
      return None;
    }

    /** visit: fills the buffers and marks the slots met. */
    method Visit(h: nat, c: Buffers, seen: array<bool>, grad: bool) returns (o: Outcome)
      requires c.Valid() && seen.Length == slots.Length
      modifies c, c.leaves, c.nodes, seen
      ensures c.Valid()
      ensures Reports(Closures.Visit(slots[..], h, old(Walk(c.View(), Marked(seen[..]))), grad),
              o, c.View(), Marked(seen[..]))
      decreases LiveSet(slots[..]) - Marked(seen[..]), 0, 0
    {
      if h == 0 || h >= slots.Length || slots[h].kind == FREE { return Freed; }
      if seen[h] { return Ok; }
      ghost var w := Walk(c.View(), Marked(seen[..]));
      seen[h] := true;
      assert Marked(seen[..]) == w.seen + {h};
      if slots[h].kind == VALUE || (slots[h].eh.Some? && (!grad || slots[h].isParam)) {
        if c.nleaves >= MAX_LEAF { return Overflow; }
        c.leaves[c.nleaves] := h;
        c.nleaves := c.nleaves + 1;
        assert c.View().leaves == w.c.leaves + [h];
        return Ok;
      }
      assert h in LiveSet(slots[..]) - w.seen && h !in LiveSet(slots[..]) - Marked(seen[..]);
      o := VisitInputs(h, c, seen, grad);
      if o != Ok { return; }
      if c.nnodes >= MAX_NODE { return Overflow; }
      ghost var before := c.View();
      c.nodes[c.nnodes] := h;
      c.nnodes := c.nnodes + 1;
      assert c.View().nodes == before.nodes + [h];
    }

    /** visit's loop over a node's inputs. */
    method VisitInputs(h: nat, c: Buffers, seen: array<bool>, grad: bool) returns (o: Outcome)
      requires c.Valid() && seen.Length == slots.Length && Live(slots[..], h) && slots[h].kind == NODE
      modifies c, c.leaves, c.nodes, seen
      ensures c.Valid()
      ensures Reports(Closures.VisitInputs(slots[..], h, 0, old(Walk(c.View(), Marked(seen[..]))), grad),
              o, c.View(), Marked(seen[..]))
      decreases LiveSet(slots[..]) - Marked(seen[..]), 1, 0
    {
      ghost var w0 := Walk(c.View(), Marked(seen[..]));
      var ins := slots[h].spec.ins;
      var k := 0;
      while k < |ins|
        invariant c.Valid() && k <= |ins|
        invariant Marked(old(seen[..])) <= Marked(seen[..])
        invariant Closures.VisitInputs(slots[..], h, 0, w0, grad)
               == Closures.VisitInputs(slots[..], h, k, Walk(c.View(), Marked(seen[..])), grad)
      {
        o := Visit(ins[k], c, seen, grad);
        if o != Ok { return; }
        k := k + 1;
      }
      return Ok;
    }

    /** run_closure: the closure of `h` is walked, compiled or found, called, and its results stored. */
    method RunClosure(run: Kernel, h: nat) returns (ok: bool)
      modifies this, slots
      ensures (State(), ok) == Engines.RunClosure(run, old(State()), h)
    {
      hide Key, StructureOf, ArgsOf, Call, Exact;
      var c := new Buffers();
      var seen := new bool[slots.Length](_ => false);
      assert c.View() == Closure([], []) && Marked(seen[..]) == {};
      var o := Visit(h, c, seen, false);
      if o == Freed { return false; }
      if o == Overflow {
        full := true;
        return false;
      }
      if c.nnodes == 0 { return true; }
      var cl := c.View();
      var st := StructureOf(slots[..], cl, h, None);
      var found := EntryFind(Key(st));
      exact := exact && Exact(st);
      if found.None? {
        if |entries| >= MAX_ENTRY {
          full := true;
          return false;
        }
        found := Some(Entry(Key(st), st));
        entries := entries + [Entry(Key(st), st)];
      }
      if !Matches(found.value.st, cl) {
        exact := false;
        return false;
      }
      var hs := OutHandles(cl, found.value.st);
      OutInRange(slots[..], cl, found.value.st);
      StoreResults(hs, Call(run, found.value.st, ArgsOf(slots[..], cl, found.value.st)));
      return true;
    }

    /** tfb_force */
    method Force(run: Kernel, h: nat) returns (ok: bool)
      modifies this, slots
      ensures (State(), ok) == Engines.Force(run, old(State()), h)
    {
      if h == 0 || h >= slots.Length || slots[h].kind == FREE || slots[h].released { return false; }
      if slots[h].eh.None? {
        ok := RunClosure(run, h);
        return;
      }
      return true;
    }

    method ForceEach(run: Kernel, ins: seq<nat>) returns (ok: bool)
      requires 0 < cursor < slots.Length
      modifies this, slots
      ensures (State(), ok) == ForceAll(run, old(State()), ins)
      ensures 0 < cursor < slots.Length
    {
      var i := 0;
      while i < |ins|
        invariant i <= |ins| && 0 < cursor < slots.Length
        invariant ForceAll(run, State(), ins[i..]) == ForceAll(run, old(State()), ins)
      {
        ghost var e := State();
        ok := Force(run, ins[i]);
        assert ins[i..][0] == ins[i] && ins[i..][1..] == ins[i + 1..];
        ForceCursor(run, e, ins[i]);
        if !ok { return; }
        i := i + 1;
      }
      return true;
    }

    /** The references a recorded node takes on its inputs. */
    method RefEach(ins: seq<nat>)
      requires InRange(slots[..], ins)
      modifies slots
      ensures slots[..] == AddRefs(old(slots[..]), ins)
    {
      var i := 0;
      while i < |ins|
        invariant i <= |ins|
        invariant AddRefs(slots[..], ins[i..]) == AddRefs(old(slots[..]), ins)
      {
        var x := ins[i];
        assert ins[i..][0] == x && ins[i..][1..] == ins[i + 1..];
        ghost var was := slots[..];
        slots[x] := slots[x].(refs := slots[x].refs + 1);
        assert slots[..] == was[x := was[x].(refs := was[x].refs + 1)];
        i := i + 1;
      }
    }

    /** run_spec_: executed now and taped, or only recorded. */
    method RunSpec(run: Kernel, graph: bool, spec: OpSpec, refused: bool) returns (h: Option<nat>)
      requires 0 < cursor < slots.Length
      modifies this, slots
      ensures (State(), h) == Engines.RunSpec(run, old(State()), graph, spec, refused)
    {
      if !AllExist(slots[..], spec.ins) { return None; }
      var up := AnyUnderParam(slots[..], spec.ins);
      if !graph {
        var ok := ForceEach(run, spec.ins);
        if !ok || refused { return None; }
        var t := run(spec.sig, ValuesOf(slots[..], spec.ins));
        h := SlotNew();
        if h.None? { return; }
        ghost var was := slots[..];
        slots[h.value] := if up then NodeSlot(spec, Some(t), true, clock) else ValueSlot(t, false, false, clock);
        assert slots[..] == was[h.value := slots[h.value]];
        if up {
          RefEach(spec.ins);
        }
        clock := clock + 1;
        return;
      }
      h := SlotNew();
      if h.None? { return; }
      ghost var was := slots[..];
      slots[h.value] := NodeSlot(spec, None, up, clock);
      assert slots[..] == was[h.value := slots[h.value]];
      RefEach(spec.ins);
      if refused {
        UnrefEach(spec.ins);
        ghost var undone := slots[..];
        slots[h.value] := slots[h.value].(kind := FREE);
        assert slots[..] == undone[h.value := undone[h.value].(kind := FREE)];
        return None;
      }
      clock := clock + 1;
    }
  }

  /** Running a closure leaves the allocation cursor alone. */
  lemma ForceCursor(run: Kernel, e: Engine, h: nat)
    ensures Engines.Force(run, e, h).0.cursor == e.cursor
  {
  }
}
