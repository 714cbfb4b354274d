/**
 The slot table of the TensorFlow back end (modules/tensorflow/backend.c): values, recipe
 nodes, reference counts and deferred release.

 The table is modelled on values here, as a sequence of slots, and by a class that updates
 an array in place in `Backend`. Tensors are abstract device values; operations are one
 arbitrary deterministic function, a `Kernel`, over which every result quantifies.
 */
module Slots {

  import opened Wrappers

  /** A device tensor: element type, shape and the bits of its elements. */
  datatype Tensor = Tensor(dtype: int, shape: seq<int>, data: seq<int>)

  /** An operation with its attributes, the inputs left out. */
  datatype OpSig = OpSig(op: string, listN: nat,
                         types: seq<(string, int)>, ints: seq<(string, int)>, bools: seq<(string, bool)>)

  datatype OpSpec = OpSpec(sig: OpSig, ins: seq<nat>)

  type Kernel = (OpSig, seq<Tensor>) -> Tensor

  datatype Kind = FREE | VALUE | NODE

  /**
   One slot. `host` is a made constant's host copy. `born` is not in the C struct: it is the
   stamp of the allocation, used in specifications only, because slot numbers are reused and
   so do not order the graph.
   */
  datatype Slot = Slot(kind: Kind, eh: Option<Tensor>, host: Option<Tensor>, spec: OpSpec,
                       refs: nat, released: bool, isParam: bool, underParam: bool, born: nat)

  const INT32 := 3
  const FLOAT := 1
  const NO_SPEC := OpSpec(OpSig("", 0, [], [], []), [])
  const NONE_DUE: multiset<nat> := multiset{}
  const EMPTY := Slot(FREE, None, None, NO_SPEC, 0, false, false, false, 0)

  predicate Live(slots: seq<Slot>, h: nat) {
    0 < h < |slots| && slots[h].kind != FREE
  }

  /** The program still names it. */
  predicate Exists(slots: seq<Slot>, h: nat) {
    Live(slots, h) && !slots[h].released
  }

  predicate InRange(slots: seq<Slot>, ins: seq<nat>) {
    forall k {:trigger ins[k]} :: 0 <= k < |ins| ==> ins[k] < |slots|
  }

  predicate AllExist(slots: seq<Slot>, ins: seq<nat>) {
    forall k {:trigger ins[k]} :: 0 <= k < |ins| ==> Exists(slots, ins[k])
  }

  ghost function LiveSet(slots: seq<Slot>): set<nat> {
    set h | 0 < h < |slots| && slots[h].kind != FREE
  }

  // ---- the input edges of the table, counted --------------------------------

  ghost function InsOf(s: Slot): multiset<nat> {
    if s.kind == NODE then multiset(s.spec.ins) else multiset{}
  }

  ghost function Edges(slots: seq<Slot>): multiset<nat> {
    if slots == [] then multiset{}
    else Edges(slots[..|slots| - 1]) + InsOf(slots[|slots| - 1])
  }

  lemma {:induction false} EdgesUpdate(slots: seq<Slot>, i: nat, s: Slot)
    requires i < |slots|
    ensures Edges(slots[i := s]) + InsOf(slots[i]) == Edges(slots) + InsOf(s)
  {
    var n := |slots| - 1;
    var upd := slots[i := s];
    if i == n {
      assert upd[..n] == slots[..n];
    } else {
      assert upd[..n] == slots[..n][i := s];
      EdgesUpdate(slots[..n], i, s);
      var e0, e1, last := Edges(slots[..n]), Edges(slots[..n][i := s]), InsOf(slots[n]);
      assert slots[..n][i] == slots[i] && upd[n] == slots[n];
      assert e1 + InsOf(slots[i]) == e0 + InsOf(s);
      assert (e1 + last) + InsOf(slots[i]) == (e1 + InsOf(slots[i])) + last;
      assert (e0 + last) + InsOf(s) == (e0 + InsOf(s)) + last;
    }
  }

  lemma {:induction false} EdgesInclude(slots: seq<Slot>, n: nat)
    requires n < |slots|
    ensures InsOf(slots[n]) <= Edges(slots)
  {
    var m := |slots| - 1;
    if n < m {
      EdgesInclude(slots[..m], n);
    }
  }

  lemma {:induction false} EdgesSame(a: seq<Slot>, b: seq<Slot>)
    requires |a| == |b| && forall x :: 0 <= x < |a| ==> InsOf(a[x]) == InsOf(b[x])
    ensures Edges(a) == Edges(b)
  {
    if a != [] {
      EdgesSame(a[..|a| - 1], b[..|b| - 1]);
    }
  }

  lemma {:induction false} EdgesOfEmpty(slots: seq<Slot>)
    requires forall h :: 0 <= h < |slots| ==> slots[h].kind == FREE
    ensures Edges(slots) == multiset{}
  {
    if slots != [] {
      EdgesOfEmpty(slots[..|slots| - 1]);
    }
  }

  // ---- the invariant of the table --------------------------------------------

  ghost function RefsAt(slots: seq<Slot>, h: nat): nat {
    if Live(slots, h) then slots[h].refs else 0
  }

  /** Every count is the number of input edges, plus the releases in `pending` still to be made. */
  ghost predicate Tidy(slots: seq<Slot>, pending: multiset<nat>) {
    forall h: nat :: RefsAt(slots, h) == Edges(slots)[h] + pending[h]
  }

  /** No released slot with zero references survives. */
  ghost predicate Held(slots: seq<Slot>) {
    forall h: nat :: Live(slots, h) && slots[h].released ==> slots[h].refs > 0
  }

  ghost predicate InputsBelow(slots: seq<Slot>, h: nat)
    requires h < |slots|
  {
    forall k :: 0 <= k < |slots[h].spec.ins| ==>
      Live(slots, slots[h].spec.ins[k]) && slots[slots[h].spec.ins[k]].born < slots[h].born
  }

  /** The graph is acyclic: every input of a live node is live, and older than the node. */
  ghost predicate Ordered(slots: seq<Slot>) {
    forall h: nat :: h < |slots| && slots[h].kind == NODE ==> InputsBelow(slots, h)
  }

  /** A made constant -- an axis, a shape -- is an int32 scalar or vector. */
  predicate IsMade(t: Tensor) {
    t.dtype == INT32 && |t.shape| <= 1
  }

  /** What the fields of one slot say of each other. */
  predicate WellFormed(s: Slot) {
    && (s.kind == VALUE ==> s.eh.Some?)
    && (s.kind == NODE && s.released ==> s.eh.None?)
    && (s.kind == NODE && s.isParam ==> s.eh.None?)
    && (s.kind == NODE && s.eh.Some? ==> s.underParam)
    && (s.kind != FREE && s.host.Some? ==> s.kind == VALUE && s.eh == s.host && IsMade(s.host.value))
  }

  ghost predicate Formed(slots: seq<Slot>) {
    && |slots| > 0
    && slots[0].kind == FREE
    && forall h: nat :: h < |slots| ==> WellFormed(slots[h])
  }

  /** What every operation keeps. */
  ghost predicate Sound(slots: seq<Slot>) {
    Formed(slots) && Ordered(slots) && Held(slots) && Tidy(slots, NONE_DUE)
  }

  // ---- unref, really_free -----------------------------------------------------

  function Decremented(s: Slot): Slot {
    if s.refs > 0 then s.(refs := s.refs - 1) else s
  }

  /** unref: one reference fewer; a released slot nothing reads any more goes. */
  function Unref(slots: seq<Slot>, h: nat): (r: seq<Slot>)
    ensures |r| == |slots| && LiveSet(r) <= LiveSet(slots)
    decreases LiveSet(slots), 1, 0
  {
    if !Live(slots, h) then slots
    else
      var s1 := slots[h := Decremented(slots[h])];
      assert LiveSet(s1) == LiveSet(slots);
      if s1[h].released && s1[h].refs == 0 then ReallyFree(s1, h) else s1
  }

  /** really_free: the slot is cleared, then each input of a node loses a reference. */
  function ReallyFree(slots: seq<Slot>, h: nat): (r: seq<Slot>)
    requires Live(slots, h)
    ensures |r| == |slots| && LiveSet(r) <= LiveSet(slots)
    decreases LiveSet(slots), 0, 0
  {
    var s1 := slots[h := EMPTY];
    assert LiveSet(s1) <= LiveSet(slots) && h in LiveSet(slots) && h !in LiveSet(s1);
    if slots[h].kind == NODE then UnrefAll(s1, slots[h].spec.ins) else s1
  }

  function UnrefAll(slots: seq<Slot>, ins: seq<nat>): (r: seq<Slot>)
    ensures |r| == |slots| && LiveSet(r) <= LiveSet(slots)
    decreases LiveSet(slots), 2, |ins|
  {
    if ins == [] then slots
    else UnrefAll(Unref(slots, ins[0]), ins[1..])
  }

  /**
   What a cascade may do: a slot keeps everything but its count, or it was released, lies in
   `region`, and is cleared.
   */
  ghost predicate Shrunk(a: seq<Slot>, b: seq<Slot>, region: set<nat>) {
    && |a| == |b|
    && forall x: nat :: x < |a| ==>
         || (b[x] == a[x].(refs := b[x].refs) && (a[x].kind == FREE ==> b[x] == a[x]))
         || (b[x] == EMPTY && Live(a, x) && a[x].released && x in region)
  }

  /** Following the inputs of released nodes never leaves `region`. */
  ghost predicate Closed(slots: seq<Slot>, region: set<nat>) {
    forall x: nat, k ::
      (x in region && x < |slots| && slots[x].kind == NODE && slots[x].released && 0 <= k < |slots[x].spec.ins|)
      ==> slots[x].spec.ins[k] in region
  }

  lemma ShrunkTrans(a: seq<Slot>, b: seq<Slot>, c: seq<Slot>, region: set<nat>)
    requires Shrunk(a, b, region) && Shrunk(b, c, region)
    ensures Shrunk(a, c, region)
  {
  }

  lemma ShrunkClosed(a: seq<Slot>, b: seq<Slot>, region: set<nat>)
    requires Shrunk(a, b, region) && Closed(a, region)
    ensures Closed(b, region)
  {
  }

  /** Clearing a slot nothing reads keeps the order of the rest. */
  lemma ClearedOrdered(slots: seq<Slot>, h: nat, pending: multiset<nat>)
    requires Live(slots, h) && Ordered(slots) && Held(slots[h := EMPTY])
    requires Tidy(slots, pending) && slots[h].refs == 0
    ensures Ordered(slots[h := EMPTY])
    ensures Tidy(slots[h := EMPTY], pending + InsOf(slots[h]))
  {
    hide Edges;
    var s1 := slots[h := EMPTY];
    EdgesUpdate(slots, h, EMPTY);
    assert RefsAt(slots, h) == 0;
    forall n: nat | n < |s1| && s1[n].kind == NODE
      ensures InputsBelow(s1, n)
    {
      assert InputsBelow(slots, n);
      EdgesInclude(slots, n);
      forall k | 0 <= k < |s1[n].spec.ins| ensures s1[n].spec.ins[k] != h {
        assert s1[n].spec.ins[k] in InsOf(slots[n]);
      }
    }
    forall x: nat ensures RefsAt(s1, x) == Edges(s1)[x] + (pending + InsOf(slots[h]))[x] {
      assert RefsAt(slots, x) == Edges(slots)[x] + pending[x];
      assert (Edges(s1) + InsOf(slots[h]))[x] == (Edges(slots) + InsOf(EMPTY))[x];
    }
  }

  lemma OneSlotOrdered(a: seq<Slot>, h: nat, s: Slot)
    requires Ordered(a) && Live(a, h) && s.kind != FREE && s.born == a[h].born
    requires s.kind == NODE ==> a[h].kind == NODE && s.spec == a[h].spec
    ensures Ordered(a[h := s])
  {
    var b := a[h := s];
    forall n: nat | n < |b| && b[n].kind == NODE ensures InputsBelow(b, n) {
      assert InputsBelow(a, n);
    }
  }

  lemma DecrementedRefs(slots: seq<Slot>, h: nat, x: nat)
    requires Live(slots, h) && slots[h].refs > 0
    ensures RefsAt(slots[h := Decremented(slots[h])], x) == RefsAt(slots, x) - (if x == h then 1 else 0)
  {
  }

  lemma DecrementedTidy(slots: seq<Slot>, h: nat, pending: multiset<nat>)
    requires Tidy(slots, pending + multiset{h})
    ensures Live(slots, h) && slots[h].refs > 0
    ensures Tidy(slots[h := Decremented(slots[h])], pending)
  {
    hide Edges;
    var due := pending + multiset{h};
    assert RefsAt(slots, h) == Edges(slots)[h] + due[h];
    var s1 := slots[h := Decremented(slots[h])];
    EdgesSame(slots, s1);
    forall x: nat ensures RefsAt(s1, x) == Edges(s1)[x] + pending[x] {
      hide RefsAt;
      DecrementedRefs(slots, h, x);
      assert RefsAt(slots, x) == Edges(slots)[x] + due[x];
      assert due[x] == pending[x] + (if x == h then 1 else 0);
    }
  }

  /** One release, with its whole cascade, settles exactly one pending reference. */
  lemma {:induction false} UnrefKeeps(slots: seq<Slot>, h: nat, pending: multiset<nat>, region: set<nat>)
    requires Tidy(slots, pending + multiset{h}) && Ordered(slots) && Held(slots)
    requires h in region && Closed(slots, region)
    ensures Tidy(Unref(slots, h), pending) && Ordered(Unref(slots, h)) && Held(Unref(slots, h))
    ensures Shrunk(slots, Unref(slots, h), region)
    decreases LiveSet(slots), 1, 0
  {
    hide Tidy, Ordered;
    DecrementedTidy(slots, h, pending);
    OneSlotOrdered(slots, h, Decremented(slots[h]));
    var s1 := slots[h := Decremented(slots[h])];
    assert LiveSet(s1) == LiveSet(slots);
    if s1[h].released && s1[h].refs == 0 {
      ReallyFreeKeeps(s1, h, pending, region);
    }
  }

  lemma {:induction false} ReallyFreeKeeps(slots: seq<Slot>, h: nat, pending: multiset<nat>, region: set<nat>)
    requires Live(slots, h) && slots[h].released && slots[h].refs == 0
    requires Tidy(slots, pending) && Ordered(slots) && Held(slots[h := EMPTY])
    requires h in region && Closed(slots, region)
    ensures Tidy(ReallyFree(slots, h), pending) && Ordered(ReallyFree(slots, h)) && Held(ReallyFree(slots, h))
    ensures Shrunk(slots, ReallyFree(slots, h), region)
    decreases LiveSet(slots), 0, 0
  {
    ClearedOrdered(slots, h, pending);
    var s1 := slots[h := EMPTY];
    assert LiveSet(s1) <= LiveSet(slots) && h in LiveSet(slots) && h !in LiveSet(s1);
    assert Shrunk(slots, s1, region);
    ShrunkClosed(slots, s1, region);
    if slots[h].kind == NODE {
      UnrefAllKeeps(s1, slots[h].spec.ins, pending, region);
      ShrunkTrans(slots, s1, ReallyFree(slots, h), region);
    } else {
      assert pending + InsOf(slots[h]) == pending;
    }
  }

  lemma {:induction false} UnrefAllKeeps(slots: seq<Slot>, ins: seq<nat>, pending: multiset<nat>, region: set<nat>)
    requires Tidy(slots, pending + multiset(ins)) && Ordered(slots) && Held(slots)
    requires (forall k :: 0 <= k < |ins| ==> ins[k] in region) && Closed(slots, region)
    ensures Tidy(UnrefAll(slots, ins), pending) && Ordered(UnrefAll(slots, ins)) && Held(UnrefAll(slots, ins))
    ensures Shrunk(slots, UnrefAll(slots, ins), region)
    decreases LiveSet(slots), 2, |ins|
  {
    if ins == [] {
      assert pending + multiset(ins) == pending;
    } else {
      var rest := ins[1..];
      assert ins == [ins[0]] + rest;
      assert pending + multiset(ins) == pending + multiset(rest) + multiset{ins[0]};
      UnrefKeeps(slots, ins[0], pending + multiset(rest), region);
      var s1 := Unref(slots, ins[0]);
      ShrunkClosed(slots, s1, region);
      UnrefAllKeeps(s1, rest, pending, region);
      ShrunkTrans(slots, s1, UnrefAll(slots, ins), region);
    }
  }
}
