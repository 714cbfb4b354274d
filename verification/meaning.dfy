/**
 What a slot of the TensorFlow back end denotes, and the operations on the table, each shown
 to keep the table sound and to leave what every other live slot denotes unchanged.
 */
module Meaning {
  import opened Wrappers
  import opened Slots

  /** The value of a slot: the one it holds, or else the one its recipe computes. */
  ghost function Den(run: Kernel, slots: seq<Slot>, h: nat): Tensor
    requires Formed(slots) && Ordered(slots) && Live(slots, h)
    decreases slots[h].born, 1
  {
    if slots[h].eh.Some? then slots[h].eh.value
    else run(slots[h].spec.sig, Inputs(run, slots, h))
  }

  ghost function Inputs(run: Kernel, slots: seq<Slot>, h: nat): (r: seq<Tensor>)
    requires Formed(slots) && Ordered(slots) && Live(slots, h) && slots[h].kind == NODE
    ensures |r| == |slots[h].spec.ins|
    decreases slots[h].born, 0
  {
    assert InputsBelow(slots, h);
    seq(|slots[h].spec.ins|, i requires 0 <= i < |slots[h].spec.ins| => Den(run, slots, slots[h].spec.ins[i]))
  }

  /** A node that holds a value holds the value its recipe computes. */
  ghost predicate Taped(run: Kernel, slots: seq<Slot>, h: nat)
    requires Formed(slots) && Ordered(slots) && Live(slots, h)
  {
    slots[h].kind == NODE ==> Den(run, slots, h) == run(slots[h].spec.sig, Inputs(run, slots, h))
  }

  ghost predicate Meaningful(run: Kernel, slots: seq<Slot>) {
    Sound(slots) && forall h: nat :: Live(slots, h) ==> Taped(run, slots, h)
  }

  /** Every slot live in `b` was live in `a` and denotes there what it denoted. */
  ghost predicate Preserves(run: Kernel, a: seq<Slot>, b: seq<Slot>)
    requires Formed(a) && Ordered(a) && Formed(b) && Ordered(b)
  {
    forall x: nat :: Live(b, x) && Live(a, x) ==> Den(run, b, x) == Den(run, a, x)
  }

  // ---- how meaning survives a change of the table -----------------------------

  /** `b` has no new slots or recipes, and whatever value it holds is the one `a` denotes. */
  ghost predicate Settles(run: Kernel, a: seq<Slot>, b: seq<Slot>)
    requires Formed(a) && Ordered(a)
  {
    && |a| == |b|
    && forall x: nat :: Live(b, x) ==>
         && Live(a, x)
         && b[x].born == a[x].born
         && (b[x].kind == NODE ==> a[x].kind == NODE && b[x].spec == a[x].spec)
         && (b[x].eh.Some? ==> b[x].eh.value == Den(run, a, x))
  }

  lemma {:induction false} SettledDen(run: Kernel, a: seq<Slot>, b: seq<Slot>, x: nat)
    requires Meaningful(run, a) && Formed(b) && Ordered(b) && Settles(run, a, b) && Live(b, x)
    ensures Den(run, b, x) == Den(run, a, x)
    ensures Taped(run, b, x)
    decreases b[x].born
  {
    assert Live(a, x) && Taped(run, a, x);
    if b[x].kind == NODE {
      assert InputsBelow(b, x) && InputsBelow(a, x);
      forall i | 0 <= i < |b[x].spec.ins|
        ensures Inputs(run, b, x)[i] == Inputs(run, a, x)[i]
      {
        SettledDen(run, a, b, b[x].spec.ins[i]);
      }
      assert Inputs(run, b, x) == Inputs(run, a, x);
    }
  }

  lemma Settled(run: Kernel, a: seq<Slot>, b: seq<Slot>)
    requires Meaningful(run, a) && Sound(b) && Settles(run, a, b)
    ensures Meaningful(run, b) && Preserves(run, a, b)
  {
    forall x: nat | Live(b, x)
      ensures Den(run, b, x) == Den(run, a, x) && Taped(run, b, x)
    {
      SettledDen(run, a, b, x);
    }
  }

  /** `b` keeps every slot of `a`, counts and flags aside. */
  ghost predicate Extends(a: seq<Slot>, b: seq<Slot>) {
    && |a| == |b|
    && forall x: nat :: Live(a, x) ==>
         Live(b, x) && b[x].born == a[x].born && b[x].kind == a[x].kind && b[x].spec == a[x].spec && b[x].eh == a[x].eh
  }

  lemma {:induction false} ExtendedDen(run: Kernel, a: seq<Slot>, b: seq<Slot>, x: nat)
    requires Formed(a) && Ordered(a) && Formed(b) && Ordered(b) && Extends(a, b) && Live(a, x)
    ensures Den(run, b, x) == Den(run, a, x)
    ensures a[x].kind == NODE ==> Inputs(run, b, x) == Inputs(run, a, x)
    decreases a[x].born
  {
    if a[x].kind == NODE {
      assert InputsBelow(b, x) && InputsBelow(a, x);
      forall i | 0 <= i < |b[x].spec.ins|
        ensures Inputs(run, b, x)[i] == Inputs(run, a, x)[i]
      {
        ExtendedDen(run, a, b, b[x].spec.ins[i]);
      }
      assert Inputs(run, b, x) == Inputs(run, a, x);
    }
  }

  /** One slot more, and it is taped: the table stays meaningful and nothing else moves. */
  lemma Extended(run: Kernel, a: seq<Slot>, b: seq<Slot>, h: nat)
    requires Meaningful(run, a) && Sound(b) && Extends(a, b)
    requires Live(b, h) && forall x: nat :: Live(b, x) && x != h ==> Live(a, x)
    requires Taped(run, b, h)
    ensures Meaningful(run, b) && Preserves(run, a, b)
  {
    forall x: nat | Live(a, x)
      ensures Live(b, x) && Den(run, b, x) == Den(run, a, x) && (x != h ==> Taped(run, b, x))
    {
      ExtendedDen(run, a, b, x);
      assert Taped(run, a, x);
    }
  }

  // ---- tfb_free ------------------------------------------------------------------

  function Free(slots: seq<Slot>, h: nat): (r: seq<Slot>)
    ensures |r| == |slots|
  {
    if !Exists(slots, h) then slots
    else
      var s1 := slots[h := slots[h].(released := true)];
      if s1[h].refs == 0 then ReallyFree(s1, h)
      else if s1[h].kind == NODE then s1[h := s1[h].(eh := None)]
      else s1
  }

  /** A slot the program still names, other than `h`, is as it was but for its count. */
  ghost predicate Spares(a: seq<Slot>, b: seq<Slot>, h: nat) {
    && |a| == |b|
    && forall x: nat :: x != h && Exists(a, x) ==> Exists(b, x) && b[x] == a[x].(refs := b[x].refs)
  }

  lemma SameEdgesTidy(a: seq<Slot>, h: nat, s: Slot, pending: multiset<nat>)
    requires Tidy(a, pending) && Live(a, h) && s.kind != FREE && InsOf(s) == InsOf(a[h]) && s.refs == a[h].refs
    ensures Tidy(a[h := s], pending)
  {
    hide Edges;
    var b := a[h := s];
    EdgesSame(a, b);
    forall x: nat ensures RefsAt(b, x) == Edges(b)[x] + pending[x] {
      assert RefsAt(a, x) == Edges(a)[x] + pending[x];
    }
  }

  lemma LiveClosed(slots: seq<Slot>)
    requires Ordered(slots)
    ensures Closed(slots, LiveSet(slots))
  {
    forall x: nat, k | x in LiveSet(slots) && slots[x].kind == NODE && 0 <= k < |slots[x].spec.ins|
      ensures slots[x].spec.ins[k] in LiveSet(slots)
    {
      assert InputsBelow(slots, x);
    }
  }

  /** What freeing does to the table, without its meanings. */
  ghost predicate Freed(slots: seq<Slot>, r: seq<Slot>, h: nat) {
    Sound(r) && Spares(slots, r, h) && !Exists(r, h) && LiveSet(r) <= LiveSet(slots)
  }

  lemma FreeMarks(slots: seq<Slot>, h: nat)
    requires Sound(slots) && Exists(slots, h)
    ensures var s1 := slots[h := slots[h].(released := true)];
            Ordered(s1) && Tidy(s1, NONE_DUE) && LiveSet(s1) == LiveSet(slots) && Closed(s1, LiveSet(s1))
  {
    var s := slots[h].(released := true);
    OneSlotOrdered(slots, h, s);
    SameEdgesTidy(slots, h, s, NONE_DUE);
    LiveClosed(slots[h := s]);
  }

  lemma FreeSound(slots: seq<Slot>, h: nat)
    requires Sound(slots) && Exists(slots, h)
    ensures Freed(slots, Free(slots, h), h)
  {
    var s := slots[h].(released := true);
    var s1 := slots[h := s];
    FreeMarks(slots, h);
    if s.refs == 0 {
      ReallyFreeKeeps(s1, h, NONE_DUE, LiveSet(s1));
      ReleasedAlone(s1, h);
    } else if s.kind == NODE {
      assert Free(slots, h) == slots[h := s.(eh := None)];
      OneSlotOrdered(slots, h, s.(eh := None));
      SameEdgesTidy(slots, h, s.(eh := None), NONE_DUE);
    }
  }

  /** tfb_free keeps the table sound; no other slot's meaning moves; the name is gone. */
  lemma FreeKeeps(run: Kernel, slots: seq<Slot>, h: nat)
    requires Meaningful(run, slots) && Exists(slots, h)
    ensures Meaningful(run, Free(slots, h)) && Preserves(run, slots, Free(slots, h))
    ensures Spares(slots, Free(slots, h), h) && !Exists(Free(slots, h), h)
    ensures LiveSet(Free(slots, h)) <= LiveSet(slots)
  {
    FreeSound(slots, h);
    assert Taped(run, slots, h);
    FreeSettles(run, slots, h);
    hide Free;
    Settled(run, slots, Free(slots, h));
  }

  lemma FreeSettles(run: Kernel, slots: seq<Slot>, h: nat)
    requires Meaningful(run, slots) && Exists(slots, h)
    ensures Settles(run, slots, Free(slots, h))
  {
    var s1 := slots[h := slots[h].(released := true)];
    FreeMarks(slots, h);
    if s1[h].refs == 0 { ReallyFreeKeeps(s1, h, NONE_DUE, LiveSet(s1)); }
  }

  /** really_free leaves the slot it was called on free. */
  lemma ReleasedAlone(slots: seq<Slot>, h: nat)
    requires Live(slots, h) && slots[h].released && slots[h].refs == 0
    ensures !Live(ReallyFree(slots, h), h)
  {
    var s1 := slots[h := EMPTY];
    assert h !in LiveSet(s1);
    if slots[h].kind == NODE {
      assert LiveSet(UnrefAll(s1, slots[h].spec.ins)) <= LiveSet(s1);
    }
    assert h !in LiveSet(ReallyFree(slots, h));
  }

  // ---- drop_structure, take_handle ------------------------------------------------

  function DropStructure(slots: seq<Slot>, h: nat): (r: seq<Slot>)
    requires h < |slots|
    ensures |r| == |slots|
  {
    if slots[h].kind != NODE then slots
    else UnrefAll(slots[h := slots[h].(kind := VALUE, spec := NO_SPEC)], slots[h].spec.ins)
  }

  /** One result of a call: the value is taken, and the recipe dropped unless a gradient may want it. */
  function Store(slots: seq<Slot>, h: nat, t: Tensor): (r: seq<Slot>)
    requires h < |slots|
    ensures |r| == |slots|
  {
    var s1 := slots[h := slots[h].(eh := Some(t))];
    if !s1[h].underParam || s1[h].isParam then DropStructure(s1, h) else s1
  }

  /**
   A node becomes the plain value `s` and lets its inputs go: the cascade frees only released
   slots inside `region`.
   */
  lemma ReleaseInputs(slots: seq<Slot>, h: nat, s: Slot, region: set<nat>)
    requires Sound(slots) && Live(slots, h) && slots[h].kind == NODE
    requires s.kind == VALUE && WellFormed(s) && s.born == slots[h].born
    requires s.refs == slots[h].refs && s.released == slots[h].released
    requires Closed(slots, region) && h !in region
    requires forall k :: 0 <= k < |slots[h].spec.ins| ==> slots[h].spec.ins[k] in region
    ensures Sound(UnrefAll(slots[h := s], slots[h].spec.ins))
    ensures Shrunk(slots[h := s], UnrefAll(slots[h := s], slots[h].spec.ins), region)
  {
    var mid := slots[h := s];
    OneSlotOrdered(slots, h, s);
    ValueTidy(slots, h, s);
    UnrefAllKeeps(mid, slots[h].spec.ins, NONE_DUE, region);
    assert Formed(mid);
  }

  /** A node turned into a value owes its inputs one release each. */
  lemma ValueTidy(slots: seq<Slot>, h: nat, s: Slot)
    requires Tidy(slots, NONE_DUE) && Live(slots, h) && slots[h].kind == NODE && s.kind == VALUE
    requires s.refs == slots[h].refs
    ensures Tidy(slots[h := s], NONE_DUE + multiset(slots[h].spec.ins))
  {
    hide Edges;
    var mid := slots[h := s];
    EdgesUpdate(slots, h, s);
    forall x: nat ensures RefsAt(mid, x) == Edges(mid)[x] + (NONE_DUE + InsOf(slots[h]))[x] {
      assert RefsAt(slots, x) == Edges(slots)[x] + NONE_DUE[x];
      assert (Edges(mid) + InsOf(slots[h]))[x] == (Edges(slots) + InsOf(s))[x];
    }
  }

  /** What storing a value does to the table, whatever the value is. */
  lemma StoreSound(slots: seq<Slot>, h: nat, t: Tensor, region: set<nat>)
    requires Sound(slots) && Live(slots, h) && slots[h].kind == NODE
    requires slots[h].released ==> slots[h].isParam
    requires Closed(slots, region) && h !in region
    requires forall k :: 0 <= k < |slots[h].spec.ins| ==> slots[h].spec.ins[k] in region
    ensures var r := Store(slots, h, t);
            && Sound(r) && Shrunk(slots[h := r[h]], r, region)
            && Live(r, h) && r[h].eh == Some(t) && r[h].released == slots[h].released && r[h].born == slots[h].born
            && r[h].isParam == slots[h].isParam
            && (r[h].kind == NODE ==> r[h].spec == slots[h].spec)
  {
    var r := Store(slots, h, t);
    if !slots[h].underParam || slots[h].isParam {
      var s := slots[h].(eh := Some(t), kind := VALUE, spec := NO_SPEC);
      var taken := slots[h := slots[h].(eh := Some(t))];
      assert taken[h := s] == slots[h := s];
      ReleaseInputs(slots, h, s, region);
      assert slots[h := s][h := r[h]] == slots[h := r[h]];
    } else {
      var s := slots[h].(eh := Some(t));
      OneSlotOrdered(slots, h, s);
      SameEdgesTidy(slots, h, s, NONE_DUE);
      assert slots[h := r[h]] == r;
    }
  }

  /** Storing the value a node denotes changes no slot's meaning and frees nothing the program names. */
  lemma StoreKeeps(run: Kernel, slots: seq<Slot>, h: nat, region: set<nat>)
    requires Meaningful(run, slots) && Live(slots, h) && slots[h].kind == NODE
    requires slots[h].released ==> slots[h].isParam
    requires Closed(slots, region) && h !in region
    requires forall k :: 0 <= k < |slots[h].spec.ins| ==> slots[h].spec.ins[k] in region
    ensures var r := Store(slots, h, Den(run, slots, h));
            && Meaningful(run, r) && Preserves(run, slots, r)
            && Live(r, h) && r[h].eh == Some(Den(run, slots, h)) && r[h].released == slots[h].released
            && Shrunk(slots[h := r[h]], r, region)
  {
    var t := Den(run, slots, h);
    var r := Store(slots, h, t);
    StoreSound(slots, h, t, region);
    assert Settles(run, slots, r);
    Settled(run, slots, r);
  }

  // ---- new slots ---------------------------------------------------------------------

  function ValueSlot(t: Tensor, made: bool, isParam: bool, born: nat): Slot {
    Slot(VALUE, Some(t), if made then Some(t) else None, NO_SPEC, 0, false, isParam, false, born)
  }

  ghost predicate OlderThan(slots: seq<Slot>, clock: nat) {
    forall x: nat :: Live(slots, x) ==> slots[x].born < clock
  }

  lemma FreeSlotUnused(slots: seq<Slot>, h: nat)
    requires Sound(slots) && 0 < h < |slots| && slots[h].kind == FREE
    ensures Edges(slots)[h] == 0
    ensures forall n: nat, k :: n < |slots| && slots[n].kind == NODE && 0 <= k < |slots[n].spec.ins| ==>
      slots[n].spec.ins[k] != h
  {
    assert RefsAt(slots, h) == Edges(slots)[h] + NONE_DUE[h];
    forall n: nat | n < |slots| && slots[n].kind == NODE ensures InputsBelow(slots, n) {}
  }

  lemma NewValueSound(slots: seq<Slot>, h: nat, t: Tensor, made: bool, isParam: bool, born: nat)
    requires made ==> IsMade(t)
    requires Sound(slots) && 0 < h < |slots| && slots[h].kind == FREE
    ensures Sound(slots[h := ValueSlot(t, made, isParam, born)])
  {
    var s := ValueSlot(t, made, isParam, born);
    FreeSlotUnused(slots, h);
    FilledOrdered(slots, h, s);
    FilledTidy(slots, h, s);
  }

  lemma FilledOrdered(slots: seq<Slot>, h: nat, s: Slot)
    requires Ordered(slots) && h < |slots| && slots[h].kind == FREE && s.kind != NODE
    ensures Ordered(slots[h := s])
  {
    var r := slots[h := s];
    forall n: nat | n < |r| && r[n].kind == NODE ensures InputsBelow(r, n) {
      assert InputsBelow(slots, n);
      forall k | 0 <= k < |r[n].spec.ins| ensures r[n].spec.ins[k] != h {
        assert Live(slots, slots[n].spec.ins[k]);
      }
    }
  }

  lemma FilledTidy(slots: seq<Slot>, h: nat, s: Slot)
    requires Tidy(slots, NONE_DUE) && 0 < h < |slots| && slots[h].kind == FREE && s.kind != NODE
    requires (s.kind == VALUE ==> s.refs == 0)
    ensures Tidy(slots[h := s], NONE_DUE)
  {
    hide Edges;
    var r := slots[h := s];
    EdgesSame(slots, r);
    forall x: nat ensures RefsAt(r, x) == Edges(r)[x] + NONE_DUE[x] {
      assert RefsAt(slots, x) == Edges(slots)[x] + NONE_DUE[x];
    }
  }

  /** A new value disturbs nothing, and denotes what it was given. */
  lemma NewValueKeeps(run: Kernel, slots: seq<Slot>, h: nat, t: Tensor, made: bool, isParam: bool, born: nat)
    requires made ==> IsMade(t)
    requires Meaningful(run, slots) && 0 < h < |slots| && slots[h].kind == FREE
    ensures var r := slots[h := ValueSlot(t, made, isParam, born)];
            && Meaningful(run, r) && Preserves(run, slots, r)
            && Exists(r, h) && Den(run, r, h) == t && Spares(slots, r, h)
  {
    var r := slots[h := ValueSlot(t, made, isParam, born)];
    NewValueSound(slots, h, t, made, isParam, born);
    Extended(run, slots, r, h);
  }

  /** Each input of a recorded node gains a reference. */
  function AddRefs(slots: seq<Slot>, ins: seq<nat>): (r: seq<Slot>)
    requires InRange(slots, ins)
    ensures |r| == |slots|
    decreases |ins|
  {
    if ins == [] then slots
    else AddRefs(slots[ins[0] := slots[ins[0]].(refs := slots[ins[0]].refs + 1)], ins[1..])
  }

  lemma {:induction false} AddRefsAt(slots: seq<Slot>, ins: seq<nat>, x: nat)
    requires InRange(slots, ins) && x < |slots|
    ensures AddRefs(slots, ins)[x] == slots[x].(refs := slots[x].refs + multiset(ins)[x])
    decreases |ins|
  {
    if ins != [] {
      assert ins == [ins[0]] + ins[1..];
      AddRefsAt(slots[ins[0] := slots[ins[0]].(refs := slots[ins[0]].refs + 1)], ins[1..], x);
    }
  }

  function NodeSlot(spec: OpSpec, eh: Option<Tensor>, up: bool, born: nat): Slot {
    Slot(NODE, eh, None, spec, 0, false, false, up, born)
  }

  /** A node recorded in the free slot `h`, with or without its value. */
  function Record(slots: seq<Slot>, h: nat, spec: OpSpec, eh: Option<Tensor>, up: bool, born: nat): (r: seq<Slot>)
    requires h < |slots| && InRange(slots, spec.ins)
    ensures |r| == |slots|
  {
    AddRefs(slots[h := NodeSlot(spec, eh, up, born)], spec.ins)
  }

  ghost function DensOf(run: Kernel, slots: seq<Slot>, ins: seq<nat>): (r: seq<Tensor>)
    requires Formed(slots) && Ordered(slots) && (forall k {:trigger ins[k]} :: 0 <= k < |ins| ==> Live(slots, ins[k]))
    ensures |r| == |ins|
  {
    seq(|ins|, i requires 0 <= i < |ins| => Den(run, slots, ins[i]))
  }

  /** The table after a record, slot by slot. */
  lemma RecordAt(slots: seq<Slot>, h: nat, spec: OpSpec, eh: Option<Tensor>, up: bool, born: nat)
    requires 0 < h < |slots| && slots[h].kind == FREE && AllExist(slots, spec.ins)
    ensures var r := Record(slots, h, spec, eh, up, born);
            && r[h] == NodeSlot(spec, eh, up, born)
            && forall x: nat :: x < |slots| && x != h ==>
              r[x] == slots[x].(refs := slots[x].refs + multiset(spec.ins)[x])
  {
    assert h !in spec.ins;
    var mid := slots[h := NodeSlot(spec, eh, up, born)];
    forall x: nat | x < |slots| ensures AddRefs(mid,
        spec.ins)[x] == mid[x].(refs := mid[x].refs + multiset(spec.ins)[x]) {
      AddRefsAt(mid, spec.ins, x);
    }
  }

  lemma RecordEdges(slots: seq<Slot>, h: nat, spec: OpSpec, eh: Option<Tensor>, up: bool, born: nat)
    requires 0 < h < |slots| && slots[h].kind == FREE && AllExist(slots, spec.ins)
    ensures Edges(Record(slots, h, spec, eh, up, born)) == Edges(slots) + multiset(spec.ins)
  {
    var s := NodeSlot(spec, eh, up, born);
    var mid := slots[h := s];
    RecordAt(slots, h, spec, eh, up, born);
    EdgesSame(mid, Record(slots, h, spec, eh, up, born));
    EdgesUpdate(slots, h, s);
    assert Edges(mid) + InsOf(slots[h]) == Edges(mid);
  }

  lemma RecordTidy(slots: seq<Slot>, h: nat, spec: OpSpec, eh: Option<Tensor>, up: bool, born: nat)
    requires Tidy(slots, NONE_DUE) && 0 < h < |slots| && slots[h].kind == FREE && AllExist(slots, spec.ins)
    ensures Tidy(Record(slots, h, spec, eh, up, born), NONE_DUE)
  {
    hide Edges;
    var r := Record(slots, h, spec, eh, up, born);
    RecordAt(slots, h, spec, eh, up, born);
    RecordEdges(slots, h, spec, eh, up, born);
    forall x: nat ensures RefsAt(r, x) == Edges(r)[x] + NONE_DUE[x] {
      assert RefsAt(slots, x) == Edges(slots)[x] + NONE_DUE[x];
      if x in multiset(spec.ins) {
        assert x in spec.ins;
        assert Exists(slots, x);
      }
    }
  }

  lemma RecordSound(slots: seq<Slot>, h: nat, spec: OpSpec, eh: Option<Tensor>, up: bool, born: nat)
    requires Sound(slots) && 0 < h < |slots| && slots[h].kind == FREE && OlderThan(slots, born)
    requires AllExist(slots, spec.ins) && (eh.Some? ==> up)
    ensures Sound(Record(slots, h, spec, eh, up, born)) && Extends(slots, Record(slots, h, spec, eh, up, born))
    ensures Spares(slots, Record(slots, h, spec, eh, up, born), h)
  {
    var r := Record(slots, h, spec, eh, up, born);
    RecordAt(slots, h, spec, eh, up, born);
    RecordTidy(slots, h, spec, eh, up, born);
    forall n: nat | n < |r| && r[n].kind == NODE ensures InputsBelow(r, n) {
      if n != h { assert InputsBelow(slots, n); }
    }
  }

  /** Recording disturbs nothing, and the new node denotes the operation on its inputs. */
  lemma RecordKeeps(run: Kernel, slots: seq<Slot>, h: nat, spec: OpSpec, eh: Option<Tensor>, up: bool, born: nat)
    requires Meaningful(run, slots) && 0 < h < |slots| && slots[h].kind == FREE && OlderThan(slots, born)
    requires AllExist(slots, spec.ins)
    requires eh.Some? ==> up && eh.value == run(spec.sig, DensOf(run, slots, spec.ins))
    ensures var r := Record(slots, h, spec, eh, up, born);
            && Meaningful(run, r) && Preserves(run, slots, r)
            && Exists(r, h) && Den(run, r, h) == run(spec.sig, DensOf(run, slots, spec.ins))
            && Spares(slots, r, h)
  {
    var r := Record(slots, h, spec, eh, up, born);
    RecordSound(slots, h, spec, eh, up, born);
    RecordAt(slots, h, spec, eh, up, born);
    assert InputsBelow(r, h);
    forall i | 0 <= i < |spec.ins| ensures Inputs(run, r, h)[i] == DensOf(run, slots, spec.ins)[i] {
      ExtendedDen(run, slots, r, spec.ins[i]);
    }
    assert Inputs(run, r, h) == DensOf(run, slots, spec.ins);
    Extended(run, slots, r, h);
  }

  // ---- a refused record, undone ---------------------------------------------------

  lemma OneRefAt(slots: seq<Slot>, h: nat, rest: seq<nat>, x: nat)
    requires h < |slots| && x < |slots| && InRange(slots, rest) && InRange(slots, [h] + rest)
    ensures AddRefs(slots, [h] + rest)[x].(refs := 0) == AddRefs(slots, rest)[x].(refs := 0) == slots[x].(refs := 0)
    ensures AddRefs(slots, [h] + rest)[x].refs == AddRefs(slots, rest)[x].refs + (if x == h then 1 else 0)
  {
    hide AddRefs;
    AddRefsAt(slots, [h] + rest, x);
    AddRefsAt(slots, rest, x);
  }

  /** The first of the references added, taken back. */
  lemma OneRefMore(slots: seq<Slot>, h: nat, rest: seq<nat>)
    requires h < |slots| && InRange(slots, rest) && InRange(slots, [h] + rest)
    ensures var a := AddRefs(slots, [h] + rest);
            && a[h].refs > 0 && a[h].(refs := 0) == slots[h].(refs := 0)
            && a[h := a[h].(refs := a[h].refs - 1)] == AddRefs(slots, rest)
  {
    hide AddRefs;
    var a, b := AddRefs(slots, [h] + rest), AddRefs(slots, rest);
    OneRefAt(slots, h, rest, h);
    forall x: nat | x < |slots| ensures a[h := a[h].(refs := a[h].refs - 1)][x] == b[x] {
      OneRefAt(slots, h, rest, x);
    }
  }

  lemma UnrefNamed(slots: seq<Slot>, h: nat)
    requires Exists(slots, h) && slots[h].refs > 0
    ensures Unref(slots, h) == slots[h := slots[h].(refs := slots[h].refs - 1)]
  {
  }

  /** Releasing references the program also holds frees nothing: it takes back what was added. */
  lemma {:induction false} UnrefAllTakesBack(slots: seq<Slot>, ins: seq<nat>)
    requires AllExist(slots, ins)
    ensures UnrefAll(AddRefs(slots, ins), ins) == slots
    decreases |ins|
  {
    hide Unref, ReallyFree, LiveSet;
    if ins != [] {
      var h, a := ins[0], AddRefs(slots, ins);
      var rest: seq<nat> := ins[1..];
      assert ins == [h] + rest && Exists(slots, h);
      OneRefMore(slots, h, rest);
      UnrefNamed(a, h);
      UnrefAllTakesBack(slots, rest);
    }
  }

  /** The references are given back and the slot is freed again, as the refusing paths do. */
  function Undo(slots: seq<Slot>, h: nat, ins: seq<nat>): (r: seq<Slot>)
    requires h < |slots|
    ensures |r| == |slots|
  {
    var s1 := UnrefAll(slots, ins);
    s1[h := s1[h].(kind := FREE)]
  }

  /** A record the shape rules refuse leaves every other slot exactly as it was. */
  lemma UndoRestores(slots: seq<Slot>, h: nat, spec: OpSpec, up: bool, born: nat)
    requires Sound(slots) && 0 < h < |slots| && slots[h].kind == FREE && OlderThan(slots, born)
    requires AllExist(slots, spec.ins)
    ensures var r := Undo(Record(slots, h, spec, None, up, born), h, spec.ins);
            r[h].kind == FREE && forall x: nat :: x < |slots| && x != h ==> r[x] == slots[x]
  {
    var mid := slots[h := NodeSlot(spec, None, up, born)];
    assert h !in spec.ins;
    UnrefAllTakesBack(mid, spec.ins);
  }

  // ---- a step's result is a boundary ------------------------------------------------

  /** The end of tfb_step: the node is a parameter, and a value at once if it has one. */
  function MarkParam(slots: seq<Slot>, h: nat): (r: seq<Slot>)
    requires h < |slots|
    ensures |r| == |slots|
  {
    var s1 := slots[h := slots[h].(isParam := true)];
    if s1[h].eh.Some? then DropStructure(s1, h) else s1
  }

  lemma MarkParamKeeps(run: Kernel, slots: seq<Slot>, h: nat)
    requires Meaningful(run, slots) && Exists(slots, h)
    ensures var r := MarkParam(slots, h);
            && Meaningful(run, r) && Preserves(run, slots, r)
            && Exists(r, h) && r[h].isParam && Spares(slots, r, h)
            && (forall x: nat :: Live(r, x) ==> Live(slots, x) && r[x].born == slots[x].born)
  {
    var s := slots[h].(isParam := true);
    var r := MarkParam(slots, h);
    assert Taped(run, slots, h);
    if s.kind == NODE && s.eh.Some? {
      var below := Below(slots, slots[h].born);
      BelowClosed(slots, h);
      var v := s.(kind := VALUE, spec := NO_SPEC);
      assert slots[h := s][h := v] == slots[h := v];
      ReleaseInputs(slots, h, v, below);
    } else {
      OneSlotOrdered(slots, h, s);
      SameEdgesTidy(slots, h, s, NONE_DUE);
      assert r == slots[h := s];
      assert Sound(r);
    }
    assert Settles(run, slots, r);
    Settled(run, slots, r);
  }

  /** What is older than a node is closed under inputs, and holds the node's own. */
  lemma BelowClosed(slots: seq<Slot>, h: nat)
    requires Ordered(slots) && Exists(slots, h) && slots[h].kind == NODE
    ensures forall k :: 0 <= k < |slots[h].spec.ins| ==> slots[h].spec.ins[k] in Below(slots, slots[h].born)
    ensures Closed(slots, Below(slots, slots[h].born)) && h !in Below(slots, slots[h].born)
  {
    assert InputsBelow(slots, h);
    forall x: nat, k | x in Below(slots, slots[h].born) && slots[x].kind == NODE && 0 <= k < |slots[x].spec.ins|
      ensures slots[x].spec.ins[k] in Below(slots, slots[h].born)
    {
      assert InputsBelow(slots, x);
    }
  }

  ghost function Below(slots: seq<Slot>, born: nat): set<nat> {
    set x: nat | x < |slots| && slots[x].born < born
  }
}
