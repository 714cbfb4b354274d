/**
 The closure of a recorded tensor (modules/tensorflow/backend.c, visit and closure_of_): the
 nodes a read needs, down to the values they rest on; its structure, which is what a compiled
 entry is made from; and the results of a call, stored back node by node.
 */
module Closures {
  import opened Collections
  import opened Wrappers
  import opened Slots
  import opened Meaning

  const MAX_LEAF := 4096
  const MAX_NODE := 8192

  datatype Closure = Closure(leaves: seq<nat>, nodes: seq<nat>)

  /** The walk so far: the closure's buffers, and the slots met. */
  datatype Walk = Walk(c: Closure, seen: set<nat>)

  datatype WalkResult = Walked(w: Walk) | Dangling | TooMany

  /** Where a walk stops; a gradient's stops only at values and at parameters that have one. */
  predicate IsLeaf(s: Slot, grad: bool) {
    s.kind == VALUE || (s.eh.Some? && (!grad || s.isParam))
  }

  predicate Bounded(slots: seq<Slot>, c: Closure) {
    InRange(slots, c.leaves) && InRange(slots, c.nodes)
  }

  /** visit: the marks in `seen` alone make it terminate, whatever the table holds. */
  function Visit(slots: seq<Slot>, h: nat, w: Walk, grad: bool): (r: WalkResult)
    ensures r.Walked? ==> w.seen <= r.w.seen
    ensures r.Walked? && Bounded(slots, w.c) ==> Bounded(slots, r.w.c)
    decreases LiveSet(slots) - w.seen, 0, 0
  {
    if !Live(slots, h) then Dangling
    else if h in w.seen then Walked(w)
    else
      var w1 := w.(seen := w.seen + {h});
      if IsLeaf(slots[h], grad) then
        if |w.c.leaves| >= MAX_LEAF then TooMany
        else Walked(w1.(c := w1.c.(leaves := w1.c.leaves + [h])))
      else
        assert LiveSet(slots) - w1.seen < LiveSet(slots) - w.seen by {
          assert h in LiveSet(slots) - w.seen && h !in LiveSet(slots) - w1.seen;
        }
        match VisitInputs(slots, h, 0, w1, grad)
        case Walked(w2) =>
          if |w2.c.nodes| >= MAX_NODE then TooMany
          else Walked(w2.(c := w2.c.(nodes := w2.c.nodes + [h])))
        case other => other
  }

  /** The inputs of node `h` from the `k`-th on, in order. */
  function VisitInputs(slots: seq<Slot>, h: nat, k: nat, w: Walk, grad: bool): (r: WalkResult)
    requires Live(slots, h) && slots[h].kind == NODE && k <= |slots[h].spec.ins|
    ensures r.Walked? ==> w.seen <= r.w.seen
    ensures r.Walked? && Bounded(slots, w.c) ==> Bounded(slots, r.w.c)
    decreases LiveSet(slots) - w.seen, 1, |slots[h].spec.ins| - k
  {
    if k == |slots[h].spec.ins| then Walked(w)
    else
      match Visit(slots, slots[h].spec.ins[k], w, grad)
      case Walked(w1) => VisitInputs(slots, h, k + 1, w1, grad)
      case other => other
  }

  ghost function Members(c: Closure): set<nat> {
    (set x | x in c.leaves) + (set x | x in c.nodes)
  }

  /** The inputs of the `i`-th node are leaves or nodes listed before it. */
  ghost predicate InputsEarlier(slots: seq<Slot>, c: Closure, i: nat)
    requires i < |c.nodes| && c.nodes[i] < |slots|
  {
    forall k {:trigger slots[c.nodes[i]].spec.ins[k]} :: 0 <= k < |slots[c.nodes[i]].spec.ins| ==>
      slots[c.nodes[i]].spec.ins[k] in c.leaves || slots[c.nodes[i]].spec.ins[k] in c.nodes[..i]
  }

  /** A closure in evaluation order: every leaf holds a value, every node follows its inputs. */
  ghost predicate Listed(slots: seq<Slot>, c: Closure, grad: bool) {
    && AllDistinct(c.leaves) && AllDistinct(c.nodes)
    && (forall j :: 0 <= j < |c.leaves| ==> Live(slots, c.leaves[j]) && IsLeaf(slots[c.leaves[j]], grad))
    && (forall i :: 0 <= i < |c.nodes| ==>
          Live(slots, c.nodes[i]) && slots[c.nodes[i]].kind == NODE && !IsLeaf(slots[c.nodes[i]], grad)
          && InputsEarlier(slots, c, i))
  }

  ghost predicate Prefixed(a: Closure, b: Closure) {
    a.leaves <= b.leaves && a.nodes <= b.nodes
  }

  /** Slots the walk is in the middle of are all younger than the one it goes to next. */
  ghost predicate OpenAbove(slots: seq<Slot>, open: set<nat>, born: nat) {
    forall o :: o in open ==> Live(slots, o) && slots[o].born > born
  }

  lemma AppendLeaf(slots: seq<Slot>, c: Closure, h: nat, grad: bool)
    requires Formed(slots) && Listed(slots, c, grad) && Live(slots, h) && IsLeaf(slots[h], grad) && h !in Members(c)
    ensures Listed(slots, c.(leaves := c.leaves + [h]), grad)
    ensures Members(c.(leaves := c.leaves + [h])) == Members(c) + {h}
  {
    var d := c.(leaves := c.leaves + [h]);
    forall i | 0 <= i < |d.nodes| ensures InputsEarlier(slots, d, i) {
      assert InputsEarlier(slots, c, i);
    }
  }

  lemma AppendNode(slots: seq<Slot>, c: Closure, h: nat, grad: bool)
    requires Formed(slots) && Listed(slots, c, grad) && Live(slots, h) && slots[h].kind == NODE
    requires !IsLeaf(slots[h], grad) && h !in Members(c)
    requires forall k :: 0 <= k < |slots[h].spec.ins| ==> slots[h].spec.ins[k] in Members(c)
    ensures Listed(slots, c.(nodes := c.nodes + [h]), grad)
    ensures Members(c.(nodes := c.nodes + [h])) == Members(c) + {h}
  {
    var d := c.(nodes := c.nodes + [h]);
    forall i | 0 <= i < |d.nodes|
      ensures Live(slots, d.nodes[i]) && InputsEarlier(slots, d, i)
    {
      if i < |c.nodes| {
        assert InputsEarlier(slots, c, i);
        assert d.nodes[..i] == c.nodes[..i];
      } else {
        assert d.nodes[..i] == c.nodes;
      }
    }
  }

  /**
   visit lists every node after all its inputs, the root last, and every leaf holds a value.
   It never meets a freed slot: it fails only when the closure's buffers are full.
   */
  lemma {:induction false} VisitLists(slots: seq<Slot>, h: nat, w: Walk, grad: bool, open: set<nat>)
    requires Formed(slots) && Ordered(slots) && Listed(slots, w.c, grad) && Live(slots, h)
    requires w.seen == Members(w.c) + open && OpenAbove(slots, open, slots[h].born)
    ensures match Visit(slots, h, w, grad)
            case Walked(w') =>
              && Listed(slots, w'.c, grad) && Prefixed(w.c, w'.c)
              && w'.seen == Members(w'.c) + open && h in Members(w'.c)
              && (h !in w.seen && !IsLeaf(slots[h], grad) ==> w'.c.nodes != [] && w'.c.nodes[|w'.c.nodes| - 1] == h)
            case Dangling => false
            case TooMany => true
    decreases slots[h].born, 1, 0
  {
    if h !in w.seen {
      var w1 := w.(seen := w.seen + {h});
      if IsLeaf(slots[h], grad) {
        AppendLeaf(slots, w.c, h, grad);
      } else {
        assert w1.seen == Members(w.c) + (open + {h});
        VisitInputsLists(slots, h, 0, w1, grad, open);
        match VisitInputs(slots, h, 0, w1, grad)
        case Walked(w2) =>
          AppendNode(slots, w2.c, h, grad);
        case TooMany =>
      }
    }
  }

  lemma {:induction false} VisitInputsLists(slots: seq<Slot>, h: nat, k: nat, w: Walk, grad: bool, open: set<nat>)
    requires Formed(slots) && Ordered(slots) && Listed(slots, w.c, grad) && Live(slots, h)
    requires slots[h].kind == NODE && !IsLeaf(slots[h], grad) && k <= |slots[h].spec.ins|
    requires w.seen == Members(w.c) + (open + {h}) && OpenAbove(slots, open, slots[h].born) && h !in Members(w.c)
    requires forall m :: 0 <= m < k ==> slots[h].spec.ins[m] in Members(w.c)
    ensures match VisitInputs(slots, h, k, w, grad)
            case Walked(w') =>
              && Listed(slots, w'.c, grad) && Prefixed(w.c, w'.c)
              && w'.seen == Members(w'.c) + (open + {h}) && h !in Members(w'.c)
              && forall m :: 0 <= m < |slots[h].spec.ins| ==> slots[h].spec.ins[m] in Members(w'.c)
            case Dangling => false
            case TooMany => true
    decreases slots[h].born, 0, |slots[h].spec.ins| - k
  {
    hide Visit, Listed, WellFormed;
    if k < |slots[h].spec.ins| {
      assert InputsBelow(slots, h);
      var x := slots[h].spec.ins[k];
      VisitLists(slots, x, w, grad, open + {h});
      match Visit(slots, x, w, grad)
      case Walked(w1) =>
        VisitOlder(slots, x, w, grad);
        VisitInputsLists(slots, h, k + 1, w1, grad, open);
      case TooMany =>
    }
  }

  /** What a walk adds is no younger than where it started. */
  lemma {:induction false} VisitOlder(slots: seq<Slot>, h: nat, w: Walk, grad: bool)
    requires Formed(slots) && Ordered(slots) && Live(slots, h)
    ensures var r := Visit(slots, h, w, grad);
            r.Walked? ==> forall x :: x in Members(r.w.c) && x !in Members(w.c) ==>
              Live(slots, x) && slots[x].born <= slots[h].born
    decreases slots[h].born, 1, 0
  {
    if h !in w.seen && !IsLeaf(slots[h], grad) {
      VisitInputsOlder(slots, h, 0, w.(seen := w.seen + {h}), grad);
    }
  }

  lemma {:induction false} VisitInputsOlder(slots: seq<Slot>, h: nat, k: nat, w: Walk, grad: bool)
    requires Formed(slots) && Ordered(slots) && Live(slots, h) && slots[h].kind == NODE && k <= |slots[h].spec.ins|
    ensures var r := VisitInputs(slots, h, k, w, grad);
            r.Walked? ==> forall x :: x in Members(r.w.c) && x !in Members(w.c) ==>
              Live(slots, x) && slots[x].born < slots[h].born
    decreases slots[h].born, 0, |slots[h].spec.ins| - k
  {
    if k < |slots[h].spec.ins| {
      assert InputsBelow(slots, h);
      var x := slots[h].spec.ins[k];
      VisitOlder(slots, x, w, grad);
      match Visit(slots, x, w, grad)
      case Walked(w1) =>
        VisitInputsOlder(slots, h, k + 1, w1, grad);
      case _ =>
    }
  }

  function ClosureOf(slots: seq<Slot>, h: nat, grad: bool): (r: WalkResult)
    ensures r.Walked? ==> Bounded(slots, r.w.c)
  {
    Visit(slots, h, Walk(Closure([], []), {}), grad)
  }

  lemma ClosureListed(slots: seq<Slot>, h: nat, grad: bool)
    requires Formed(slots) && Ordered(slots) && Live(slots, h)
    ensures match ClosureOf(slots, h, grad)
            case Walked(w) =>
              && Listed(slots, w.c, grad)
              && (!IsLeaf(slots[h], grad) ==> w.c.nodes != [] && w.c.nodes[|w.c.nodes| - 1] == h)
              && (IsLeaf(slots[h], grad) ==> w.c == Closure([h], []))
            case Dangling => false
            case TooMany => true
  {
    VisitLists(slots, h, Walk(Closure([], []), {}), grad, {});
  }

  // ---- the structure of a closure ------------------------------------------------------

  const MAX_DIM := 8

  /** A leaf or a node of a closure, by its place. */
  datatype Ref = L(j: nat) | N(i: nat)

  /** What a compiled graph knows of a leaf: its type, its shape, and a made constant's values. */
  datatype LeafSig = LeafSig(dtype: int, shape: seq<int>, fixed: Option<seq<int>>)
  datatype NodeSig = NodeSig(sig: OpSig, ins: seq<Ref>, want: bool)

  /** `targets` is present for a gradient: the place of each parameter, if it has one. */
  datatype Structure = Structure(leaves: seq<LeafSig>, nodes: seq<NodeSig>, targets: Option<seq<Option<Ref>>>)

  function IndexOf(s: seq<nat>, x: nat): (i: nat)
    requires x in s
    ensures i < |s| && s[i] == x
  {
    if s[0] == x then 0 else 1 + IndexOf(s[1..], x)
  }

  function Place(c: Closure, x: nat): Option<Ref> {
    if x in c.leaves then Some(L(IndexOf(c.leaves, x)))
    else if x in c.nodes then Some(N(IndexOf(c.nodes, x)))
    else None
  }

  /** An input's place; every input of a listed node has one. */
  function PlaceOf(c: Closure, x: nat): Ref {
    match Place(c, x) case Some(r) => r case None => L(0)
  }

  function Clipped(shape: seq<int>): seq<int> {
    if |shape| > MAX_DIM then shape[..MAX_DIM] else shape
  }

  function LeafSigOf(s: Slot): LeafSig {
    if s.eh.Some? then
      LeafSig(s.eh.value.dtype, Clipped(s.eh.value.shape), if s.host.Some? then Some(s.host.value.data) else None)
    else LeafSig(FLOAT, [], None)
  }

  /** A result of the call: no value yet, and named by the program, a parameter, or the one asked for. */
  predicate Wants(s: Slot, h: nat, root: nat) {
    s.eh.None? && (!s.released || s.isParam || h == root)
  }

  function NodeSigOf(slots: seq<Slot>, c: Closure, h: nat, root: nat): NodeSig
    requires h < |slots|
  {
    var ins := slots[h].spec.ins;
    NodeSig(slots[h].spec.sig, seq(|ins|, k requires 0 <= k < |ins| => PlaceOf(c, ins[k])), Wants(slots[h], h, root))
  }

  function StructureOf(slots: seq<Slot>, c: Closure, root: nat, ps: Option<seq<nat>>): Structure
    requires Bounded(slots, c)
  {
    Structure(seq(|c.leaves|, j requires 0 <= j < |c.leaves| => LeafSigOf(slots[c.leaves[j]])),
              seq(|c.nodes|, i requires 0 <= i < |c.nodes| => NodeSigOf(slots, c, c.nodes[i], root)),
              match ps case None => None case Some(p) => Some(seq(|p|, m requires 0 <= m < |p| => Place(c, p[m]))))
  }

  // ---- what a compiled structure computes ------------------------------------------------

  predicate RefIn(r: Ref, nleaves: nat, nnodes: nat) {
    match r case L(j) => j < nleaves case N(i) => i < nnodes
  }

  /** A graph whose operations read only placeholders and earlier operations. */
  predicate Runnable(st: Structure) {
    forall i, k :: 0 <= i < |st.nodes| && 0 <= k < |st.nodes[i].ins| ==> RefIn(st.nodes[i].ins[k], |st.leaves|, i)
  }

  function Look(r: Ref, leafVals: seq<Tensor>, nodeVals: seq<Tensor>): Tensor
    requires RefIn(r, |leafVals|, |nodeVals|)
  {
    match r case L(j) => leafVals[j] case N(i) => nodeVals[i]
  }

  /** The first `n` operations of the graph, run in order. */
  function NodeVals(run: Kernel, st: Structure, leafVals: seq<Tensor>, n: nat): (vals: seq<Tensor>)
    requires Runnable(st) && |leafVals| == |st.leaves| && n <= |st.nodes|
    ensures |vals| == n
  {
    if n == 0 then []
    else
      var prev := NodeVals(run, st, leafVals, n - 1);
      var node := st.nodes[n - 1];
      prev + [run(node.sig, seq(|node.ins|, k requires 0 <= k < |node.ins| => Look(node.ins[k], leafVals, prev)))]
  }

  /** The leaves a call feeds, in order: all but the constants. */
  function Fed(leaves: seq<LeafSig>, from: nat): (r: seq<nat>)
    requires from <= |leaves|
    ensures forall j :: j in r <==> from <= j < |leaves| && leaves[j].fixed.None?
    decreases |leaves| - from
  {
    if from == |leaves| then []
    else if leaves[from].fixed.None? then [from] + Fed(leaves, from + 1)
    else Fed(leaves, from + 1)
  }

  /** The nodes a call answers, in order. */
  function Wanted(nodes: seq<NodeSig>, from: nat): (r: seq<nat>)
    requires from <= |nodes|
    ensures forall i :: i in r <==> from <= i < |nodes| && nodes[i].want
    ensures forall m :: 0 <= m < |r| ==> from <= r[m] < |nodes| && nodes[r[m]].want
    ensures forall m, n :: 0 <= m < n < |r| ==> r[m] < r[n]
    decreases |nodes| - from
  {
    if from == |nodes| then []
    else if nodes[from].want then [from] + Wanted(nodes, from + 1)
    else Wanted(nodes, from + 1)
  }

  /** A call's arguments in their places, and the constants the graph carries in theirs. */
  function LeafVals(st: Structure, args: seq<Tensor>): (r: seq<Tensor>)
    requires |args| == |Fed(st.leaves, 0)|
    ensures |r| == |st.leaves|
  {
    seq(|st.leaves|, j requires 0 <= j < |st.leaves| =>
      match st.leaves[j].fixed
      case Some(data) => Tensor(st.leaves[j].dtype, st.leaves[j].shape, data)
      case None => args[IndexOf(Fed(st.leaves, 0), j)])
  }

  function Call(run: Kernel, st: Structure, args: seq<Tensor>): (ret: seq<Tensor>)
    requires Runnable(st) && |args| == |Fed(st.leaves, 0)|
    ensures |ret| == |Wanted(st.nodes, 0)|
  {
    var vals := NodeVals(run, st, LeafVals(st, args), |st.nodes|);
    var out := Wanted(st.nodes, 0);
    seq(|out|, k requires 0 <= k < |out| => assert out[k] in out; vals[out[k]])
  }

  /** What a call on closure `c` passes: the handle of each fed leaf. */
  function ArgsOf(slots: seq<Slot>, c: Closure, st: Structure): (args: seq<Tensor>)
    requires InRange(slots, c.leaves) && |st.leaves| == |c.leaves|
    ensures |args| == |Fed(st.leaves, 0)|
  {
    var fed := Fed(st.leaves, 0);
    seq(|fed|, k requires 0 <= k < |fed| =>
      assert fed[k] in fed;
      match slots[c.leaves[fed[k]]].eh case Some(t) => t case None => Tensor(FLOAT, [], []))
  }

  lemma {:induction false} IndexOfPrefix(s: seq<nat>, n: nat, x: nat)
    requires n <= |s| && x in s[..n]
    ensures IndexOf(s, x) < n
  {
    if s[0] != x {
      assert s[..n][1..] == s[1..][..n - 1];
      IndexOfPrefix(s[1..], n - 1, x);
    }
  }

  lemma ListedRunnable(slots: seq<Slot>, c: Closure, grad: bool, root: nat, ps: Option<seq<nat>>)
    requires Formed(slots) && Listed(slots, c, grad)
    requires Bounded(slots, c)
    ensures Runnable(StructureOf(slots, c, root, ps))
  {
    var st := StructureOf(slots, c, root, ps);
    forall i, k | 0 <= i < |st.nodes| && 0 <= k < |st.nodes[i].ins|
      ensures RefIn(st.nodes[i].ins[k], |st.leaves|, i)
    {
      assert InputsEarlier(slots, c, i);
      var x := slots[c.nodes[i]].spec.ins[k];
      if x !in c.leaves {
        IndexOfPrefix(c.nodes, i, x);
      }
    }
  }

  lemma LeafValsDen(run: Kernel, slots: seq<Slot>, c: Closure, grad: bool, root: nat, ps: Option<seq<nat>>, j: nat)
    requires Formed(slots) && Ordered(slots) && Listed(slots, c, grad) && j < |c.leaves|
    requires Bounded(slots, c)
    ensures var st := StructureOf(slots, c, root, ps);
            Live(slots, c.leaves[j]) && LeafVals(st, ArgsOf(slots, c, st))[j] == Den(run, slots, c.leaves[j])
  {
    var s := slots[c.leaves[j]];
    assert WellFormed(s);
    if s.host.Some? {
      assert s.host.value.shape == Clipped(s.host.value.shape);
    }
  }

  /** One operation of the graph, its inputs already right. */
  lemma NodeValDen(run: Kernel, slots: seq<Slot>, c: Closure, grad: bool, root: nat, ps: Option<seq<nat>>, i: nat,
                   leafVals: seq<Tensor>, prev: seq<Tensor>)
    requires Meaningful(run, slots) && Listed(slots, c, grad) && i < |c.nodes|
    requires |leafVals| == |c.leaves| && |prev| == i
    requires forall j :: 0 <= j < |c.leaves| ==> Live(slots, c.leaves[j]) && leafVals[j] == Den(run, slots, c.leaves[j])
    requires forall m :: 0 <= m < i ==> Live(slots, c.nodes[m]) && prev[m] == Den(run, slots, c.nodes[m])
    ensures var h := c.nodes[i];
            var node := NodeSigOf(slots, c, h, root);
            && Live(slots, h) && (forall k :: 0 <= k < |node.ins| ==> RefIn(node.ins[k], |c.leaves|, i))
            && run(node.sig, seq(|node.ins|, k requires 0 <= k < |node.ins| => Look(node.ins[k], leafVals, prev))) ==
               Den(run, slots, h)
  {
    var h := c.nodes[i];
    var ins := slots[h].spec.ins;
    var node := NodeSigOf(slots, c, h, root);
    assert InputsEarlier(slots, c, i) && Taped(run, slots, h) && InputsBelow(slots, h);
    forall k | 0 <= k < |ins|
      ensures RefIn(node.ins[k], |c.leaves|, i) && Look(node.ins[k], leafVals, prev) == Inputs(run, slots, h)[k]
    {
      if ins[k] !in c.leaves {
        IndexOfPrefix(c.nodes, i, ins[k]);
      }
    }
    assert seq(|node.ins|, k requires 0 <= k < |node.ins| => Look(node.ins[k], leafVals, prev)) ==
           Inputs(run, slots, h);
  }

  lemma NodeValsMore(run: Kernel, st: Structure, leafVals: seq<Tensor>, n: nat)
    requires Runnable(st) && |leafVals| == |st.leaves| && 0 < n <= |st.nodes|
    ensures var prev, node := NodeVals(run, st, leafVals, n - 1), st.nodes[n - 1];
            && (forall k :: 0 <= k < |node.ins| ==> RefIn(node.ins[k], |st.leaves|, n - 1))
            && NodeVals(run, st, leafVals, n) == prev +
               [run(node.sig, seq(|node.ins|, k requires 0 <= k < |node.ins| => Look(node.ins[k], leafVals, prev)))]
  {
  }

  /** Run in the listed order, the graph gives each node the value it denotes. */
  lemma {:induction false} NodeValsDen(run: Kernel, slots: seq<Slot>, c: Closure, grad: bool, root: nat,
                                       ps: Option<seq<nat>>, n: nat)
    requires Meaningful(run, slots) && Listed(slots, c, grad) && n <= |c.nodes|
    requires Bounded(slots, c)
    requires Runnable(StructureOf(slots, c, root, ps))
    ensures var st := StructureOf(slots, c, root, ps);
            forall i :: 0 <= i < n ==>
              (Live(slots, c.nodes[i]) &&
               NodeVals(run, st, LeafVals(st, ArgsOf(slots, c, st)), n)[i] == Den(run, slots, c.nodes[i]))
  {
    hide LeafVals, ArgsOf, Den, Listed, NodeVals, Look, Taped, WellFormed, InputsBelow, Runnable;
    if n > 0 {
      NodeValsDen(run, slots, c, grad, root, ps, n - 1);
      var st := StructureOf(slots, c, root, ps);
      var leafVals := LeafVals(st, ArgsOf(slots, c, st));
      var prev := NodeVals(run, st, leafVals, n - 1);
      forall j | 0 <= j < |c.leaves|
        ensures Live(slots, c.leaves[j]) && leafVals[j] == Den(run, slots, c.leaves[j])
      {
        LeafValsDen(run, slots, c, grad, root, ps, j);
      }
      NodeValDen(run, slots, c, grad, root, ps, n - 1, leafVals, prev);
      NodeValsMore(run, st, leafVals, n);
    }
  }
}
